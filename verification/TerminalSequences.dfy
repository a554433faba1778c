/** Control sequences as text: writing parameters in decimal and reading them back, and what a whole sequence does. */
module TerminalSequences {
  import opened TerminalModel
  import opened TerminalRuns

  // ----- Parameters -----

  function Digit(d: nat): char
    requires d < 10
  {
    '0' + d as char
  }

  function Decimal(n: nat): (s: string)
    ensures |s| >= 1 && forall i :: 0 <= i < |s| ==> '0' <= s[i] <= '9'
  {
    if n < 10 then [Digit(n)] else Decimal(n / 10) + [Digit(n % 10)]
  }

  /** The parameters with semicolons between them. */
  function Encode(values: seq<nat>): string
    requires |values| >= 1
  {
    if |values| == 1 then Decimal(values[0]) else Decimal(values[0]) + ";" + Encode(values[1..])
  }

  lemma {:induction false} DigitsAppend(s: string, d: nat, acc: nat)
    requires d < 10 && forall i :: 0 <= i < |s| ==> '0' <= s[i] <= '9'
    ensures Digits(s + [Digit(d)], acc) == 10 * Digits(s, acc) + d
    decreases |s|
  {
    if |s| == 0 {
      assert s + [Digit(d)] == [Digit(d)] && [Digit(d)][1..] == "";
    } else {
      assert (s + [Digit(d)])[1..] == s[1..] + [Digit(d)];
      DigitsAppend(s[1..], d, 10 * acc + (s[0] as int - '0' as int));
    }
  }

  lemma {:induction false} DigitsOfDecimal(n: nat)
    ensures Digits(Decimal(n), 0) == n
    decreases n
  {
    if n < 10 {
      assert [Digit(n)][1..] == "";
    } else {
      DigitsOfDecimal(n / 10);
      DigitsAppend(Decimal(n / 10), n % 10, 0);
    }
  }

  lemma ParseDecimal(n: nat)
    ensures ParseInt(Decimal(n)) == n
  {
    DigitsOfDecimal(n);
  }

  lemma {:induction false} SplitAtSemicolon(part: string, rest: string)
    requires ';' !in part
    ensures Split(part + ";" + rest, ';') == [part] + Split(rest, ';')
    decreases |part|
  {
    if |part| == 0 {
      assert part + ";" + rest == ";" + rest && (";" + rest)[1..] == rest;
    } else {
      assert (part + ";" + rest)[1..] == part[1..] + ";" + rest;
      SplitAtSemicolon(part[1..], rest);
      assert [part[0]] + part[1..] == part;
    }
  }

  lemma {:induction false} SplitWhole(part: string)
    requires ';' !in part
    ensures Split(part, ';') == [part]
    decreases |part|
  {
    if |part| > 0 {
      SplitWhole(part[1..]);
      assert [part[0]] + part[1..] == part;
    }
  }

  function Decimals(values: seq<nat>): seq<string> {
    seq(|values|, i requires 0 <= i < |values| => Decimal(values[i]))
  }

  lemma {:induction false} SplitEncoded(values: seq<nat>)
    requires |values| >= 1
    ensures Split(Encode(values), ';') == Decimals(values)
    decreases |values|
  {
    if |values| == 1 {
      SplitWhole(Decimal(values[0]));
    } else {
      SplitAtSemicolon(Decimal(values[0]), Encode(values[1..]));
      SplitEncoded(values[1..]);
      assert Decimals(values) == [Decimal(values[0])] + Decimals(values[1..]);
    }
  }

  lemma ParametersAreParts(raw: string)
    requires |raw| >= 1 && '0' <= raw[0] <= '9'
    ensures |ParameterList(raw)| == |Split(raw, ';')|
    ensures forall i :: 0 <= i < |ParameterList(raw)| ==> ParameterList(raw)[i] == ParseInt(Split(raw, ';')[i])
  {
  }

  /** Parameters written in decimal read back as themselves. */
  lemma ParametersRoundTrip(values: seq<nat>)
    requires |values| >= 1
    ensures ParameterList(Encode(values)) == values
  {
    SplitEncoded(values);
    EncodeStartsWithDigit(values);
    ParametersAreParts(Encode(values));
    forall i | 0 <= i < |values| ensures ParseInt(Decimals(values)[i]) == values[i] {
      ParseDecimal(values[i]);
    }
  }

  lemma EncodeStartsWithDigit(values: seq<nat>)
    requires |values| >= 1
    ensures |Encode(values)| >= 1 && '0' <= Encode(values)[0] <= '9'
  {
  }

  lemma {:induction false} EncodeIsParameters(values: seq<nat>)
    requires |values| >= 1
    ensures forall i :: 0 <= i < |Encode(values)| ==> '0' <= Encode(values)[i] <= ';'
    decreases |values|
  {
    if |values| > 1 {
      EncodeIsParameters(values[1..]);
    }
  }

  // ----- Numbers as they are read -----

  lemma {:induction false} DigitsStop(s: string, rest: string, acc: nat)
    requires (forall i :: 0 <= i < |s| ==> '0' <= s[i] <= '9') && NoDigitFirst(rest)
    ensures Digits(s + rest, acc) == Digits(s, acc)
    decreases |s|
  {
    if |s| == 0 {
      assert s + rest == rest;
    } else {
      assert (s + rest)[1..] == s[1..] + rest;
      DigitsStop(s[1..], rest, 10 * acc + (s[0] as int - '0' as int));
    }
  }

  predicate NoDigitFirst(s: string) {
    s == "" || s[0] < '0' || '9' < s[0]
  }

  lemma {:induction false} BlanksAreSkipped(blank: string, rest: string)
    requires forall i :: 0 <= i < |blank| ==> IsSpace(blank[i])
    ensures TrimLeft(blank + rest) == TrimLeft(rest)
    decreases |blank|
  {
    if |blank| == 0 {
      assert blank + rest == rest;
    } else {
      assert (blank + rest)[1..] == blank[1..] + rest;
      BlanksAreSkipped(blank[1..], rest);
    }
  }

  /** A number is read after white space and a sign, up to the first character that is no digit. */
  lemma NumberIsRead(blank: string, sign: string, n: nat, rest: string)
    requires (forall i :: 0 <= i < |blank| ==> IsSpace(blank[i])) && sign in {"", "+", "-"} && NoDigitFirst(rest)
    ensures ParseInt(blank + (sign + (Decimal(n) + rest))) == if sign == "-" then 0 - n else n
  {
    var number := Decimal(n) + rest;
    BlanksAreSkipped(blank, sign + number);
    DigitsStop(Decimal(n), rest, 0);
    DigitsOfDecimal(n);
    if sign == "" {
      assert sign + number == number;
    } else {
      assert (sign + number)[1..] == number;
    }
  }

  /** Without a digit there, the parameter counts as zero. */
  lemma NoNumberIsZero(blank: string, sign: string, rest: string)
    requires (forall i :: 0 <= i < |blank| ==> IsSpace(blank[i])) && sign in {"", "+", "-"} && NoDigitFirst(rest)
    requires sign == "" && rest != "" ==> rest[0] !in {'+', '-'} && !IsSpace(rest[0])
    ensures ParseInt(blank + (sign + rest)) == 0
  {
    BlanksAreSkipped(blank, sign + rest);
    if sign == "" {
      assert sign + rest == rest;
    } else {
      assert (sign + rest)[1..] == rest;
    }
  }

  function WithSemicolons(parts: seq<string>): string
    requires |parts| >= 1
  {
    if |parts| == 1 then parts[0] else parts[0] + ";" + WithSemicolons(parts[1..])
  }

  lemma {:induction false} SplitsAtSemicolons(parts: seq<string>)
    requires |parts| >= 1 && forall i :: 0 <= i < |parts| ==> ';' !in parts[i]
    ensures Split(WithSemicolons(parts), ';') == parts
    decreases |parts|
  {
    if |parts| == 1 {
      SplitWhole(parts[0]);
    } else {
      SplitAtSemicolon(parts[0], WithSemicolons(parts[1..]));
      SplitsAtSemicolons(parts[1..]);
    }
  }

  /** Whatever stands between the semicolons, after a private mark or none, is read part by part. */
  lemma PartsAreRead(mark: string, parts: seq<string>, i: nat)
    requires mark in {"", "?", ">", "!"} && i < |parts| && forall k :: 0 <= k < |parts| ==> ';' !in parts[k]
    requires parts != [""] && (mark == "" ==> WithSemicolons(parts)[..1] !in {"?", ">", "!"})
    ensures |ParameterList(mark + WithSemicolons(parts))| == |parts|
    ensures ParameterList(mark + WithSemicolons(parts))[i] == ParseInt(parts[i])
  {
    var text := WithSemicolons(parts);
    SplitsAtSemicolons(parts);
    if mark == "" {
      assert mark + text == text;
      assert [text[0]] == text[..1];
    } else {
      assert (mark + text)[1..] == text;
    }
  }

  // ----- Sequences -----

  lemma {:induction false} AsciiLength(s: string)
    requires forall i :: 0 <= i < |s| ==> s[i] < '@'
    ensures Utf16Length(s) == |s|
    decreases |s|
  {
    if |s| > 0 {
      AsciiLength(s[..|s| - 1]);
    }
  }

  lemma ParameterGathers(t: Term, c: char)
    requires Grid(t) && t.parser == Csi && Utf16Length(t.control) < 128 && c < '@'
    ensures !NegativeHome(t, c) && Consume(t, c) == t.(control := t.control + [c])
  {
  }

  /** Up to 128 parameter characters gather in the control buffer and do nothing else. */
  lemma {:induction false} ParametersGather(t: Term, s: string)
    requires Grid(t) && t.parser == Csi && |t.control| + |s| <= 128
    requires forall i :: 0 <= i < |t.control| ==> t.control[i] < '@'
    requires forall i :: 0 <= i < |s| ==> s[i] < '@'
    ensures Safe(t, s) && Feed(t, s) == t.(control := t.control + s)
    decreases |s|
  {
    if |s| == 0 {
      assert t.control + s == t.control;
    } else {
      AsciiLength(t.control);
      ParameterGathers(t, s[0]);
      ParametersGather(Consume(t, s[0]), s[1..]);
      assert t.control + [s[0]] + s[1..] == t.control + s;
    }
  }

  function Sequence(parameters: string, final: char): string {
    [ESC] + "[" + parameters + [final]
  }

  lemma FeedIntroducer(t: Term)
    requires Grid(t) && t.parser == Normal
    ensures Safe(t, [ESC] + "[") && Feed(t, [ESC] + "[") == t.(parser := Csi, control := "")
  {
    FeedOne(t, ESC);
    FeedOne(t.(parser := Escape), '[');
    FeedAppend(t, [ESC], ['[']);
  }

  /** A whole control sequence: its parameters are those it was written with, and it is carried out once. */
  lemma SequenceDispatches(t: Term, parameters: string, final: char)
    requires Grid(t) && t.parser == Normal && |parameters| <= 128 && '@' <= final <= '~'
    requires forall i :: 0 <= i < |parameters| ==> parameters[i] < '@'
    requires !NegativeHome(t.(parser := Csi, control := parameters), final)
    ensures Safe(t, Sequence(parameters, final)) && Utf16Length(parameters) == |parameters|
    ensures Feed(t, Sequence(parameters, final))
            == CsiDispatch(t.(parser := Csi, control := parameters), parameters, final)
               .(control := "", parser := Normal)
  {
    var open := t.(parser := Csi, control := "");
    var full := open.(control := parameters);
    AsciiLength(parameters);
    FeedIntroducer(t);
    assert "" + parameters == parameters;
    ParametersGather(open, parameters);
    FeedAppend(t, [ESC] + "[", parameters);
    FeedOne(full, final);
    FeedAppend(t, [ESC] + "[" + parameters, [final]);
  }

  lemma HomeDispatches(t: Term, raw: string, y: nat, x: nat)
    requires Grid(t) && t.parser == Normal && y < t.rows && x < t.cols
    requires |raw| <= 128 && (forall i :: 0 <= i < |raw| ==> raw[i] < '@') && ParameterList(raw) == [y + 1, x + 1]
    ensures Safe(t, Sequence(raw, 'H')) && Feed(t, Sequence(raw, 'H')) == t.(cursorY := y, cursorX := x, control := "")
  {
    SequenceDispatches(t, raw, 'H');
  }

  /** Every cell can be addressed: `CSI row ; column H` with one-based numbers puts the cursor exactly there. */
  lemma HomeAddressesEveryCell(t: Term, y: nat, x: nat)
    requires Grid(t) && t.parser == Normal && y < t.rows && x < t.cols && |Encode([y + 1, x + 1])| <= 128
    ensures Safe(t, Sequence(Encode([y + 1, x + 1]), 'H'))
    ensures Feed(t, Sequence(Encode([y + 1, x + 1]), 'H')) == t.(cursorY := y, cursorX := x, control := "")
  {
    ParametersRoundTrip([y + 1, x + 1]);
    EncodeIsParameters([y + 1, x + 1]);
    HomeDispatches(t, Encode([y + 1, x + 1]), y, x);
  }

  lemma MinusFiveParses()
    ensures ParameterList("-5")[0] == -5
  {
    var rest := Split("5", ';');
    assert Split("", ';') == [""];
    assert "5"[1..] == "" && rest == [['5'] + ""];
    assert "-5"[1..] == "5" && Split("-5", ';') == [['-'] + rest[0]];
    assert Split("-5", ';')[0] == "-5";
    assert Digits("5", 0) == 5 by {
      assert Digits("", 5) == 5;
    }
    assert TrimLeft("-5") == "-5";
    assert ParseInt("-5") == -5;
    assert ParameterList("-5")[0] == -5;
  }

  /** A negative row parameter leaves the grid: on any terminal, of any size, `ESC [ - 5` is safe and the `H` after it
      puts the cursor six rows above the screen. */
  lemma NegativeHomeEscapes(t: Term)
    requires Grid(t) && t.parser == Normal
    ensures Safe(t, [ESC] + "[" + "-5")
    ensures var u := Feed(t, [ESC] + "[" + "-5");
            NegativeHome(u, 'H') && Consume(u, 'H').cursorY == -6 && !Grid(Consume(u, 'H'))
  {
    FeedIntroducer(t);
    var open := t.(parser := Csi, control := "");
    assert "" + "-5" == "-5";
    ParametersGather(open, "-5");
    FeedAppend(t, [ESC] + "[", "-5");
    MinusFiveParses();
    GridBreaksExactlyAtNegativeHome(Feed(t, [ESC] + "[" + "-5"), 'H');
  }

  // ----- Moves -----

  /** Moving down and up again by the same count returns exactly when the first move met no edge, or began at the
      other one. */
  lemma DownThenUp(t: Term, n: int)
    requires Grid(t) && n >= 1
    ensures MoveCursor(MoveCursor(t, n, 'B'), n, 'A') == t <==> t.cursorY + n < t.rows || t.cursorY == 0
  {
  }

  /** The same sideways; a deferred wrap is lost. */
  lemma RightThenLeft(t: Term, n: int)
    requires Grid(t) && n >= 1
    ensures MoveCursor(MoveCursor(t, n, 'C'), n, 'D') == t <==> t.cursorX + n < t.cols || t.cursorX == 0
  {
  }

  /** A repeat count given in decimal moves by that count, bounded by the larger dimension, and at least one row. */
  lemma SequenceMovesDown(t: Term, n: nat)
    requires Grid(t) && t.parser == Normal && |Encode([n])| <= 128
    ensures Safe(t, Sequence(Encode([n]), 'B'))
    ensures Feed(t, Sequence(Encode([n]), 'B'))
            == t.(cursorY := Min(t.rows - 1, t.cursorY + Max(1, n)), control := "")
  {
    ParametersRoundTrip([n]);
    EncodeIsParameters([n]);
    SequenceDispatches(t, Encode([n]), 'B');
  }
}
