/** What every control character and sequence does when it is fed to a terminal, told by the cells before and after. */
module TerminalEffects {
  import opened Options
  import opened TerminalModel
  import opened TerminalRuns
  import opened TerminalScrollback
  import opened TerminalSequences
  import opened TerminalEditing
  import opened TerminalAlternate
  import opened TerminalLayout
  import opened TerminalLines

  // ----- Moving by a line -----

  /** The row a terminal takes leave of, in the scrollback of the main screen. */
  function Logged(t: Term, row: Line): seq<string> {
    if t.main.None? then Newest(t.scrollback + [TrimRight(row)], t.limit) else t.scrollback
  }

  /** One row down in the same column; on the last row everything moves up by one instead. */
  ghost predicate LineDown(t: Term, r: Term)
    requires Grid(t) && Grid(r)
  {
    if t.cursorY + 1 < t.rows then r == t.(cursorY := t.cursorY + 1)
    else
      && r == t.(screen := r.screen, scrollback := Logged(t, t.screen[0]))
      && forall y, x :: 0 <= y < t.rows && 0 <= x < t.cols ==>
           r.screen[y][x] == if y + 1 < t.rows then t.screen[y + 1][x] else ' '
  }

  /** One row up in the same column; on the first row everything moves down by one instead. */
  ghost predicate LineUp(t: Term, r: Term)
    requires Grid(t) && Grid(r)
  {
    if t.cursorY > 0 then r == t.(cursorY := t.cursorY - 1)
    else
      && r == t.(screen := r.screen)
      && forall y, x :: 0 <= y < t.rows && 0 <= x < t.cols ==>
           r.screen[y][x] == if y > 0 then t.screen[y - 1][x] else ' '
  }

  lemma LogsNewest(t: Term, row: Line)
    requires t.limit.Admits(|t.scrollback|) && t.main.None?
    ensures Remember(t.scrollback, t.limit, TrimRight(row)) == Logged(t, row)
  {
    RememberNewest(t.scrollback, t.limit, TrimRight(row));
    assert Newest(t.scrollback, t.limit) == t.scrollback;
  }

  lemma LineFeedGoesDown(t: Term)
    requires Grid(t)
    ensures LineDown(t, LineFeed(t))
  {
    if t.cursorY + 1 >= t.rows {
      assert Scroll(t, 1) == Scroll(ScrollOne(t), 0);
      if t.main.None? {
        LogsNewest(t, t.screen[0]);
      }
    }
  }

  // ----- Single characters -----

  /** Line feed, vertical tab and form feed. */
  lemma LineFeedEffect(t: Term, c: char)
    requires Grid(t) && t.parser == Normal && c in {'\n', '\U{000b}', '\U{000c}'}
    ensures Safe(t, [c]) && LineDown(t, Feed(t, [c]))
  {
    FeedOne(t, c);
    LineFeedGoesDown(t);
  }

  lemma CarriageReturnEffect(t: Term)
    requires Grid(t) && t.parser == Normal
    ensures Safe(t, ['\r']) && Feed(t, ['\r']) == t.(cursorX := 0)
  {
    FeedOne(t, '\r');
  }

  lemma BackspaceEffect(t: Term)
    requires Grid(t) && t.parser == Normal
    ensures Safe(t, ['\U{0008}'])
    ensures Feed(t, ['\U{0008}']) == t.(cursorX := if t.cursorX == 0 then 0 else t.cursorX - 1)
  {
    FeedOne(t, '\U{0008}');
  }

  /** The character is on the cursor's cell, and the cursor behind it. */
  ghost predicate Printed(t: Term, c: char, r: Term)
    requires Grid(t) && Grid(r)
  {
    && r == t.(screen := r.screen, cursorX := t.cursorX + 1)
    && forall y, x :: 0 <= y < t.rows && 0 <= x < t.cols ==>
         r.screen[y][x] == if y == t.cursorY && x == t.cursorX then c else t.screen[y][x]
  }

  lemma PutPrints(t: Term, c: char)
    requires Grid(t) && t.cursorX < t.cols
    ensures Printed(t, c, Put(t, c))
  {
  }

  lemma PutWraps(t: Term, c: char)
    requires Grid(t) && t.cursorX == t.cols
    ensures Put(t, c) == Put(LineFeed(t.(cursorX := 0)), c)
  {
  }

  /** A printable character: on the cursor's cell, or on the first one of the next line if the wrap was deferred. */
  lemma PrintableEffect(t: Term, c: char)
    requires Grid(t) && t.parser == Normal && c >= ' ' && c != '\U{007f}'
    ensures Safe(t, [c]) && Safe(t, NEWLINE)
    ensures Printed(if t.cursorX < t.cols then t else Feed(t, NEWLINE), c, Feed(t, [c]))
  {
    FeedPrintable(t, c);
    FeedNewline(t);
    if t.cursorX < t.cols {
      PutPrints(t, c);
    } else {
      PutWraps(t, c);
      PutPrints(LineFeed(t.(cursorX := 0)), c);
    }
  }

  function Blanks(n: nat): (s: string)
    ensures |s| == n && forall i :: 0 <= i < n ==> s[i] == ' '
  {
    if n == 0 then "" else [' '] + Blanks(n - 1)
  }

  lemma FeedTab(t: Term, spaces: nat)
    requires Grid(t) && t.parser == Normal && spaces == 8 - t.cursorX % 8
    ensures Safe(t, ['\t']) && Feed(t, ['\t']) == PutSpaces(t, spaces)
  {
    FeedOne(t, '\t');
    TabIsSpaces(t, spaces);
  }

  lemma TabIsSpaces(t: Term, spaces: nat)
    requires Grid(t) && t.parser == Normal && spaces == 8 - t.cursorX % 8
    ensures Consume(t, '\t') == PutSpaces(t, spaces)
  {
  }

  /** A tab prints blanks up to the next column that is a multiple of eight, at least one. */
  lemma TabEffect(t: Term, n: nat)
    requires Grid(t) && t.parser == Normal && 1 <= n <= 8 && (t.cursorX + n) % 8 == 0
    ensures Safe(t, ['\t']) && Safe(t, Blanks(n)) && Feed(t, ['\t']) == Feed(t, Blanks(n))
  {
    FeedTab(t, n);
    SpacesAreFed(t, n);
  }

  lemma {:induction false} SpacesAreFed(t: Term, n: nat)
    requires Grid(t) && t.parser == Normal
    ensures Safe(t, Blanks(n)) && Feed(t, Blanks(n)) == PutSpaces(t, n)
    decreases n
  {
    if n > 0 {
      assert !NegativeHome(t, ' ') && Consume(t, ' ') == Put(t, ' ');
      assert Blanks(n)[0] == ' ' && Blanks(n)[1..] == Blanks(n - 1);
      SpacesAreFed(Put(t, ' '), n - 1);
    }
  }

  /** Every other control character does nothing. */
  lemma OtherControlsEffect(t: Term, c: char)
    requires Grid(t) && t.parser == Normal && (c < ' ' || c == '\U{007f}')
    requires c !in {ESC, '\r', '\n', '\U{000b}', '\U{000c}', '\U{0008}', '\t'}
    ensures Safe(t, [c]) && Feed(t, [c]) == t
  {
    FeedOne(t, c);
  }

  // ----- Escape sequences -----

  lemma DownEffect(t: Term)
    requires Grid(t) && t.parser == Normal
    ensures Safe(t, [ESC] + ['D']) && LineDown(t, Feed(t, [ESC] + ['D']))
  {
    FeedEscape(t, 'D');
    LineFeedGoesDown(t);
    ParserIsLeft(t);
  }

  lemma NextLineEffect(t: Term)
    requires Grid(t) && t.parser == Normal
    ensures Safe(t, [ESC] + ['E']) && LineDown(t.(cursorX := 0), Feed(t, [ESC] + ['E']))
  {
    FeedEscape(t, 'E');
    NextLineIsFed(t);
    LineFeedGoesDown(t.(cursorX := 0));
  }

  lemma NextLineIsFed(t: Term)
    requires Grid(t) && t.parser == Normal
    ensures EscapeDispatch(t.(parser := Escape), 'E') == LineFeed(t.(cursorX := 0))
  {
    ParserIsLeft(t.(cursorX := 0));
  }

  lemma ParserIsLeft(t: Term)
    requires Grid(t) && t.parser == Normal
    ensures LineFeed(t.(parser := Escape)).(parser := Normal) == LineFeed(t)
  {
    var e := t.(parser := Escape);
    assert Scroll(e, 1) == Scroll(ScrollOne(e), 0) && Scroll(t, 1) == Scroll(ScrollOne(t), 0);
  }

  lemma UpEffect(t: Term)
    requires Grid(t) && t.parser == Normal
    ensures Safe(t, [ESC] + ['M']) && LineUp(t, Feed(t, [ESC] + ['M']))
  {
    FeedEscape(t, 'M');
    ReverseGoesUp(t);
  }

  lemma ReverseGoesUp(t: Term)
    requires Grid(t) && t.parser == Normal
    ensures LineUp(t, ReverseLineFeed(t.(parser := Escape)).(parser := Normal))
  {
  }

  /** A full reset: blank screen and scrollback, the cursor home, the main screen shown; the saved cursor stays. */
  lemma ResetEffect(t: Term)
    requires Grid(t) && t.parser == Normal
    ensures Safe(t, [ESC] + ['c'])
    ensures var r := Feed(t, [ESC] + ['c']);
            && r == t.(screen := r.screen, scrollback := [], cursorX := 0, cursorY := 0, control := "", main := None)
            && forall y, x :: 0 <= y < t.rows && 0 <= x < t.cols ==> r.screen[y][x] == ' '
  {
    FeedEscape(t, 'c');
  }

  lemma SaveEffect(t: Term)
    requires Grid(t) && t.parser == Normal
    ensures Safe(t, [ESC] + ['7']) && Feed(t, [ESC] + ['7']) == t.(savedX := t.cursorX, savedY := t.cursorY)
  {
    FeedEscape(t, '7');
  }

  lemma RestoreEffect(t: Term)
    requires Grid(t) && t.parser == Normal
    ensures Safe(t, [ESC] + ['8']) && Feed(t, [ESC] + ['8']) == t.(cursorX := t.savedX, cursorY := t.savedY)
  {
    FeedEscape(t, '8');
  }

  /** Every other character after an escape is dropped with it. */
  lemma OtherEscapesEffect(t: Term, c: char)
    requires Grid(t) && t.parser == Normal
    requires c !in {'[', ']', 'P', 'X', '^', '_', '7', '8', 'D', 'E', 'M', 'c'}
    ensures Safe(t, [ESC] + [c]) && Feed(t, [ESC] + [c]) == t
  {
    FeedEscape(t, c);
  }

  /** Inside a device string an escape that begins no terminator is passed over, whatever follows it. */
  lemma EscapeInsideString(t: Term, c: char)
    requires Grid(t) && t.parser in {Osc, ControlString} && c != '\\'
    ensures Safe(t, [ESC] + [c]) && Feed(t, [ESC] + [c]) == t
  {
    FeedTwo(t, ESC, c);
  }

  // ----- Control sequences -----

  /** Parameters as they are written: a private prefix or none, then numbers with semicolons between them or none. */
  function Written(prefix: string, values: seq<nat>): string {
    prefix + (if |values| == 0 then "" else Encode(values))
  }

  predicate Writable(prefix: string, values: seq<nat>) {
    prefix in {"", "?", ">", "!"} && |Written(prefix, values)| <= 128
  }

  /** The first number, and how often the sequence is carried out: zero, or no number, counts as one. */
  function Number(values: seq<nat>): nat {
    if |values| == 0 then 0 else values[0]
  }

  function Times(values: seq<nat>): (n: nat)
    ensures n >= 1
  {
    if Number(values) == 0 then 1 else Number(values)
  }

  lemma WrittenReadsBack(prefix: string, values: seq<nat>)
    requires prefix in {"", "?", ">", "!"}
    ensures ParameterList(Written(prefix, values)) == if |values| == 0 then [0] else values
    ensures forall i :: 0 <= i < |Written(prefix, values)| ==> Written(prefix, values)[i] < '@'
  {
    if |values| == 0 {
      assert prefix + "" == prefix;
      assert |prefix| == 1 ==> prefix[1..] == "";
    } else {
      ParametersRoundTrip(values);
      EncodeIsParameters(values);
      EncodeStartsWithDigit(values);
      PrefixIsDropped(prefix, Encode(values));
    }
  }

  lemma PrefixIsDropped(prefix: string, rest: string)
    requires prefix in {"", "?", ">", "!"} && |rest| >= 1 && '0' <= rest[0] <= '9'
    ensures ParameterList(prefix + rest) == ParameterList(rest)
  {
    if prefix == "" {
      assert prefix + rest == rest;
    } else {
      assert (prefix + rest)[1..] == rest;
    }
  }

  /** The terminal when the final character of a sequence is read. */
  function Reading(t: Term, raw: string): Term {
    t.(parser := Csi, control := raw)
  }

  lemma SequenceIsCarriedOut(t: Term, prefix: string, values: seq<nat>, final: char)
    requires Grid(t) && t.parser == Normal && Writable(prefix, values) && '@' <= final <= '~'
    requires final !in {'H', 'f', 'h', 'l'}
    ensures var raw := Written(prefix, values);
            && Safe(t, Sequence(raw, final)) && Grid(Reading(t, raw))
            && Feed(t, Sequence(raw, final))
               == DispatchOnScreen(Reading(t, raw), if |values| == 0 then [0] else values, final)
                  .(control := "", parser := Normal)
  {
    WrittenReadsBack(prefix, values);
    SequenceDispatches(t, Written(prefix, values), final);
  }

  lemma CountIsTimes(t: Term, values: seq<nat>)
    requires t.cols >= 1
    ensures Count(t, if |values| == 0 then [0] else values) == Min(Times(values), Max(t.cols, t.rows))
  {
  }

  /** Every move. */
  lemma MoveEffect(t: Term, prefix: string, values: seq<nat>, final: char)
    requires Grid(t) && t.parser == Normal && Writable(prefix, values)
    requires final in {'A', 'B', 'C', 'D', 'E', 'F', 'G', 'd'}
    ensures Safe(t, Sequence(Written(prefix, values), final))
    ensures Feed(t, Sequence(Written(prefix, values), final)) == MovedBy(t, Times(values), final)
  {
    SequenceIsCarriedOut(t, prefix, values, final);
    CountIsTimes(t, values);
    MovesBy(t, Written(prefix, values), Times(values), final);
  }

  lemma MovesBy(t: Term, raw: string, k: nat, final: char)
    requires Grid(t) && t.parser == Normal && Grid(Reading(t, raw)) && k >= 1
    requires final in {'A', 'B', 'C', 'D', 'E', 'F', 'G', 'd'}
    ensures MoveCursor(Reading(t, raw), Min(k, Max(t.cols, t.rows)), final).(control := "", parser := Normal)
            == MovedBy(t, k, final)
  {
  }

  /** Up, down, right, left, first column of a lower or higher line, that column, that line; never past an edge. */
  function MovedBy(t: Term, k: nat, final: char): Term {
    var last, bottom := t.cols - 1, t.rows - 1;
    var up := if t.cursorY <= k then 0 else t.cursorY - k;
    var down := if t.cursorY + k >= bottom then bottom else t.cursorY + k;
    var right := if t.cursorX + k >= last then last else t.cursorX + k;
    var left := if t.cursorX <= k then 0 else t.cursorX - k;
    (if final == 'A' then t.(cursorY := up)
     else if final == 'B' then t.(cursorY := down)
     else if final == 'C' then t.(cursorX := right)
     else if final == 'D' then t.(cursorX := left)
     else if final == 'E' then t.(cursorX := 0, cursorY := down)
     else if final == 'F' then t.(cursorX := 0, cursorY := up)
     else if final == 'G' then t.(cursorX := if k - 1 >= last then last else k - 1)
     else t.(cursorY := if k - 1 >= bottom then bottom else k - 1)).(control := "")
  }

  /** Saving and restoring the cursor. */
  lemma SaveSequenceEffect(t: Term, prefix: string, values: seq<nat>)
    requires Grid(t) && t.parser == Normal && Writable(prefix, values)
    ensures Safe(t, Sequence(Written(prefix, values), 's'))
    ensures Feed(t, Sequence(Written(prefix, values), 's'))
            == t.(savedX := t.cursorX, savedY := t.cursorY, control := "")
  {
    SequenceIsCarriedOut(t, prefix, values, 's');
  }

  lemma RestoreSequenceEffect(t: Term, prefix: string, values: seq<nat>)
    requires Grid(t) && t.parser == Normal && Writable(prefix, values)
    ensures Safe(t, Sequence(Written(prefix, values), 'u'))
    ensures Feed(t, Sequence(Written(prefix, values), 'u'))
            == t.(cursorX := t.savedX, cursorY := t.savedY, control := "")
  {
    SequenceIsCarriedOut(t, prefix, values, 'u');
  }

  /** A sequence with any other final character does nothing. */
  lemma UnknownSequenceEffect(t: Term, prefix: string, values: seq<nat>, final: char)
    requires Grid(t) && t.parser == Normal && Writable(prefix, values) && '@' <= final <= '~'
    requires final !in {'A', 'B', 'C', 'D', 'E', 'F', 'G', 'd', 'H', 'f', 'J', 'K', 'P', '@', 'X', 'L', 'M', 'S', 'T',
                        's', 'u', 'h', 'l'}
    ensures Safe(t, Sequence(Written(prefix, values), final))
    ensures Feed(t, Sequence(Written(prefix, values), final)) == t.(control := "")
  {
    SequenceIsCarriedOut(t, prefix, values, final);
  }

  lemma HomeSequence(t: Term, prefix: string, values: seq<nat>, final: char)
    requires Grid(t) && t.parser == Normal && Writable(prefix, values) && final in {'H', 'f'}
    ensures var raw := Written(prefix, values);
            && Safe(t, Sequence(raw, final)) && Grid(Reading(t, raw))
            && Feed(t, Sequence(raw, final))
               == Home(Reading(t, raw), if |values| == 0 then [0] else values).(control := "", parser := Normal)
  {
    WrittenReadsBack(prefix, values);
    SequenceDispatches(t, Written(prefix, values), final);
    HomeOfNumbers(Reading(t, Written(prefix, values)), if |values| == 0 then [0] else values, final);
  }

  lemma HomeOfNumbers(t: Term, values: seq<nat>, final: char)
    requires Grid(t) && t.parser == Csi && |values| >= 1 && ParameterList(t.control) == values && final in {'H', 'f'}
    ensures CsiDispatch(t, t.control, final) == Home(t, values)
  {
  }

  /** The addressed row and column, numbered from one and one where nothing is written, at most the last. */
  lemma HomeEffect(t: Term, prefix: string, values: seq<nat>, final: char)
    requires Grid(t) && t.parser == Normal && Writable(prefix, values) && final in {'H', 'f'}
    ensures Safe(t, Sequence(Written(prefix, values), final))
    ensures var row, column := Times(values), if |values| < 2 || values[1] == 0 then 1 else values[1];
            Feed(t, Sequence(Written(prefix, values), final))
            == t.(cursorY := if row >= t.rows then t.rows - 1 else row - 1,
                  cursorX := if column >= t.cols then t.cols - 1 else column - 1, control := "")
  {
    HomeSequence(t, prefix, values, final);
  }

  // ----- Edits, cell by cell -----

  /** What an edit leaves in row `y` and column `x`. Lines inserted at the cursor push the ones from there on down,
      lines deleted pull the ones below up, and the same for characters of the cursor's row; characters are erased in
      place; scrolling moves all lines; erasing goes by reading order, from the cursor on, up to it, or everywhere. */
  function CellAfter(t: Term, final: char, values: seq<nat>, y: int, x: int): char
    requires Grid(t) && 0 <= y < t.rows && 0 <= x < t.cols
  {
    var k, mode, was := Times(values), Number(values), t.screen[y][x];
    var behind := y > t.cursorY || (y == t.cursorY && x >= t.cursorX);
    var ahead := y < t.cursorY || (y == t.cursorY && x <= t.cursorX);
    var erased := (mode == 0 && behind) || (mode == 1 && ahead) || mode == 2;
    if final == 'L' then
      if y < t.cursorY then was else if y < t.cursorY + k then ' ' else t.screen[y - k][x]
    else if final == 'M' then
      if y < t.cursorY then was else if y + k < t.rows then t.screen[y + k][x] else ' '
    else if final == '@' then
      if y != t.cursorY || x < t.cursorX then was else if x < t.cursorX + k then ' ' else t.screen[y][x - k]
    else if final == 'P' then
      if y != t.cursorY || x < t.cursorX then was else if x + k < t.cols then t.screen[y][x + k] else ' '
    else if final == 'X' then if y == t.cursorY && t.cursorX <= x < t.cursorX + k then ' ' else was
    else if final == 'T' then if y < k then ' ' else t.screen[y - k][x]
    else if final == 'S' then if y + k < t.rows then t.screen[y + k][x] else ' '
    else if final == 'K' then if y == t.cursorY && erased then ' ' else was
    else if erased || mode == 3 then ' ' else was
  }

  function RowAfter(t: Term, final: char, values: seq<nat>, y: int): (row: Line)
    requires Grid(t) && 0 <= y < t.rows
    ensures |row| == t.cols && forall x :: 0 <= x < t.cols ==> row[x] == CellAfter(t, final, values, y, x)
  {
    seq(t.cols, x requires 0 <= x < t.cols => CellAfter(t, final, values, y, x))
  }

  function ScreenAfter(t: Term, final: char, values: seq<nat>): (screen: seq<Line>)
    requires Grid(t)
    ensures |screen| == t.rows && forall y :: 0 <= y < t.rows ==> screen[y] == RowAfter(t, final, values, y)
  {
    seq(t.rows, y requires 0 <= y < t.rows => RowAfter(t, final, values, y))
  }

  lemma SameScreen(t: Term, final: char, values: seq<nat>, screen: seq<Line>)
    requires Grid(t) && Rectangular(screen, t.cols, t.rows)
    requires forall y, x :: 0 <= y < t.rows && 0 <= x < t.cols ==> screen[y][x] == CellAfter(t, final, values, y, x)
    ensures screen == ScreenAfter(t, final, values)
  {
    forall y | 0 <= y < t.rows ensures screen[y] == RowAfter(t, final, values, y) {
    }
  }

  /** The repeat count as the code bounds it. */
  function Repeats(t: Term, values: seq<nat>): (n: nat)
    ensures t.cols >= 1 ==> n >= 1
  {
    Max(0, Min(Times(values), Max(t.cols, t.rows)))
  }

  lemma InsertedLines(t: Term, values: seq<nat>)
    requires Grid(t)
    ensures InsertLines(t, Repeats(t, values)).screen == ScreenAfter(t, 'L', values)
  {
    var k, n := Times(values), Repeats(t, values);
    var r, long := InsertLines(t, n).screen, Splice(t.screen, t.cursorY, 0, BlankScreen(t.cols, n));
    forall y, x | 0 <= y < t.rows && 0 <= x < t.cols ensures r[y][x] == CellAfter(t, 'L', values, y, x) {
      assert long[y] == if y < t.cursorY then t.screen[y] else if y < t.cursorY + k then BlankLine(t.cols)
                        else t.screen[y - k];
    }
    SameScreen(t, 'L', values, r);
  }

  lemma DeletedLines(t: Term, values: seq<nat>)
    requires Grid(t)
    ensures DeleteLines(t, Repeats(t, values)).screen == ScreenAfter(t, 'M', values)
  {
    var n := Repeats(t, values);
    var r, kept := DeleteLines(t, n).screen, Splice(t.screen, t.cursorY, n, []);
    assert |kept| == if t.cursorY + n >= t.rows then t.cursorY else t.rows - n;
    forall y, x | 0 <= y < t.rows && 0 <= x < t.cols ensures r[y][x] == CellAfter(t, 'M', values, y, x) {
      assert y < |kept| ==> kept[y] == if y < t.cursorY then t.screen[y] else t.screen[y + n];
    }
    SameScreen(t, 'M', values, r);
  }

  lemma InsertedCharacters(t: Term, values: seq<nat>)
    requires Grid(t)
    ensures InsertCharacters(t, Repeats(t, values)).screen == ScreenAfter(t, '@', values)
  {
    var k, n, line := Times(values), Repeats(t, values), CurrentLine(t);
    var r, long := InsertCharacters(t, n).screen, Splice(line, t.cursorX, 0, BlankLine(n));
    forall y, x | 0 <= y < t.rows && 0 <= x < t.cols ensures r[y][x] == CellAfter(t, '@', values, y, x) {
      assert long[x] == if x < t.cursorX then line[x] else if x < t.cursorX + k then ' ' else line[x - k];
    }
    SameScreen(t, '@', values, r);
  }

  lemma DeletedCharacters(t: Term, values: seq<nat>)
    requires Grid(t)
    ensures DeleteCharacters(t, Repeats(t, values)).screen == ScreenAfter(t, 'P', values)
  {
    var n, line := Repeats(t, values), CurrentLine(t);
    var r, kept := DeleteCharacters(t, n).screen, Splice(line, t.cursorX, n, []);
    assert |kept| == if t.cursorX + n >= t.cols then t.cursorX else t.cols - n;
    forall y, x | 0 <= y < t.rows && 0 <= x < t.cols ensures r[y][x] == CellAfter(t, 'P', values, y, x) {
      assert x < |kept| ==> kept[x] == if x < t.cursorX then line[x] else line[x + n];
    }
    SameScreen(t, 'P', values, r);
  }

  lemma ErasedCharacters(t: Term, values: seq<nat>)
    requires Grid(t)
    ensures EraseCharacters(t, Repeats(t, values)).screen == ScreenAfter(t, 'X', values)
  {
    SameScreen(t, 'X', values, EraseCharacters(t, Repeats(t, values)).screen);
  }

  lemma ErasedLine(t: Term, values: seq<nat>)
    requires Grid(t)
    ensures EraseLine(t, Number(values)).screen == ScreenAfter(t, 'K', values)
  {
    SameScreen(t, 'K', values, EraseLine(t, Number(values)).screen);
  }

  lemma ScrolledDown(t: Term, values: seq<nat>)
    requires Grid(t)
    ensures ScrollDown(t, Repeats(t, values)).screen == ScreenAfter(t, 'T', values)
  {
    ScrolledDownScreen(t, Repeats(t, values));
    ShiftedDown(t, values, ScrollDown(t, Repeats(t, values)).screen, Min(Repeats(t, values), t.rows));
  }

  lemma ShiftedDown(t: Term, values: seq<nat>, screen: seq<Line>, n: nat)
    requires Grid(t) && n == Min(Repeats(t, values), t.rows)
    requires screen == BlankScreen(t.cols, n) + t.screen[..t.rows - n]
    ensures screen == ScreenAfter(t, 'T', values)
  {
    SameScreen(t, 'T', values, screen);
  }

  lemma ScrolledUp(t: Term, values: seq<nat>)
    requires Grid(t)
    ensures Scroll(t, Repeats(t, values)).screen == ScreenAfter(t, 'S', values)
  {
    ScrolledScreen(t, Repeats(t, values));
    ShiftedUp(t, values, Scroll(t, Repeats(t, values)).screen, Min(Repeats(t, values), t.rows));
  }

  lemma ShiftedUp(t: Term, values: seq<nat>, screen: seq<Line>, n: nat)
    requires Grid(t) && n == Min(Repeats(t, values), t.rows)
    requires screen == t.screen[n..] + BlankScreen(t.cols, n)
    ensures screen == ScreenAfter(t, 'S', values)
  {
    SameScreen(t, 'S', values, screen);
  }

  lemma ErasedDisplay(t: Term, values: seq<nat>)
    requires Grid(t)
    ensures EraseDisplay(t, Number(values)).screen == ScreenAfter(t, 'J', values)
  {
    SameScreen(t, 'J', values, EraseDisplay(t, Number(values)).screen);
  }

  lemma EditsAreDrawn(t: Term, values: seq<nat>, final: char)
    requires Grid(t) && final in {'K', 'P', '@', 'X', 'L', 'M', 'T'}
    ensures EditGrid(t, Number(values), Repeats(t, values), final).screen == ScreenAfter(t, final, values)
  {
    match final
    case 'K' => ErasedLine(t, values);
    case 'P' => DeletedCharacters(t, values);
    case '@' => InsertedCharacters(t, values);
    case 'X' => ErasedCharacters(t, values);
    case 'L' => InsertedLines(t, values);
    case 'M' => DeletedLines(t, values);
    case 'T' => ScrolledDown(t, values);
  }

  lemma EditSequence(t: Term, prefix: string, values: seq<nat>, final: char)
    requires Grid(t) && t.parser == Normal && Writable(prefix, values)
    requires final in {'K', 'P', '@', 'X', 'L', 'M', 'T'}
    ensures var raw := Written(prefix, values);
            && Safe(t, Sequence(raw, final)) && Grid(Reading(t, raw))
            && Feed(t, Sequence(raw, final))
               == EditGrid(Reading(t, raw), Number(values), Repeats(t, values), final)
                  .(control := "", parser := Normal)
  {
    SequenceIsCarriedOut(t, prefix, values, final);
    CountIsTimes(t, values);
  }

  lemma ReadingDraws(t: Term, raw: string, values: seq<nat>, final: char)
    requires Grid(t) && Grid(Reading(t, raw))
    ensures ScreenAfter(Reading(t, raw), final, values) == ScreenAfter(t, final, values)
  {
    var u := Reading(t, raw);
    forall y | 0 <= y < t.rows ensures RowAfter(u, final, values, y) == RowAfter(t, final, values, y) {
      forall x | 0 <= x < t.cols ensures CellAfter(u, final, values, y, x) == CellAfter(t, final, values, y, x) {
      }
    }
  }

  /** Every edit of the rows: only cells change, and these. */
  lemma EditEffect(t: Term, prefix: string, values: seq<nat>, final: char)
    requires Grid(t) && t.parser == Normal && Writable(prefix, values)
    requires final in {'K', 'P', '@', 'X', 'L', 'M', 'T'}
    ensures Safe(t, Sequence(Written(prefix, values), final))
    ensures Feed(t, Sequence(Written(prefix, values), final))
            == t.(screen := ScreenAfter(t, final, values), control := "")
  {
    var raw := Written(prefix, values);
    EditSequence(t, prefix, values, final);
    EditsAreDrawn(Reading(t, raw), values, final);
    ReadingDraws(t, raw, values, final);
  }

  lemma DisplaySequence(t: Term, prefix: string, values: seq<nat>)
    requires Grid(t) && t.parser == Normal && Writable(prefix, values)
    ensures var raw := Written(prefix, values);
            && Safe(t, Sequence(raw, 'J')) && Grid(Reading(t, raw))
            && Feed(t, Sequence(raw, 'J'))
               == EraseDisplay(Reading(t, raw), Number(values)).(control := "", parser := Normal)
  {
    SequenceIsCarriedOut(t, prefix, values, 'J');
  }

  /** Erasing the display, with the scrollback too for three. */
  lemma EraseDisplayEffect(t: Term, prefix: string, values: seq<nat>)
    requires Grid(t) && t.parser == Normal && Writable(prefix, values)
    ensures Safe(t, Sequence(Written(prefix, values), 'J'))
    ensures Feed(t, Sequence(Written(prefix, values), 'J'))
            == t.(screen := ScreenAfter(t, 'J', values),
                  scrollback := if Number(values) == 3 then [] else t.scrollback, control := "")
  {
    var raw := Written(prefix, values);
    DisplaySequence(t, prefix, values);
    ErasedDisplay(Reading(t, raw), values);
    ReadingDraws(t, raw, values, 'J');
  }

  lemma ScrollSequence(t: Term, prefix: string, values: seq<nat>)
    requires Grid(t) && t.parser == Normal && Writable(prefix, values)
    ensures var raw := Written(prefix, values);
            && Safe(t, Sequence(raw, 'S')) && Grid(Reading(t, raw))
            && Feed(t, Sequence(raw, 'S'))
               == Scroll(Reading(t, raw), Repeats(t, values)).(control := "", parser := Normal)
  {
    SequenceIsCarriedOut(t, prefix, values, 'S');
    ScrollIsDispatched(Reading(t, Written(prefix, values)), values);
  }

  lemma ScrollIsDispatched(t: Term, values: seq<nat>)
    requires Grid(t)
    ensures DispatchOnScreen(t, if |values| == 0 then [0] else values, 'S') == Scroll(t, Repeats(t, values))
  {
    CountIsTimes(t, values);
    ScrollsBy(t, if |values| == 0 then [0] else values, Repeats(t, values));
  }

  lemma ScrollsBy(t: Term, values: seq<int>, n: nat)
    requires Grid(t) && |values| >= 1 && Count(t, values) == n
    ensures DispatchOnScreen(t, values, 'S') == Scroll(t, n)
  {
  }

  /** Scrolling up. */
  lemma ScrollUpEffect(t: Term, prefix: string, values: seq<nat>)
    requires Grid(t) && t.parser == Normal && Writable(prefix, values)
    ensures Safe(t, Sequence(Written(prefix, values), 'S'))
    ensures var r := Feed(t, Sequence(Written(prefix, values), 'S'));
            r == t.(screen := ScreenAfter(t, 'S', values), scrollback := r.scrollback, control := "")
  {
    var raw := Written(prefix, values);
    ScrollSequence(t, prefix, values);
    ScrolledUp(Reading(t, raw), values);
    ReadingDraws(t, raw, values, 'S');
  }

  /** On the main screen of an unlimited terminal it logs as many rows as are scrolled, blank ones beyond the screen's
      height included, the count bounded by the larger dimension; on the alternate screen it logs none. */
  lemma ScrollUpLogs(t: Term, prefix: string, values: seq<nat>)
    requires Grid(t) && t.parser == Normal && Writable(prefix, values) && (t.limit == Infinity || t.main.Some?)
    ensures Safe(t, Sequence(Written(prefix, values), 'S'))
    ensures Feed(t, Sequence(Written(prefix, values), 'S')).scrollback
            == t.scrollback + (if t.main.Some? then [] else ScrolledOff(t.screen, Repeats(t, values)))
  {
    var u := Reading(t, Written(prefix, values));
    ScrollSequence(t, prefix, values);
    if t.main.Some? {
      ScrollOnAlternateLogsNothing(u, Repeats(t, values));
      assert t.scrollback + [] == t.scrollback;
    } else {
      ScrollLogsTopRows(u, Repeats(t, values));
    }
  }

  lemma {:induction false} ScrollOnAlternateLogsNothing(t: Term, n: nat)
    requires Grid(t) && t.main.Some?
    ensures Scroll(t, n).scrollback == t.scrollback
    decreases n
  {
    if n > 0 {
      ScrollOnAlternateLogsNothing(ScrollOne(t), n - 1);
      assert Scroll(t, n) == Scroll(ScrollOne(t), n - 1);
    }
  }

  // ----- The alternate screen and overlong sequences -----

  /** Switching to the alternate screen shows a blank one with the cursor home and no scrollback. */
  lemma EnterEffect(t: Term)
    requires Grid(t) && t.parser == Normal && t.main.None?
    ensures Safe(t, ENTER)
    ensures var r := Feed(t, ENTER);
            && r == t.(screen := r.screen, scrollback := [], cursorX := 0, cursorY := 0, control := "", main := r.main)
            && r.main == Some(Saved(t.screen, t.scrollback, t.cursorX, t.cursorY))
            && forall y, x :: 0 <= y < t.rows && 0 <= x < t.cols ==> r.screen[y][x] == ' '
  {
    FeedSwitch(t, 'h');
  }

  lemma LeaveEffect(t: Term)
    requires Grid(t) && t.parser == Normal
    ensures Safe(t, LEAVE)
    ensures Feed(t, LEAVE)
            == match t.main
               case None => t.(control := "")
               case Some(m) => t.(screen := m.screen, scrollback := m.scrollback, cursorX := m.cursorX,
                                  cursorY := m.cursorY, control := "", main := None)
  {
    FeedSwitch(t, 'l');
  }

  /** A sequence of more than 128 parameter characters is dropped. */
  lemma OverlongSequenceEffect(t: Term, s: string, c: char)
    requires Grid(t) && t.parser == Normal && |s| == 128 && c < '@'
    requires forall i :: 0 <= i < |s| ==> s[i] < '@'
    ensures Safe(t, [ESC] + "[" + s + [c]) && Feed(t, [ESC] + "[" + s + [c]) == t.(control := "")
  {
    var open := t.(parser := Csi, control := "");
    FeedIntroducer(t);
    assert "" + s == s;
    ParametersGather(open, s);
    AsciiLength(s);
    FeedAppend(t, [ESC] + "[", s);
    DropsOverlong(open.(control := s), c);
    FeedOne(open.(control := s), c);
    FeedAppend(t, [ESC] + "[" + s, [c]);
  }

  lemma DropsOverlong(t: Term, c: char)
    requires Grid(t) && t.parser == Csi && Utf16Length(t.control) == 128 && c < '@'
    ensures !NegativeHome(t, c) && Consume(t, c) == t.(control := "", parser := Normal)
  {
  }
}
