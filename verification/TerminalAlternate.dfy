/** The alternate screen gives the main screen back untouched. */
module TerminalAlternate {
  import opened Options
  import opened TerminalModel
  import opened TerminalRuns
  import opened TerminalSequences

  const SWITCH: string := [ESC] + "[" + "?1049"
  const ENTER: string := SWITCH + "h"
  const LEAVE: string := SWITCH + "l"

  /** A full reset, or the switch back to the main screen. */
  predicate ResetsOrLeaves(t: Term, c: char) {
    || (t.parser == Escape && c == 'c')
    || (t.parser == Csi && c == 'l' && IsAlternateSwitch(t.control, c))
  }

  predicate StaysOnAlternate(t: Term, s: string)
    requires Grid(t) && Safe(t, s)
    decreases |s|
  {
    |s| == 0 || (!ResetsOrLeaves(t, s[0]) && StaysOnAlternate(Consume(t, s[0]), s[1..]))
  }

  lemma EscapeKeepsSavedScreen(t: Term, c: char)
    requires Grid(t) && t.main.Some? && c != 'c'
    ensures EscapeDispatch(t, c).main == t.main
  {
  }

  lemma CsiKeepsSavedScreen(t: Term, raw: string, final: char)
    requires Grid(t) && t.main.Some? && !(final == 'l' && IsAlternateSwitch(raw, final))
    ensures CsiDispatch(t, raw, final).main == t.main
  {
  }

  /** On the alternate screen no other step touches what was saved, entering again included. */
  lemma ConsumeKeepsSavedScreen(t: Term, c: char)
    requires Grid(t) && t.main.Some? && !ResetsOrLeaves(t, c)
    ensures Consume(t, c).main == t.main
  {
    match t.parser
    case Csi => CsiKeepsSavedScreen(t, t.control, c);
    case Escape => EscapeKeepsSavedScreen(t, c);
    case _ =>
  }

  lemma {:induction false} FeedKeepsSavedScreen(t: Term, s: string)
    requires Grid(t) && Safe(t, s) && t.main.Some? && StaysOnAlternate(t, s)
    ensures Feed(t, s).main == t.main
    decreases |s|
  {
    if |s| > 0 {
      ConsumeKeepsSavedScreen(t, s[0]);
      FeedKeepsSavedScreen(Consume(t, s[0]), s[1..]);
    }
  }

  lemma FeedSwitchPrefix(t: Term)
    requires Grid(t) && t.parser == Normal
    ensures Safe(t, SWITCH) && Feed(t, SWITCH) == t.(parser := Csi, control := "?1049")
  {
    FeedIntroducer(t);
    assert "" + "?1049" == "?1049";
    ParametersGather(t.(parser := Csi, control := ""), "?1049");
    FeedAppend(t, [ESC] + "[", "?1049");
  }

  /** The effect of a whole switch sequence read in the normal state. */
  lemma FeedSwitch(t: Term, final: char)
    requires Grid(t) && t.parser == Normal && final in {'h', 'l'}
    ensures Safe(t, SWITCH + [final])
    ensures Feed(t, SWITCH + [final]) ==
            if final == 'h' then EnterAlternateScreen(t.(control := "")) else LeaveAlternateScreen(t.(control := ""))
  {
    FeedSwitchPrefix(t);
    FeedOne(t.(parser := Csi, control := "?1049"), final);
    FeedAppend(t, SWITCH, [final]);
    assert IsAlternateSwitch("?1049", final);
  }

  /** The terminal after the whole entering sequence. */
  function Entered(t: Term): (r: Term)
    requires Grid(t)
    ensures Grid(r)
  {
    EnterAlternateScreen(t.(control := ""))
  }

  /** Entering, any input that neither resets nor leaves, then leaving: the main screen, its scrollback and
      its cursor come back exactly. */
  lemma AlternateScreenRestores(t: Term, s: string)
    requires Grid(t) && t.parser == Normal && t.main.None?
    requires Safe(Entered(t), s) && StaysOnAlternate(Entered(t), s) && Feed(Entered(t), s).parser == Normal
    ensures Safe(t, ENTER) && Feed(t, ENTER) == Entered(t)
    ensures Safe(t, ENTER + s + LEAVE)
    ensures var r := Feed(t, ENTER + s + LEAVE);
            && r.screen == t.screen && r.scrollback == t.scrollback
            && r.cursorX == t.cursorX && r.cursorY == t.cursorY
            && r.main == None && r.parser == Normal
  {
    FeedSwitch(t, 'h');
    FeedKeepsSavedScreen(Entered(t), s);
    var last := Feed(Entered(t), s);
    FeedSwitch(last, 'l');
    FeedAppend(t, ENTER, s);
    FeedAppend(t, ENTER + s, LEAVE);
  }

  /** While the alternate screen is shown any change of size breaks the grid: the screen set aside keeps its old one. */
  lemma ResizeOnAlternateEscapes(t: Term, cols: int, rows: int)
    requires Grid(t) && t.parser == Normal && cols >= 1 && rows >= 1 && (cols != t.cols || rows != t.rows)
    ensures Safe(t, ENTER) && !Grid(Resize(Feed(t, ENTER), cols, rows))
  {
    FeedSwitch(t, 'h');
    ResizeKeepsGridExactly(Feed(t, ENTER), cols, rows);
  }

  /** Entering an already alternate screen changes nothing but the parser. */
  lemma EnterTwice(t: Term)
    requires Grid(t) && t.parser == Normal && t.main.Some?
    ensures Safe(t, ENTER) && Feed(t, ENTER) == t.(control := "")
  {
    FeedSwitch(t, 'h');
  }

  // ----- Device strings -----

  /** Inside a device string nothing is shown, whatever it holds, until its terminator. */
  lemma {:induction false} StringBodyIsInvisible(t: Term, s: string)
    requires Grid(t) && t.parser in {Osc, ControlString}
    requires BEL !in s && ESC !in s
    ensures Safe(t, s) && Feed(t, s) == t
    decreases |s|
  {
    if |s| > 0 {
      StringBodyIsInvisible(Consume(t, s[0]), s[1..]);
    }
  }

  lemma FeedTwo(t: Term, a: char, b: char)
    requires Grid(t) && !NegativeHome(t, a) && Grid(Consume(t, a)) && !NegativeHome(Consume(t, a), b)
    ensures Safe(t, [a] + [b]) && Feed(t, [a] + [b]) == Consume(Consume(t, a), b)
  {
    FeedOne(t, a);
    FeedOne(Consume(t, a), b);
    FeedAppend(t, [a], [b]);
  }

  const STRING_TERMINATOR: string := [ESC] + ['\\']

  /** A whole device string, from its introducer to the end: an operating-system command closed by BEL or by ESC \, or
      any other control string closed by ESC \. It leaves the terminal exactly as it was. */
  lemma DeviceStringIsInvisible(t: Term, introducer: char, s: string, end: string)
    requires Grid(t) && t.parser == Normal && BEL !in s && ESC !in s
    requires introducer in {']', 'P', 'X', '^', '_'}
    requires end == STRING_TERMINATOR || (introducer == ']' && end == [BEL])
    ensures Safe(t, [ESC] + [introducer] + s + end) && Feed(t, [ESC] + [introducer] + s + end) == t
  {
    FeedTwo(t, ESC, introducer);
    var inside := t.(parser := if introducer == ']' then Osc else ControlString);
    assert Feed(t, [ESC] + [introducer]) == inside;
    StringBodyIsInvisible(inside, s);
    FeedAppend(t, [ESC] + [introducer], s);
    if end == [BEL] {
      FeedOne(inside, BEL);
    } else {
      FeedTwo(inside, ESC, '\\');
    }
    FeedAppend(t, [ESC] + [introducer] + s, end);
  }
}
