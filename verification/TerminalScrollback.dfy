/** The bounded scrollback refines the unbounded one. */
module TerminalScrollback {
  import opened Options
  import opened TerminalModel
  import opened TerminalRuns

  /** The newest entries a limit lets through. */
  function Newest(log: seq<string>, limit: Limit): seq<string> {
    if limit.Admits(|log|) then log else log[|log| - limit.max..]
  }

  /** The terminal with its unlimited log cut to `limit`, on the live and on the saved screen alike. */
  function Bounded(u: Term, limit: Limit): (t: Term)
    ensures Grid(u) && u.limit == Infinity ==> Grid(t)
  {
    u.(limit := limit, scrollback := Newest(u.scrollback, limit),
       main := if u.main.None? then None
               else Some(u.main.value.(scrollback := Newest(u.main.value.scrollback, limit))))
  }

  lemma RememberNewest(log: seq<string>, limit: Limit, line: string)
    ensures Remember(Newest(log, limit), limit, line) == Newest(log + [line], limit)
  {
    if !limit.Admits(|log + [line]|) {
      assert Remember(Newest(log, limit), limit, line) == (log + [line])[|log| + 1 - limit.max..];
    }
  }

  lemma ScrollOneCommutes(u: Term, limit: Limit)
    requires Grid(u) && u.limit == Infinity
    ensures ScrollOne(Bounded(u, limit)) == Bounded(ScrollOne(u), limit)
  {
    RememberNewest(u.scrollback, limit, TrimRight(u.screen[0]));
  }

  lemma {:induction false} ScrollBoth(u: Term, b: Term, limit: Limit, count: nat)
    requires Grid(u) && u.limit == Infinity && b == Bounded(u, limit)
    ensures Scroll(b, count) == Bounded(Scroll(u, count), limit)
    decreases count
  {
    if count > 0 {
      var u', b' := ScrollOne(u), ScrollOne(b);
      ScrollOneCommutes(u, limit);
      ScrollBoth(u', b', limit, count - 1);
      var u'', b'' := Scroll(u', count - 1), Scroll(b', count - 1);
      assert Scroll(u, count) == u'';
      assert Scroll(b, count) == b'';
      assert b'' == Bounded(u'', limit);
    }
  }

  lemma ScrollCommutes(u: Term, limit: Limit, count: nat)
    requires Grid(u) && u.limit == Infinity
    ensures Scroll(Bounded(u, limit), count) == Bounded(Scroll(u, count), limit)
  {
    ScrollBoth(u, Bounded(u, limit), limit, count);
  }

  lemma {:induction false} ScrollDownCommutes(u: Term, limit: Limit, count: nat)
    requires Grid(u) && u.limit == Infinity
    ensures ScrollDown(Bounded(u, limit), count) == Bounded(ScrollDown(u, count), limit)
    decreases count
  {
    if count > 0 {
      assert ScrollDownOne(Bounded(u, limit)) == Bounded(ScrollDownOne(u), limit);
      ScrollDownCommutes(ScrollDownOne(u), limit, count - 1);
    }
  }

  lemma LineFeedCommutes(u: Term, limit: Limit)
    requires Grid(u) && u.limit == Infinity
    ensures LineFeed(Bounded(u, limit)) == Bounded(LineFeed(u), limit)
  {
    ScrollCommutes(u, limit, 1);
  }

  lemma PutCommutes(u: Term, limit: Limit, c: char)
    requires Grid(u) && u.limit == Infinity
    ensures Put(Bounded(u, limit), c) == Bounded(Put(u, c), limit)
  {
    assert Bounded(u.(cursorX := 0), limit) == Bounded(u, limit).(cursorX := 0);
    LineFeedCommutes(u.(cursorX := 0), limit);
  }

  lemma {:induction false} PutSpacesCommutes(u: Term, limit: Limit, count: nat)
    requires Grid(u) && u.limit == Infinity
    ensures PutSpaces(Bounded(u, limit), count) == Bounded(PutSpaces(u, count), limit)
    decreases count
  {
    if count > 0 {
      PutCommutes(u, limit, ' ');
      PutSpacesCommutes(Put(u, ' '), limit, count - 1);
    }
  }

  lemma TabCommutes(u: Term, limit: Limit)
    requires Grid(u) && u.limit == Infinity
    ensures ConsumeNormal(Bounded(u, limit), '\t') == Bounded(ConsumeNormal(u, '\t'), limit)
  {
    var spaces := 8 - u.cursorX % 8;
    assert ConsumeNormal(u, '\t') == PutSpaces(u, spaces);
    assert ConsumeNormal(Bounded(u, limit), '\t') == PutSpaces(Bounded(u, limit), spaces);
    PutSpacesCommutes(u, limit, spaces);
  }

  lemma NormalCommutes(u: Term, limit: Limit, c: char)
    requires Grid(u) && u.limit == Infinity
    ensures ConsumeNormal(Bounded(u, limit), c) == Bounded(ConsumeNormal(u, c), limit)
  {
    if c == ESC || c == '\r' || c == '\U{0008}' {
    } else if c in {'\n', '\U{000b}', '\U{000c}'} {
      LineFeedCommutes(u, limit);
    } else if c == '\t' {
      TabCommutes(u, limit);
    } else if Printable(c) {
      PutCommutes(u, limit, c);
    }
  }

  lemma EscapeControlCommutes(u: Term, limit: Limit, c: char)
    requires Grid(u) && u.limit == Infinity
    ensures EscapeControl(Bounded(u, limit), c) == Bounded(EscapeControl(u, c), limit)
  {
    if c == '7' || c == '8' {
    } else if c == 'D' {
      LineFeedCommutes(u, limit);
    } else if c == 'E' {
      assert Bounded(u.(cursorX := 0), limit) == Bounded(u, limit).(cursorX := 0);
      LineFeedCommutes(u.(cursorX := 0), limit);
    } else if c == 'M' {
    } else if c == 'c' {
    }
  }

  lemma EscapeCommutes(u: Term, limit: Limit, c: char)
    requires Grid(u) && u.limit == Infinity
    ensures EscapeDispatch(Bounded(u, limit), c) == Bounded(EscapeDispatch(u, c), limit)
  {
    if c !in {'[', ']', 'P', 'X', '^', '_'} {
      EscapeControlCommutes(u, limit, c);
    }
  }

  lemma EditCommutes(u: Term, limit: Limit, mode: int, n: nat, final: char)
    requires Grid(u) && u.limit == Infinity && final in {'K', 'P', '@', 'X', 'L', 'M', 'T'}
    ensures EditGrid(Bounded(u, limit), mode, n, final) == Bounded(EditGrid(u, mode, n, final), limit)
  {
    ScrollDownCommutes(u, limit, n);
  }

  lemma EraseDisplayCommutes(u: Term, limit: Limit, mode: int)
    requires Grid(u) && u.limit == Infinity
    ensures EraseDisplay(Bounded(u, limit), mode) == Bounded(EraseDisplay(u, mode), limit)
  {
  }

  lemma OnScreenCommutes(u: Term, limit: Limit, values: seq<int>, final: char)
    requires Grid(u) && u.limit == Infinity && |values| >= 1
    ensures DispatchOnScreen(Bounded(u, limit), values, final) == Bounded(DispatchOnScreen(u, values, final), limit)
  {
    var n := Count(u, values);
    if final in {'A', 'B', 'C', 'D', 'E', 'F', 'G', 'd'} {
      MoveCommutes(u, limit, n, final);
    } else if final in {'H', 'f', 's', 'u'} {
    } else if final == 'J' {
      EraseDisplayCommutes(u, limit, values[0]);
    } else if final in {'K', 'P', '@', 'X', 'L', 'M', 'T'} {
      EditCommutes(u, limit, values[0], n, final);
    } else if final == 'S' {
      ScrollCommutes(u, limit, n);
    }
  }

  lemma MoveCommutes(u: Term, limit: Limit, n: int, final: char)
    requires Grid(u) && u.limit == Infinity
    requires n >= 1 && final in {'A', 'B', 'C', 'D', 'E', 'F', 'G', 'd'}
    ensures MoveCursor(Bounded(u, limit), n, final) == Bounded(MoveCursor(u, n, final), limit)
  {
  }

  lemma CsiCommutes(u: Term, limit: Limit, raw: string, final: char)
    requires Grid(u) && u.limit == Infinity
    ensures CsiDispatch(Bounded(u, limit), raw, final) == Bounded(CsiDispatch(u, raw, final), limit)
  {
    if !IsAlternateSwitch(raw, final) {
      OnScreenCommutes(u, limit, ParameterList(raw), final);
    }
  }

  lemma StringStateCommutes(u: Term, limit: Limit, c: char)
    requires Grid(u) && u.limit == Infinity
    requires u.parser !in {Csi, Escape, Normal}
    ensures Consume(Bounded(u, limit), c) == Bounded(Consume(u, c), limit)
  {
  }

  /** One step: cutting the log before or after makes no difference. */
  lemma ConsumeCommutes(u: Term, limit: Limit, c: char)
    requires Grid(u) && u.limit == Infinity
    ensures Grid(Bounded(u, limit))
    ensures Consume(Bounded(u, limit), c) == Bounded(Consume(u, c), limit)
  {
    match u.parser
    case Csi => CsiCommutes(u, limit, u.control, c);
    case Escape => EscapeCommutes(u, limit, c);
    case Normal => NormalCommutes(u, limit, c);
    case _ => StringStateCommutes(u, limit, c);
  }

  lemma {:induction false} FeedCommutes(u: Term, limit: Limit, s: string)
    requires Grid(u) && u.limit == Infinity && Safe(u, s)
    ensures Grid(Bounded(u, limit)) && Safe(Bounded(u, limit), s)
    ensures Feed(Bounded(u, limit), s) == Bounded(Feed(u, s), limit)
    decreases |s|
  {
    if |s| > 0 {
      ConsumeCommutes(u, limit, s[0]);
      FeedCommutes(Consume(u, s[0]), limit, s[1..]);
    }
  }

  /** Two terminals that differ only in their limit see the same input. The bounded one ends with the same
      screen and cursor, and its scrollback is the newest part of the complete log. */
  lemma BoundedScrollbackRefinesLog(cols: int, rows: int, limit: Limit, s: string)
    requires cols >= 1 && rows >= 1 && Safe(New(cols, rows, Infinity), s)
    ensures Safe(New(cols, rows, limit), s)
    ensures var bounded := Feed(New(cols, rows, limit), s);
            var complete := Feed(New(cols, rows, Infinity), s);
            && bounded.scrollback == Newest(complete.scrollback, limit)
            && bounded.screen == complete.screen
            && bounded.cursorX == complete.cursorX && bounded.cursorY == complete.cursorY
  {
    FeedCommutes(New(cols, rows, Infinity), limit, s);
    assert Bounded(New(cols, rows, Infinity), limit) == New(cols, rows, limit);
  }

  // ----- The complete log -----

  /** The steps that start the log afresh: reset, erase mode 3, and switching screens. */
  predicate RestartsLog(t: Term, c: char) {
    || (t.parser == Escape && c == 'c')
    || (t.parser == Csi && c == 'J' && ParameterList(t.control)[0] == 3)
    || (t.parser == Csi && IsAlternateSwitch(t.control, c))
  }

  lemma {:induction false} ScrollAppends(t: Term, count: nat)
    requires Grid(t) && t.limit == Infinity
    ensures t.scrollback <= Scroll(t, count).scrollback
    decreases count
  {
    if count > 0 {
      var v := ScrollOne(t);
      assert t.scrollback <= v.scrollback;
      ScrollAppends(v, count - 1);
    }
  }

  function EmptyLines(count: nat): seq<string> {
    seq(count, _ => "")
  }

  lemma {:induction false} BlankTrims(cols: int)
    ensures TrimRight(BlankLine(cols)) == ""
    decreases cols
  {
    if cols > 0 {
      assert BlankLine(cols)[..cols - 1] == BlankLine(cols - 1);
      BlankTrims(cols - 1);
    }
  }

  /** What scrolling by `count` takes off a screen: its top rows, then the blank rows that came in below. */
  function ScrolledOff(screen: seq<Line>, count: nat): seq<string> {
    if count <= |screen| then TrimmedRows(screen[..count]) else TrimmedRows(screen) + EmptyLines(count - |screen|)
  }

  /** Scrolling on the main screen logs the rows scrolled off, in order and right-trimmed, however many they are. */
  lemma {:induction false} ScrollLogsTopRows(t: Term, count: nat)
    requires Grid(t) && t.limit == Infinity && t.main.None?
    ensures Scroll(t, count).scrollback == t.scrollback + ScrolledOff(t.screen, count)
    decreases count
  {
    if count > 0 {
      var next := ScrollOne(t);
      ScrollLogsTopRows(next, count - 1);
      ScrollLogsOne(t, count, ScrolledOff(next.screen, count - 1));
      BlankTrims(t.cols);
      ScrolledOffOne(t.screen, BlankLine(t.cols), count);
    }
  }

  lemma ScrollLogsOne(t: Term, count: nat, off: seq<string>)
    requires Grid(t) && t.limit == Infinity && t.main.None? && count > 0
    requires Scroll(ScrollOne(t), count - 1).scrollback == ScrollOne(t).scrollback + off
    ensures Scroll(t, count).scrollback == t.scrollback + ([TrimRight(t.screen[0])] + off)
  {
    ScrollOneLogs(t);
    Regroup(t.scrollback, [TrimRight(t.screen[0])], off);
  }

  lemma Regroup(a: seq<string>, b: seq<string>, c: seq<string>)
    ensures (a + b) + c == a + (b + c)
  {
  }

  lemma ScrollOneLogs(t: Term)
    requires Grid(t) && t.limit == Infinity && t.main.None?
    ensures ScrollOne(t).scrollback == t.scrollback + [TrimRight(t.screen[0])]
    ensures ScrollOne(t).screen == t.screen[1..] + [BlankLine(t.cols)]
  {
  }

  lemma ScrolledOffOne(screen: seq<Line>, blank: Line, count: nat)
    requires |screen| >= 1 && count >= 1 && TrimRight(blank) == ""
    ensures ScrolledOff(screen, count) == [TrimRight(screen[0])] + ScrolledOff(screen[1..] + [blank], count - 1)
  {
    var next := screen[1..] + [blank];
    if count <= |screen| {
      assert screen[..count] == [screen[0]] + next[..count - 1];
    } else {
      assert TrimmedRows(next) == TrimmedRows(screen[1..]) + [""];
      assert TrimmedRows(screen) == [TrimRight(screen[0])] + TrimmedRows(screen[1..]);
      assert EmptyLines(count - |screen|) == [""] + EmptyLines(count - |screen| - 1);
    }
  }

  function TrimmedRows(screen: seq<Line>): seq<string> {
    seq(|screen|, i requires 0 <= i < |screen| => TrimRight(screen[i]))
  }

  lemma {:induction false} PutSpacesAppends(t: Term, count: nat)
    requires Grid(t) && t.limit == Infinity
    ensures t.scrollback <= PutSpaces(t, count).scrollback
    decreases count
  {
    if count > 0 {
      ScrollAppends(t.(cursorX := 0), 1);
      PutSpacesAppends(Put(t, ' '), count - 1);
    }
  }

  lemma NormalAppends(t: Term, c: char)
    requires Grid(t) && t.limit == Infinity
    ensures t.scrollback <= ConsumeNormal(t, c).scrollback
  {
    if c in {'\n', '\U{000b}', '\U{000c}'} {
      ScrollAppends(t, 1);
    } else if c == '\t' {
      PutSpacesAppends(t, 8 - t.cursorX % 8);
    } else if Printable(c) {
      ScrollAppends(t.(cursorX := 0), 1);
    }
  }

  lemma EscapeAppends(t: Term, c: char)
    requires Grid(t) && t.limit == Infinity && c != 'c'
    ensures t.scrollback <= EscapeDispatch(t, c).scrollback
  {
    if c == 'D' {
      ScrollAppends(t, 1);
    } else if c == 'E' {
      ScrollAppends(t.(cursorX := 0), 1);
    }
  }

  lemma CsiAppends(t: Term, raw: string, final: char)
    requires Grid(t) && t.limit == Infinity
    requires !(final == 'J' && ParameterList(raw)[0] == 3) && !IsAlternateSwitch(raw, final)
    ensures t.scrollback <= CsiDispatch(t, raw, final).scrollback
  {
    if final == 'S' {
      ScrollAppends(t, Count(t, ParameterList(raw)));
    }
  }

  /** Every other step only appends to the complete log. */
  lemma LogOnlyGrows(t: Term, c: char)
    requires Grid(t) && t.limit == Infinity && !RestartsLog(t, c)
    ensures t.scrollback <= Consume(t, c).scrollback
  {
    match t.parser
    case Csi => CsiAppends(t, t.control, c);
    case Escape => EscapeAppends(t, c);
    case Normal => NormalAppends(t, c);
    case _ =>
  }
}
