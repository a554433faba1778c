/** The text a terminal shows: scrollback and screen, right-trimmed, without empty lines at the end. */
module TerminalRendering {
  import opened TerminalModel
  import opened TerminalRuns
  import opened TerminalScrollback
  import opened TerminalLayout

  const BLOCK: char := '\U{2588}'

  /** The screen with the cursor drawn on it, a deferred wrap on the last column. */
  function Visible(t: Term, cursor: bool): (screen: seq<Line>)
    requires Grid(t)
    ensures Rectangular(screen, t.cols, t.rows)
  {
    if cursor then t.screen[t.cursorY := t.screen[t.cursorY][Min(t.cursorX, t.cols - 1) := BLOCK]] else t.screen
  }

  /** Trimming drops white space only, from the end only, and all of it. */
  lemma {:induction false} TrimRightExactly(line: Line)
    ensures TrimRight(line) <= line
    ensures forall i :: |TrimRight(line)| <= i < |line| ==> IsSpace(line[i])
    ensures var r := TrimRight(line); r == "" || !IsSpace(r[|r| - 1])
    decreases |line|
  {
    if |line| > 0 && IsSpace(line[|line| - 1]) {
      TrimRightExactly(line[..|line| - 1]);
    }
  }

  /** The cursor is drawn on its cell, the last of the row where the wrap is deferred; every other cell is as it is. */
  lemma CursorIsDrawn(t: Term, cursor: bool, y: nat, x: nat)
    requires Grid(t) && y < t.rows && x < t.cols
    ensures var onCursor := y == t.cursorY && (x == t.cursorX || (x == t.cols - 1 && t.cursorX == t.cols));
            Visible(t, cursor)[y][x] == if cursor && onCursor then BLOCK else t.screen[y][x]
  {
  }

  /** Drops empty lines from the end, but never the first line. */
  function DropEmpty(lines: seq<string>): seq<string> {
    if |lines| > 1 && lines[|lines| - 1] == "" then DropEmpty(lines[..|lines| - 1]) else lines
  }

  function JoinLines(lines: seq<string>): string {
    if |lines| == 0 then ""
    else if |lines| == 1 then lines[0]
    else JoinLines(lines[..|lines| - 1]) + "\n" + lines[|lines| - 1]
  }

  function RenderedLines(t: Term, cursor: bool): seq<string>
    requires Grid(t)
  {
    DropEmpty(t.scrollback + TrimmedRows(Visible(t, cursor)))
  }

  /** `render` */
  function Rendered(t: Term, cursor: bool): string
    requires Grid(t)
  {
    JoinLines(RenderedLines(t, cursor))
  }

  lemma TrimmedRowsAppend(rows: seq<Line>, line: Line)
    ensures TrimmedRows(rows + [line]) == TrimmedRows(rows) + [TrimRight(line)]
  {
  }

  /** Only empty lines are dropped, and as many as possible. */
  lemma {:induction false} DropEmptyExactly(lines: seq<string>)
    ensures DropEmpty(lines) <= lines
    ensures forall i :: |DropEmpty(lines)| <= i < |lines| ==> lines[i] == ""
    ensures var r := DropEmpty(lines); |r| <= 1 || r[|r| - 1] != ""
    ensures lines != [] ==> DropEmpty(lines) != []
  {
    if |lines| > 1 && lines[|lines| - 1] == "" {
      DropEmptyExactly(lines[..|lines| - 1]);
    }
  }

  lemma {:induction false} DropEmptyTail(lines: seq<string>, count: nat)
    requires |lines| >= 1
    ensures DropEmpty(lines + EmptyLines(count)) == DropEmpty(lines)
    decreases count
  {
    if count == 0 {
      assert lines + EmptyLines(0) == lines;
    } else {
      var all := lines + EmptyLines(count);
      assert all[..|all| - 1] == lines + EmptyLines(count - 1);
      DropEmptyTail(lines, count - 1);
    }
  }

  lemma RowBelowText(s: string, cols: int, full: nat, x: nat, k: nat)
    requires 1 <= x <= cols && |s| == full * cols + x && k > full
    ensures TrimRight(LogicalLine(s, cols, k)) == ""
  {
    RowsBefore(full, k, cols);
    assert LogicalLine(s, cols, k) == BlankLine(cols);
    BlankTrims(cols);
  }

  /** How many of the rows that scrolled off the limit has dropped from the scrollback. */
  function Dropped(top: nat, limit: Limit): (n: nat)
    ensures n <= top && (n == 0 <==> limit.Admits(top))
  {
    if limit.Admits(top) then 0 else top - limit.max
  }

  /** The scrollback and the screen are the text without its dropped rows, followed by blank rows. */
  lemma LinesOfText(t: Term, s: string, full: nat, x: nat)
    requires Grid(t) && 1 <= x <= t.cols && |s| == full * t.cols + x
    ensures var r := Laid(t, s, full, x);
            var lost := Dropped(Max(0, full - (t.rows - 1)), t.limit);
            r.scrollback + TrimmedRows(r.screen)
            == TrimmedLines(s, t.cols, full + 1)[lost..] + EmptyLines(Max(0, t.rows - 1 - full))
  {
    var r := Laid(t, s, full, x);
    var top := Max(0, full - (t.rows - 1));
    assert r.scrollback == TrimmedLines(s, t.cols, top)[Dropped(top, t.limit)..];
    forall k: nat | full < k < top + t.rows ensures TrimRight(LogicalLine(s, t.cols, k)) == "" {
      RowBelowText(s, t.cols, full, x, k);
    }
  }

  lemma LaidRenders(t: Term, s: string, full: nat, x: nat)
    requires Grid(t) && 1 <= x <= t.cols && |s| == full * t.cols + x
    requires Grid(Laid(t, s, full, x))
    ensures var lost := Dropped(Max(0, full - (t.rows - 1)), t.limit);
            RenderedLines(Laid(t, s, full, x), false) == DropEmpty(TrimmedLines(s, t.cols, full + 1)[lost..])
  {
    LinesOfText(t, s, full, x);
    var lost := Dropped(Max(0, full - (t.rows - 1)), t.limit);
    DropEmptyTail(TrimmedLines(s, t.cols, full + 1)[lost..], Max(0, t.rows - 1 - full));
  }

  lemma JoinsLines(t: Term, lines: seq<string>)
    requires Grid(t) && RenderedLines(t, false) == lines
    ensures Rendered(t, false) == JoinLines(lines)
  {
  }

  lemma RenderedAfter(t: Term, s: string, full: nat, x: nat)
    requires Grid(t) && t == Clear(t) && AllPrintable(s)
    requires |s| == full * t.cols + x && 1 <= x <= t.cols
    ensures Safe(t, s)
    ensures RenderedLines(Feed(t, s), false)
            == DropEmpty(TrimmedLines(s, t.cols, full + 1)[Dropped(Max(0, full - (t.rows - 1)), t.limit)..])
  {
    TextLayout(t, s, full, x);
    LaidRenders(t, s, full, x);
  }

  /** Printing text and rendering shows the text cut into rows of the terminal's width, but for the oldest rows beyond
      the scrollback limit. */
  lemma RenderedText(t0: Term, s: string, full: nat, x: nat)
    requires Grid(t0) && AllPrintable(s)
    requires |s| == full * t0.cols + x && 1 <= x <= t0.cols
    ensures Safe(Clear(t0), s)
    ensures var lost := Dropped(Max(0, full - (t0.rows - 1)), t0.limit);
            Rendered(Feed(Clear(t0), s), false) == JoinLines(DropEmpty(TrimmedLines(s, t0.cols, full + 1)[lost..]))
  {
    RenderedAfter(Clear(t0), s, full, x);
    JoinsLines(Feed(Clear(t0), s), RenderedLines(Feed(Clear(t0), s), false));
  }

  /** So nothing is lost exactly when the limit admits the rows that scrolled off. */
  lemma RenderedWhole(t0: Term, s: string, full: nat, x: nat)
    requires Grid(t0) && AllPrintable(s)
    requires |s| == full * t0.cols + x && 1 <= x <= t0.cols && t0.limit.Admits(Max(0, full - (t0.rows - 1)))
    ensures Safe(Clear(t0), s)
    ensures Rendered(Feed(Clear(t0), s), false) == JoinLines(DropEmpty(TrimmedLines(s, t0.cols, full + 1)))
  {
    RenderedText(t0, s, full, x);
    assert TrimmedLines(s, t0.cols, full + 1)[0..] == TrimmedLines(s, t0.cols, full + 1);
  }
}
