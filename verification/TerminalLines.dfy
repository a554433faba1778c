/** Where lines end up: a closed form for lines of text, with carriage return and line feed between them, on a cleared
    screen. */
module TerminalLines {
  import opened Options
  import opened TerminalModel
  import opened TerminalRuns
  import opened TerminalScrollback
  import opened TerminalLayout

  const NEWLINE: string := "\r\n"

  /** The lines with a carriage return and a line feed between them. */
  function Joined(lines: seq<string>): string
    requires |lines| >= 1
  {
    if |lines| == 1 then lines[0] else Joined(lines[..|lines| - 1]) + NEWLINE + lines[|lines| - 1]
  }

  /** Each line is printable and fits the width. */
  predicate Fit(lines: seq<string>, cols: int) {
    forall i :: 0 <= i < |lines| ==> |lines[i]| <= cols && AllPrintable(lines[i])
  }

  /** A line on its row, blanks after it. */
  function Padded(line: string, cols: int): (row: Line)
    requires cols >= 0
    ensures |row| == cols
  {
    seq(cols, j requires 0 <= j < cols => if j < |line| then line[j] else ' ')
  }

  function LineAt(lines: seq<string>, k: int): string {
    if 0 <= k < |lines| then lines[k] else ""
  }

  function PaddedFrom(lines: seq<string>, cols: int, from: int, count: nat): (rows: seq<Line>)
    requires cols >= 0
    ensures |rows| == count && forall i :: 0 <= i < count ==> rows[i] == Padded(LineAt(lines, from + i), cols)
  {
    seq(count, i requires 0 <= i < count => Padded(LineAt(lines, from + i), cols))
  }

  function TrimmedFirst(lines: seq<string>, cols: int, count: nat): (rows: seq<string>)
    requires cols >= 0
    ensures |rows| == count
    ensures forall i :: 0 <= i < count ==> rows[i] == TrimRight(Padded(LineAt(lines, i), cols))
  {
    seq(count, i requires 0 <= i < count => TrimRight(Padded(LineAt(lines, i), cols)))
  }

  /** How many of the lines no longer fit on the screen. */
  function LinesAbove(lines: seq<string>, rows: int): nat {
    if |lines| > rows then |lines| - rows else 0
  }

  /** Line after line, the last ones on the screen and the ones before them in the scrollback. */
  function Lined(t: Term, lines: seq<string>): Term
    requires t.cols >= 1 && t.rows >= 1 && |lines| >= 1
  {
    var above := LinesAbove(lines, t.rows);
    t.(screen := PaddedFrom(lines, t.cols, above, t.rows),
       scrollback := Newest(TrimmedFirst(lines, t.cols, above), t.limit),
       cursorX := |lines[|lines| - 1]|, cursorY := |lines| - 1 - above)
  }

  // ----- One more character, one more line -----

  lemma PaddedMore(line: string, c: char, cols: int)
    requires 0 <= |line| < cols
    ensures Padded(line + [c], cols) == Padded(line, cols)[|line| := c]
  {
  }

  lemma EarlierRowsStay(front: seq<string>, a: string, b: string, cols: int, count: nat)
    requires cols >= 0 && count <= |front|
    ensures TrimmedFirst(front + [a], cols, count) == TrimmedFirst(front + [b], cols, count)
  {
    forall i | 0 <= i < count ensures LineAt(front + [a], i) == LineAt(front + [b], i) {
    }
  }

  lemma LastRowGrows(front: seq<string>, line: string, c: char, cols: int, from: int, rows: nat)
    requires |line| < cols && 0 <= from <= |front| < from + rows
    ensures PaddedFrom(front + [line + [c]], cols, from, rows)
            == PaddedFrom(front + [line], cols, from, rows)[|front| - from := Padded(line, cols)[|line| := c]]
  {
    PaddedMore(line, c, cols);
    var a, b := PaddedFrom(front + [line], cols, from, rows), PaddedFrom(front + [line + [c]], cols, from, rows);
    forall i | 0 <= i < rows ensures b[i] == a[|front| - from := Padded(line, cols)[|line| := c]][i] {
      assert i != |front| - from ==> LineAt(front + [line], from + i) == LineAt(front + [line + [c]], from + i);
    }
  }

  lemma PutInLine(t: Term, front: seq<string>, line: string, c: char)
    requires Grid(t) && |line| < t.cols && Grid(Lined(t, front + [line]))
    ensures Put(Lined(t, front + [line]), c) == Lined(t, front + [line + [c]])
  {
    var above := LinesAbove(front + [line], t.rows);
    LastRowGrows(front, line, c, t.cols, above, t.rows);
    EarlierRowsStay(front, line, line + [c], t.cols, above);
  }

  lemma {:induction false} PrintLine(t: Term, front: seq<string>, line: string, more: string)
    requires Grid(t) && t.parser == Normal && |line| + |more| <= t.cols && AllPrintable(more)
    requires Grid(Lined(t, front + [line]))
    ensures Safe(Lined(t, front + [line]), more)
    ensures Feed(Lined(t, front + [line]), more) == Lined(t, front + [line + more])
    decreases |more|
  {
    if |more| == 0 {
      assert line + more == line;
    } else {
      var next := line + [more[0]];
      assert AllPrintable(more[1..]) && next + more[1..] == line + more;
      ConsumeInLine(t, front, line, more[0]);
      PrintLine(t, front, next, more[1..]);
      FeedFirst(Lined(t, front + [line]), more, Lined(t, front + [next]), Lined(t, front + [line + more]));
    }
  }

  lemma FeedFirst(t: Term, s: string, next: Term, end: Term)
    requires Grid(t) && Grid(next) && |s| > 0 && !NegativeHome(t, s[0]) && Consume(t, s[0]) == next
    requires Safe(next, s[1..]) && Feed(next, s[1..]) == end
    ensures Safe(t, s) && Feed(t, s) == end
  {
  }

  lemma ConsumeInLine(t: Term, front: seq<string>, line: string, c: char)
    requires Grid(t) && t.parser == Normal && |line| < t.cols && Printable(c) && Grid(Lined(t, front + [line]))
    ensures !NegativeHome(Lined(t, front + [line]), c) && Grid(Lined(t, front + [line + [c]]))
    ensures Consume(Lined(t, front + [line]), c) == Lined(t, front + [line + [c]])
  {
    PrintableIsPut(Lined(t, front + [line]), c);
    PutInLine(t, front, line, c);
  }

  lemma NextRows(lines: seq<string>, cols: int, above: nat, rows: nat)
    requires cols >= 0 && rows >= 1 && above + rows >= |lines|
    ensures PaddedFrom(lines + [""], cols, above, rows) == PaddedFrom(lines, cols, above, rows)
    ensures PaddedFrom(lines, cols, above, rows)[1..] + [BlankLine(cols)]
            == PaddedFrom(lines + [""], cols, above + 1, rows)
  {
    forall k: nat ensures LineAt(lines + [""], k) == LineAt(lines, k) {
    }
    assert Padded("", cols) == BlankLine(cols);
  }

  lemma FirstLeaves(lines: seq<string>, cols: int, above: nat)
    requires cols >= 0
    ensures TrimmedFirst(lines, cols, above) + [TrimRight(Padded(LineAt(lines, above), cols))]
            == TrimmedFirst(lines + [""], cols, above + 1)
    ensures TrimmedFirst(lines + [""], cols, above) == TrimmedFirst(lines, cols, above)
  {
    forall k: nat ensures LineAt(lines + [""], k) == LineAt(lines, k) {
    }
  }

  /** A new line opens the next row, scrolling when there is none. */
  lemma OpensLine(t: Term, lines: seq<string>)
    requires Grid(t) && t.main.None? && |lines| >= 1 && Grid(Lined(t, lines))
    ensures LineFeed(Lined(t, lines).(cursorX := 0)) == Lined(t, lines + [""])
  {
    var u := Lined(t, lines).(cursorX := 0);
    if |lines| >= t.rows {
      ScrollsOneLine(t, lines);
      assert Scroll(u, 1) == Scroll(ScrollOne(u), 0);
    } else {
      NextRows(lines, t.cols, 0, t.rows);
      FirstLeaves(lines, t.cols, 0);
    }
  }

  lemma ScrollsOneLine(t: Term, lines: seq<string>)
    requires Grid(t) && t.main.None? && |lines| >= t.rows && Grid(Lined(t, lines))
    ensures ScrollOne(Lined(t, lines).(cursorX := 0)) == Lined(t, lines + [""])
  {
    var above := LinesAbove(lines, t.rows);
    var u, row := Lined(t, lines).(cursorX := 0), Padded(LineAt(lines, above), t.cols);
    FirstRow(t, lines);
    ScrollsOff(u, row);
    NextRows(lines, t.cols, above, t.rows);
    LogsFirstLine(lines, t.cols, above, t.limit);
    LinedNext(t, lines);
  }

  lemma LinedNext(t: Term, lines: seq<string>)
    requires t.cols >= 1 && 1 <= t.rows <= |lines|
    ensures var above := LinesAbove(lines, t.rows) + 1;
            Lined(t, lines + [""])
            == Lined(t, lines).(screen := PaddedFrom(lines + [""], t.cols, above, t.rows),
                                scrollback := Newest(TrimmedFirst(lines + [""], t.cols, above), t.limit),
                                cursorX := 0)
  {
  }

  lemma FirstRow(t: Term, lines: seq<string>)
    requires t.cols >= 1 && t.rows >= 1 && |lines| >= 1
    ensures Lined(t, lines).screen[0] == Padded(LineAt(lines, LinesAbove(lines, t.rows)), t.cols)
  {
  }

  lemma ScrollsOff(t: Term, row: Line)
    requires Grid(t) && t.main.None? && t.screen[0] == row
    ensures ScrollOne(t) == t.(screen := t.screen[1..] + [BlankLine(t.cols)],
                               scrollback := Remember(t.scrollback, t.limit, TrimRight(row)))
  {
  }

  lemma LogsFirstLine(lines: seq<string>, cols: int, above: nat, limit: Limit)
    requires cols >= 0
    ensures Remember(Newest(TrimmedFirst(lines, cols, above), limit), limit,
                     TrimRight(Padded(LineAt(lines, above), cols)))
            == Newest(TrimmedFirst(lines + [""], cols, above + 1), limit)
  {
    FirstLeaves(lines, cols, above);
    RememberNewest(TrimmedFirst(lines, cols, above), limit, TrimRight(Padded(LineAt(lines, above), cols)));
  }

  lemma FeedNewline(t: Term)
    requires Grid(t) && t.parser == Normal
    ensures Safe(t, NEWLINE) && Feed(t, NEWLINE) == LineFeed(t.(cursorX := 0))
  {
    FeedOne(t, '\r');
    FeedOne(t.(cursorX := 0), '\n');
    FeedAppend(t, ['\r'], ['\n']);
    assert NEWLINE == ['\r'] + ['\n'];
  }

  lemma LinedStays(t: Term, lines: seq<string>)
    requires Grid(t) && t.main.None? && |lines| >= 1 && Fit(lines, t.cols)
    ensures Grid(Lined(t, lines))
  {
  }

  lemma NoLinesYet(t: Term)
    requires Grid(t) && t == Clear(t)
    ensures Lined(t, [""]) == t
  {
    assert forall k :: LineAt([""], k) == "";
    assert Padded("", t.cols) == BlankLine(t.cols);
    assert Lined(t, [""]).screen == BlankScreen(t.cols, t.rows);
  }

  /** Lines fed to a cleared screen: line `i` starts at the left of row `i`, the rows that no longer fit have scrolled
      off, right-trimmed, everything else is blank, and the cursor is after the last line. */
  lemma {:induction false} LineLayout(t: Term, lines: seq<string>)
    requires Grid(t) && t == Clear(t) && |lines| >= 1 && Fit(lines, t.cols)
    ensures Safe(t, Joined(lines)) && Feed(t, Joined(lines)) == Lined(t, lines)
    decreases |lines|
  {
    var front, last := lines[..|lines| - 1], lines[|lines| - 1];
    assert lines == front + [last];
    if |lines| == 1 {
      NoLinesYet(t);
      assert "" + last == last && front == [] && front + [""] == [""];
      PrintLine(t, front, "", last);
    } else {
      LineLayout(t, front);
      LinedStays(t, front);
      LinedStays(t, front + [""]);
      FeedNewline(Lined(t, front));
      OpensLine(t, front);
      PrintLine(t, front, "", last);
      assert "" + last == last;
      FeedAppend(t, Joined(front), NEWLINE);
      FeedAppend(t, Joined(front) + NEWLINE, last);
    }
  }

  /** Character `j` of line `i` is in column `j` of the line's row less the rows scrolled off, and the cursor is after
      the last line. */
  lemma CharacterOfLine(t0: Term, lines: seq<string>, i: nat, j: nat)
    requires Grid(t0) && Fit(lines, t0.cols) && i < |lines| && j < |lines[i]| && i >= LinesAbove(lines, t0.rows)
    ensures Safe(Clear(t0), Joined(lines))
    ensures var r := Feed(Clear(t0), Joined(lines));
            var y := i - LinesAbove(lines, t0.rows);
            && y < |r.screen| && j < |r.screen[y]| && r.screen[y][j] == lines[i][j]
            && r.cursorX == |lines[|lines| - 1]| && r.cursorY == |lines| - 1 - LinesAbove(lines, t0.rows)
  {
    LineLayout(Clear(t0), lines);
    CharacterOnRow(Clear(t0), lines, i, j);
  }

  lemma CharacterOnRow(t: Term, lines: seq<string>, i: nat, j: nat)
    requires Grid(t) && Fit(lines, t.cols) && LinesAbove(lines, t.rows) <= i < |lines| && j < |lines[i]|
    ensures var r := Lined(t, lines);
            var y := i - LinesAbove(lines, t.rows);
            && y < |r.screen| && j < |r.screen[y]| && r.screen[y][j] == lines[i][j]
            && r.cursorX == |lines[|lines| - 1]| && r.cursorY == |lines| - 1 - LinesAbove(lines, t.rows)
  {
  }

  /** The row is `back` entries from the newest end, exactly if the limit admits so many. */
  predicate KeptBack(scrollback: seq<string>, limit: Limit, back: nat, row: string)
    requires back >= 1
  {
    && (back <= |scrollback| <==> limit.Admits(back))
    && (back <= |scrollback| ==> scrollback[|scrollback| - back] == row)
  }

  /** An earlier line has moved into the scrollback: counted from the newest entry it is as far back as lines have
      scrolled off after it, if the limit has let it stay. */
  lemma LineInScrollback(t0: Term, lines: seq<string>, i: nat)
    requires Grid(t0) && Fit(lines, t0.cols) && i < |lines| && i < LinesAbove(lines, t0.rows)
    ensures Safe(Clear(t0), Joined(lines))
    ensures KeptBack(Feed(Clear(t0), Joined(lines)).scrollback, t0.limit, LinesAbove(lines, t0.rows) - i,
                     TrimRight(Padded(lines[i], t0.cols)))
  {
    LineLayout(Clear(t0), lines);
    LinedKeepsBack(Clear(t0), lines, i);
  }

  lemma LinedKeepsBack(t: Term, lines: seq<string>, i: nat)
    requires t.cols >= 1 && t.rows >= 1 && i < |lines| && i < LinesAbove(lines, t.rows)
    ensures KeptBack(Lined(t, lines).scrollback, t.limit, LinesAbove(lines, t.rows) - i,
                     TrimRight(Padded(lines[i], t.cols)))
  {
    ScrollbackOfLines(t, lines);
    NewestKeepsBack(TrimmedFirst(lines, t.cols, LinesAbove(lines, t.rows)), t.limit, i);
    TrimmedAt(lines, t.cols, LinesAbove(lines, t.rows), i);
  }

  lemma NewestKeepsBack(log: seq<string>, limit: Limit, i: nat)
    requires i < |log|
    ensures KeptBack(Newest(log, limit), limit, |log| - i, log[i])
  {
  }

  lemma TrimmedAt(lines: seq<string>, cols: int, count: nat, i: nat)
    requires cols >= 0 && i < count <= |lines|
    ensures TrimmedFirst(lines, cols, count)[i] == TrimRight(Padded(lines[i], cols))
  {
  }

  lemma ScrollbackOfLines(t: Term, lines: seq<string>)
    requires t.cols >= 1 && t.rows >= 1 && |lines| >= 1
    ensures Lined(t, lines).scrollback == Newest(TrimmedFirst(lines, t.cols, LinesAbove(lines, t.rows)), t.limit)
  {
  }
}
