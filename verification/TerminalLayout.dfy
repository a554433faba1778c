/** Where printed text ends up: a closed form for printing on a cleared screen. */
module TerminalLayout {
  import opened Options
  import opened TerminalModel
  import opened TerminalRuns
  import opened TerminalScrollback

  predicate AllPrintable(s: string) {
    forall i :: 0 <= i < |s| ==> Printable(s[i])
  }

  /** The text cut into rows of `cols` characters: row `k`, padded with blanks. */
  function LogicalLine(s: string, cols: int, k: int): (line: Line)
    requires cols >= 1
    ensures |line| == cols
  {
    seq(cols, j requires 0 <= j < cols => if 0 <= k * cols + j < |s| then s[k * cols + j] else ' ')
  }

  function LogicalLines(s: string, cols: int, from: int, count: nat): (lines: seq<Line>)
    requires cols >= 1
    ensures |lines| == count
    ensures forall i :: 0 <= i < count ==> lines[i] == LogicalLine(s, cols, from + i)
  {
    seq(count, i requires 0 <= i < count => LogicalLine(s, cols, from + i))
  }

  function TrimmedLines(s: string, cols: int, count: nat): (lines: seq<string>)
    requires cols >= 1
    ensures |lines| == count
  {
    seq(count, i requires 0 <= i < count => TrimRight(LogicalLine(s, cols, i)))
  }

  /** The screen after printing `s`, of `full` complete rows and `x` characters on the last one. */
  function Laid(t: Term, s: string, full: nat, x: nat): Term
    requires t.cols >= 1 && t.rows >= 1
  {
    var top := Max(0, full - (t.rows - 1));
    t.(screen := LogicalLines(s, t.cols, top, t.rows),
       scrollback := Newest(TrimmedLines(s, t.cols, top), t.limit),
       cursorX := x, cursorY := Min(full, t.rows - 1))
  }

  /** The new character lands in row `full`, column `x`, and changes no other cell. */
  lemma LogicalLineAppend(s: string, c: char, cols: int, full: nat, x: nat, k: int)
    requires cols >= 1 && x < cols && |s| == full * cols + x
    ensures LogicalLine(s + [c], cols, k) ==
            if k == full then LogicalLine(s, cols, k)[x := c] else LogicalLine(s, cols, k)
  {
    forall j | 0 <= j < cols
      ensures LogicalLine(s + [c], cols, k)[j] ==
              (if k == full then LogicalLine(s, cols, k)[x := c] else LogicalLine(s, cols, k))[j]
    {
      if k < full {
        RowsBefore(k, full, cols);
      } else if k > full {
        RowsBefore(full, k, cols);
      }
    }
  }

  lemma RowsBefore(a: int, b: int, cols: int)
    requires a < b && cols >= 1
    ensures a * cols + cols <= b * cols
  {
    assert (b - a - 1) * cols >= 0;
    assert b * cols == a * cols + cols + (b - a - 1) * cols;
  }

  /** Printing below the text leaves the rows above it alone. */
  lemma TrimmedLinesAppend(s: string, c: char, cols: int, full: nat, x: nat, count: nat)
    requires cols >= 1 && x < cols && |s| == full * cols + x && count <= full
    ensures TrimmedLines(s + [c], cols, count) == TrimmedLines(s, cols, count)
  {
    forall i | 0 <= i < count
      ensures TrimmedLines(s + [c], cols, count)[i] == TrimmedLines(s, cols, count)[i]
    {
      LogicalLineAppend(s, c, cols, full, x, i);
    }
  }

  lemma RowsAppend(s: string, c: char, cols: int, full: nat, x: nat, top: int, rows: nat)
    requires cols >= 1 && x < cols && |s| == full * cols + x && top <= full < top + rows
    ensures LogicalLines(s + [c], cols, top, rows) ==
            LogicalLines(s, cols, top, rows)[full - top := LogicalLine(s, cols, full)[x := c]]
  {
    var before := LogicalLines(s, cols, top, rows);
    var after := LogicalLines(s + [c], cols, top, rows);
    forall i | 0 <= i < rows
      ensures after[i] == before[full - top := LogicalLine(s, cols, full)[x := c]][i]
    {
      LogicalLineAppend(s, c, cols, full, x, top + i);
    }
  }

  /** Printing inside the current row. */
  lemma PutInRow(t: Term, s: string, c: char, full: nat, x: nat)
    requires Grid(t) && t.main.None? && x < t.cols && |s| == full * t.cols + x && Grid(Laid(t, s, full, x))
    ensures Put(Laid(t, s, full, x), c) == Laid(t, s + [c], full, x + 1)
  {
    var top := Max(0, full - (t.rows - 1));
    TrimmedLinesAppend(s, c, t.cols, full, x, top);
    RowsAppend(s, c, t.cols, full, x, top, t.rows);
  }

  /** Text of complete rows only: scrolling makes room for the next row. */
  lemma ScrollOpensRow(t: Term, s: string, full: nat)
    requires Grid(t) && t.main.None? && |s| == (full + 1) * t.cols && full >= t.rows - 1
    requires Grid(Laid(t, s, full, 0))
    ensures ScrollOne(Laid(t, s, full, 0)) == Laid(t, s, full + 1, 0)
  {
    var u := Laid(t, s, full, 0);
    var top := full - (t.rows - 1);
    RowBeyondText(s, t.cols, full + 1);
    NextLines(s, t.cols, top, t.rows);
    assert u.screen[0] == LogicalLine(s, t.cols, top);
    RememberNewest(TrimmedLines(s, t.cols, top), t.limit, TrimRight(u.screen[0]));
  }

  lemma NextLines(s: string, cols: int, top: nat, rows: nat)
    requires cols >= 1 && rows >= 1
    ensures LogicalLines(s, cols, top, rows)[1..] + [LogicalLine(s, cols, top + rows)]
            == LogicalLines(s, cols, top + 1, rows)
    ensures TrimmedLines(s, cols, top) + [TrimRight(LogicalLine(s, cols, top))] == TrimmedLines(s, cols, top + 1)
  {
  }

  lemma RowBeyondText(s: string, cols: int, k: nat)
    requires cols >= 1 && |s| == k * cols
    ensures LogicalLine(s, cols, k) == BlankLine(cols)
  {
  }

  /** The deferred wrap opens the next row, scrolling when there is none. */
  lemma WrapOpensRow(t: Term, s: string, full: nat)
    requires Grid(t) && t.main.None? && |s| == (full + 1) * t.cols && Grid(Laid(t, s, full, 0))
    ensures LineFeed(Laid(t, s, full, 0)) == Laid(t, s, full + 1, 0)
  {
    var u := Laid(t, s, full, 0);
    if full >= t.rows - 1 {
      ScrollOpensRow(t, s, full);
      assert Scroll(u, 1) == Scroll(ScrollOne(u), 0);
    }
  }

  /** One more character, with the rows counted so far. */
  lemma PrintOne(t: Term, s: string, c: char, full: nat, x: nat)
    requires Grid(t) && t.main.None? && |s| == full * t.cols + x && 1 <= x <= t.cols
    requires Grid(Laid(t, s, full, x))
    ensures Put(Laid(t, s, full, x), c) ==
            if x < t.cols then Laid(t, s + [c], full, x + 1) else Laid(t, s + [c], full + 1, 1)
  {
    if x < t.cols {
      PutInRow(t, s, c, full, x);
    } else {
      assert Laid(t, s, full, x).(cursorX := 0) == Laid(t, s, full, 0);
      WrapOpensRow(t, s, full);
      PutInRow(t, s, c, full + 1, 0);
    }
  }

  lemma EmptyLays(t: Term)
    requires Grid(t) && t == Clear(t)
    ensures Laid(t, "", 0, 0) == t
  {
    assert forall k :: LogicalLine("", t.cols, k) == BlankLine(t.cols);
    assert Laid(t, "", 0, 0).screen == BlankScreen(t.cols, t.rows);
  }

  lemma PrintableIsPut(t: Term, c: char)
    requires Grid(t) && t.parser == Normal && Printable(c)
    ensures !NegativeHome(t, c) && Consume(t, c) == Put(t, c)
  {
  }

  lemma FeedPrintable(t: Term, c: char)
    requires Grid(t) && t.parser == Normal && Printable(c)
    ensures Safe(t, [c]) && Feed(t, [c]) == Put(t, c)
  {
    PrintableIsPut(t, c);
    FeedOne(t, c);
  }

  /** Text layout: printing n >= 1 characters on a cleared screen fills the rows in reading order. The rows that
      no longer fit have scrolled off into the scrollback, right-trimmed, and everything else is blank. */
  lemma {:induction false} TextLayout(t: Term, s: string, full: nat, x: nat)
    requires Grid(t) && t == Clear(t) && AllPrintable(s)
    requires |s| == full * t.cols + x && 1 <= x <= t.cols
    ensures Safe(t, s) && Feed(t, s) == Laid(t, s, full, x)
    decreases |s|
  {
    var before, c := s[..|s| - 1], s[|s| - 1];
    assert s == before + [c];
    if x == 1 && full == 0 {
      assert before == "" && s == [c];
      EmptyLays(t);
      FeedPrintable(t, c);
      PutInRow(t, "", c, 0, 0);
    } else {
      var full', x' := if x > 1 then full else full - 1, if x > 1 then x - 1 else t.cols;
      TextLayout(t, before, full', x');
      PrintLast(t, before, c, full', x');
    }
  }

  lemma PrintLast(t: Term, before: string, c: char, full: nat, x: nat)
    requires Grid(t) && t.main.None? && Safe(t, before) && Printable(c)
    requires |before| == full * t.cols + x && 1 <= x <= t.cols
    requires Feed(t, before) == Laid(t, before, full, x) && Laid(t, before, full, x).parser == Normal
    ensures Safe(t, before + [c])
    ensures Feed(t, before + [c]) ==
            if x < t.cols then Laid(t, before + [c], full, x + 1) else Laid(t, before + [c], full + 1, 1)
  {
    PrintOne(t, before, c, full, x);
    FeedPrintable(Feed(t, before), c);
    FeedAppend(t, before, [c]);
  }

  /** Every text of n >= 1 characters has such a number of rows and last column. */
  lemma RowsOfText(n: nat, cols: int) returns (full: nat, x: nat)
    requires n >= 1 && cols >= 1
    ensures n == full * cols + x && 1 <= x <= cols && full == (n - 1) / cols && x == (n - 1) % cols + 1
  {
    full, x := (n - 1) / cols, (n - 1) % cols + 1;
  }

  lemma LogicalCharacter(s: string, cols: int, row: nat, column: nat)
    requires cols >= 1 && column < cols && row * cols + column < |s|
    ensures 0 <= row * cols + column && LogicalLine(s, cols, row)[column] == s[row * cols + column]
  {
    assert row * cols >= 0;
  }

  lemma LaidCharacter(t: Term, s: string, full: nat, x: nat, row: nat, column: nat)
    requires t.cols >= 1 && t.rows >= 1 && column < t.cols && row * t.cols + column < |s|
    requires full - (t.rows - 1) <= row <= full
    ensures var r := Laid(t, s, full, x);
            && |r.screen| == t.rows && |r.screen[row - Max(0, full - (t.rows - 1))]| == t.cols
            && r.screen[row - Max(0, full - (t.rows - 1))][column] == s[row * t.cols + column]
  {
    LogicalCharacter(s, t.cols, row, column);
  }

  lemma RowOfCharacter(full: nat, x: nat, row: nat, column: nat, cols: int)
    requires 1 <= x <= cols && row * cols + column < full * cols + x
    ensures row <= full
  {
    if row > full {
      RowsBefore(full, row, cols);
    }
  }

  /** A character on the last rows is found on the screen, below the rows that scrolled off. */
  lemma CharacterOnScreen(t0: Term, s: string, full: nat, x: nat, row: nat, column: nat)
    requires Grid(t0) && AllPrintable(s) && |s| == full * t0.cols + x && 1 <= x <= t0.cols
    requires column < t0.cols && row * t0.cols + column < |s| && row >= full - (t0.rows - 1)
    ensures Safe(Clear(t0), s) && row <= full
    ensures var r := Feed(Clear(t0), s);
            var y := row - Max(0, full - (t0.rows - 1));
            0 <= y < |r.screen| && column < |r.screen[y]| && r.screen[y][column] == s[row * t0.cols + column]
  {
    TextLayout(Clear(t0), s, full, x);
    RowOfCharacter(full, x, row, column, t0.cols);
    LaidCharacter(Clear(t0), s, full, x, row, column);
  }

  /** An earlier character has moved into the scrollback with its row: counted from the newest entry, its row is as far
      back as rows have scrolled off after it, if the limit has let it stay. */
  lemma CharacterInScrollback(t0: Term, s: string, full: nat, x: nat, row: nat, column: nat)
    requires Grid(t0) && AllPrintable(s) && |s| == full * t0.cols + x && 1 <= x <= t0.cols
    requires column < t0.cols && row * t0.cols + column < |s| && row < full - (t0.rows - 1)
    ensures Safe(Clear(t0), s)
    ensures var r := Feed(Clear(t0), s);
            var back := full - (t0.rows - 1) - row;
            && (back <= |r.scrollback| <==> t0.limit.Admits(back))
            && (back <= |r.scrollback| ==>
                  r.scrollback[|r.scrollback| - back] == TrimRight(LogicalLine(s, t0.cols, row)))
            && LogicalLine(s, t0.cols, row)[column] == s[row * t0.cols + column]
  {
    TextLayout(Clear(t0), s, full, x);
    LogicalCharacter(s, t0.cols, row, column);
  }
}
