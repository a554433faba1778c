/** Whole runs of the terminal: which inputs keep the grid, and what survives a run. */
module TerminalRuns {
  import opened Options
  import opened TerminalModel

  // ----- The grid invariant over every run -----

  /** The grid breaks at exactly one kind of step. */
  lemma GridBreaksExactlyAtNegativeHome(t: Term, c: char)
    requires Grid(t)
    ensures Grid(Consume(t, c)) <==> !NegativeHome(t, c)
  {
    if NegativeHome(t, c) {
      assert Consume(t, c).cursorX < 0 || Consume(t, c).cursorY < 0;
    }
  }

  /** No step of the run is a negative home. */
  predicate Safe(t: Term, s: string)
    requires Grid(t)
    decreases |s|
  {
    |s| == 0 || (!NegativeHome(t, s[0]) && Safe(Consume(t, s[0]), s[1..]))
  }

  /** `feed`: one character after the other. */
  function Feed(t: Term, s: string): (r: Term)
    requires Grid(t) && Safe(t, s)
    ensures Grid(r)
    decreases |s|
  {
    if |s| == 0 then t else Feed(Consume(t, s[0]), s[1..])
  }

  lemma {:induction false} FeedAppend(t: Term, a: string, b: string)
    requires Grid(t) && Safe(t, a)
    ensures Safe(t, a + b) <==> Safe(Feed(t, a), b)
    ensures Safe(t, a + b) ==> Feed(t, a + b) == Feed(Feed(t, a), b)
    decreases |a|
  {
    if |a| == 0 {
      assert a + b == b;
    } else {
      assert (a + b)[1..] == a[1..] + b;
      FeedAppend(Consume(t, a[0]), a[1..], b);
    }
  }

  lemma FeedOne(t: Term, c: char)
    requires Grid(t) && !NegativeHome(t, c)
    ensures Safe(t, [c]) && Feed(t, [c]) == Consume(t, c)
  {
    assert [c][1..] == "";
    var u := Consume(t, c);
    assert Safe(u, "") && Feed(u, "") == u;
  }

  lemma {:induction false} ParseIntWithoutMinus(part: string)
    requires '-' !in part
    ensures ParseInt(part) >= 0
  {
    TrimLeftKeeps(part);
  }

  lemma {:induction false} TrimLeftKeeps(s: string)
    ensures forall c :: c in TrimLeft(s) ==> c in s
  {
    if |s| > 0 && IsSpace(s[0]) {
      TrimLeftKeeps(s[1..]);
    }
  }

  lemma {:induction false} SplitKeeps(s: string, separator: char)
    ensures forall part, c :: part in Split(s, separator) && c in part ==> c in s
  {
    if |s| > 0 {
      SplitKeeps(s[1..], separator);
    }
  }

  lemma {:induction false} HomeWithoutMinus(raw: string)
    requires '-' !in raw
    ensures OrOne(ParameterList(raw), 0) >= 1 && OrOne(ParameterList(raw), 1) >= 1
  {
    var normalized := if |raw| > 0 && raw[0] in {'?', '>', '!'} then raw[1..] else raw;
    if normalized != "" {
      var parts := Split(normalized, ';');
      SplitKeeps(normalized, ';');
      forall i | 0 <= i < |parts| ensures ParameterList(raw)[i] >= 0 {
        assert parts[i] in parts;
        ParseIntWithoutMinus(parts[i]);
      }
    }
  }

  lemma {:induction false} ControlOnlyGathersInput(t: Term, c: char)
    requires Grid(t) && '-' !in t.control && c != '-'
    ensures '-' !in Consume(t, c).control
  {
  }

  /** Without a minus sign in the input no run can leave the grid. */
  lemma {:induction false} NoMinusIsSafe(t: Term, s: string)
    requires Grid(t) && '-' !in t.control && '-' !in s
    ensures Safe(t, s)
    decreases |s|
  {
    if |s| > 0 {
      HomeWithoutMinus(t.control);
      ControlOnlyGathersInput(t, s[0]);
      NoMinusIsSafe(Consume(t, s[0]), s[1..]);
    }
  }

  /** From construction on, every input without a negative home keeps the whole grid invariant. */
  lemma GridOverEveryRun(cols: int, rows: int, limit: Limit, s: string)
    requires cols >= 1 && rows >= 1 && Safe(New(cols, rows, limit), s)
    ensures var t := Feed(New(cols, rows, limit), s);
            && t.cols == cols && t.rows == rows && t.limit == limit
            && |t.screen| == rows && (forall y :: 0 <= y < rows ==> |t.screen[y]| == cols)
            && 0 <= t.cursorX <= cols && 0 <= t.cursorY < rows && 0 <= t.savedX <= cols && 0 <= t.savedY < rows
            && limit.Admits(|t.scrollback|) && |t.control| <= 128 && Utf16Length(t.control) <= 129
  {
    FeedKeepsDimensions(New(cols, rows, limit), s);
  }

  /** Without a minus sign this is every input. */
  lemma GridWithoutMinus(cols: int, rows: int, limit: Limit, s: string)
    requires cols >= 1 && rows >= 1 && '-' !in s
    ensures Safe(New(cols, rows, limit), s) && Grid(Feed(New(cols, rows, limit), s))
  {
    NoMinusIsSafe(New(cols, rows, limit), s);
  }

  lemma {:induction false} FeedKeepsDimensions(t: Term, s: string)
    requires Grid(t) && Safe(t, s)
    ensures Feed(t, s).cols == t.cols && Feed(t, s).rows == t.rows && Feed(t, s).limit == t.limit
    decreases |s|
  {
    if |s| > 0 {
      FeedKeepsDimensions(Consume(t, s[0]), s[1..]);
    }
  }

  // ----- Resizing -----

  /** Resizing keeps the grid exactly when the saved cursor still fits and no main screen of the old size is held. */
  lemma ResizeKeepsGridExactly(t: Term, cols: int, rows: int)
    requires Grid(t) && cols >= 1 && rows >= 1
    ensures Grid(Resize(t, cols, rows)) <==>
            (cols == t.cols && rows == t.rows) || (t.savedX <= cols && t.savedY < rows && t.main.None?)
  {
    var r := Resize(t, cols, rows);
    if cols != t.cols || rows != t.rows {
      assert Rectangular(r.screen, cols, rows);
      if t.main.Some? {
        assert |t.main.value.screen[0]| == t.cols;
      }
    }
  }

  /** What a resize keeps: the common rectangle, with blanks around it. */
  lemma ResizeKeepsCommonCells(t: Term, cols: int, rows: int, i: nat, j: nat)
    requires Grid(t) && cols >= 1 && rows >= 1 && i < rows && j < cols
    ensures var r := Resize(t, cols, rows);
            && |r.screen| == rows && |r.screen[i]| == cols
            && r.screen[i][j] == (if i < t.rows && j < t.cols then t.screen[i][j] else ' ')
  {
    if cols != t.cols || rows != t.rows {
      assert Resize(t, cols, rows).screen[i] == ResizedLine(if i < |t.screen| then t.screen[i] else [], cols);
    }
  }

  /** The cursor stays where it fits, and moves to the last column or row where it does not; nothing else is touched. */
  lemma ResizeMovesCursor(t: Term, cols: int, rows: int)
    requires Grid(t) && cols >= 1 && rows >= 1 && (cols != t.cols || rows != t.rows)
    ensures var r := Resize(t, cols, rows);
            r == t.(cols := cols, rows := rows, screen := r.screen,
                    cursorX := if t.cursorX < cols then t.cursorX else cols - 1,
                    cursorY := if t.cursorY < rows then t.cursorY else rows - 1)
  {
  }

  /** A new terminal is blank, with the cursor home and nothing saved. */
  lemma NewIsBlank(cols: int, rows: int, limit: Limit)
    requires cols >= 1 && rows >= 1
    ensures var t := New(cols, rows, limit);
            && t == Term(cols, rows, limit, t.screen, [], 0, 0, 0, 0, Normal, "", None)
            && forall y, x :: 0 <= y < rows && 0 <= x < cols ==> t.screen[y][x] == ' '
  {
  }
}
