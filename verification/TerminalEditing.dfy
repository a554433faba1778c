/** What the edits do to each other and to the cells: laws that tie every insertion to its deletion, erasing to the
    reading order of the screen, and restoring the cursor to the save before it. */
module TerminalEditing {
  import opened TerminalModel
  import opened TerminalRuns
  import opened TerminalLayout

  // ----- Lines -----

  lemma BlankRowsAre(t: Term, from: int, to: int, i: nat)
    requires Grid(t) && i < t.rows
    ensures BlankRows(t.screen, from, to)[i] == if from <= i < to then BlankLine(t.cols) else t.screen[i]
  {
  }

  /** Inserting as many lines as were deleted leaves those rows blank, in place, and every other row as it was. */
  lemma DeleteThenInsertLines(t: Term, count: nat)
    requires Grid(t)
    ensures InsertLines(DeleteLines(t, count), count)
            == t.(screen := BlankRows(t.screen, t.cursorY, t.cursorY + count))
  {
    var r := InsertLines(DeleteLines(t, count), count).screen;
    forall i: nat | i < t.rows ensures r[i] == BlankRows(t.screen, t.cursorY, t.cursorY + count)[i] {
      BlankRowsAre(t, t.cursorY, t.cursorY + count, i);
    }
  }

  /** Deleting the inserted lines brings back every row except those pushed off the bottom, which are blank. */
  lemma InsertThenDeleteLines(t: Term, count: nat)
    requires Grid(t)
    ensures DeleteLines(InsertLines(t, count), count)
            == t.(screen := BlankRows(t.screen, Max(t.cursorY, t.rows - count), t.rows))
  {
    var from := Max(t.cursorY, t.rows - count);
    var r := DeleteLines(InsertLines(t, count), count).screen;
    forall i: nat | i < t.rows ensures r[i] == BlankRows(t.screen, from, t.rows)[i] {
      BlankRowsAre(t, from, t.rows, i);
    }
  }

  // ----- Characters -----

  /** The same for the characters of the current row: deleting and inserting again is erasing in place. */
  lemma DeleteThenInsertCharacters(t: Term, count: nat)
    requires Grid(t)
    ensures InsertCharacters(DeleteCharacters(t, count), count) == EraseCharacters(t, count)
  {
    assert CurrentLine(InsertCharacters(DeleteCharacters(t, count), count)) == CurrentLine(EraseCharacters(t, count));
  }

  lemma InsertThenDeleteCharacters(t: Term, count: nat)
    requires Grid(t)
    ensures DeleteCharacters(InsertCharacters(t, count), count)
            == WithLine(t, Fill(CurrentLine(t), Max(t.cursorX, t.cols - count), t.cols))
  {
    assert CurrentLine(DeleteCharacters(InsertCharacters(t, count), count))
        == Fill(CurrentLine(t), Max(t.cursorX, t.cols - count), t.cols);
  }

  // ----- Scrolling -----

  lemma {:induction false} ScrolledScreen(t: Term, count: nat)
    requires Grid(t)
    ensures Scroll(t, count).screen == t.screen[Min(count, t.rows)..] + BlankScreen(t.cols, Min(count, t.rows))
    decreases count
  {
    if count == 0 {
      assert t.screen == t.screen[0..] + BlankScreen(t.cols, 0);
    } else {
      var next := ScrollOne(t);
      assert Scroll(t, count).screen == Scroll(next, count - 1).screen;
      ScrolledScreen(next, count - 1);
      ScrolledOnce(t.screen, t.cols, Min(count - 1, t.rows));
    }
  }

  lemma ScrolledOnce(screen: seq<Line>, cols: int, n: nat)
    requires |screen| >= 1 && n <= |screen|
    ensures (screen[1..] + [BlankLine(cols)])[n..] + BlankScreen(cols, n)
            == screen[Min(n + 1, |screen|)..] + BlankScreen(cols, Min(n + 1, |screen|))
  {
  }

  lemma {:induction false} ScrolledDownScreen(t: Term, count: nat)
    requires Grid(t)
    ensures ScrollDown(t, count).screen
            == BlankScreen(t.cols, Min(count, t.rows)) + t.screen[..t.rows - Min(count, t.rows)]
    decreases count
  {
    if count > 0 {
      ScrolledDownScreen(ScrollDownOne(t), count - 1);
    } else {
      assert t.screen == BlankScreen(t.cols, 0) + t.screen[..t.rows];
    }
  }

  /** Scrolling back down brings the rows back in place, with the rows that had left the top blank. */
  lemma ScrollUpThenDown(t: Term, count: nat)
    requires Grid(t)
    ensures ScrollDown(Scroll(t, count), count).screen == BlankRows(t.screen, 0, count)
  {
    ScrolledScreen(t, count);
    ScrolledDownScreen(Scroll(t, count), count);
    forall i: nat | i < t.rows
      ensures ScrollDown(Scroll(t, count), count).screen[i] == BlankRows(t.screen, 0, count)[i]
    {
      BlankRowsAre(t, 0, count, i);
    }
  }

  // ----- Erasing -----

  /** The position of a cell when the screen is read row by row. */
  function Position(t: Term, y: int, x: int): int {
    y * t.cols + x
  }

  lemma RowsInOrder(t: Term, y: int, x: int, y': int, x': int)
    requires t.cols >= 1 && 0 <= x < t.cols && 0 <= x' <= t.cols && y < y'
    ensures Position(t, y, x) < Position(t, y', x')
  {
    RowsBefore(y, y', t.cols);
  }

  lemma RowsInOrderBefore(t: Term, y: int, x: int, y': int, x': int)
    requires t.cols >= 1 && 0 <= x < t.cols && 0 <= x' <= t.cols && y' < y
    ensures Position(t, y', x') <= Position(t, y, x)
    ensures x' < t.cols ==> Position(t, y', x') < Position(t, y, x)
  {
    RowsBefore(y', y, t.cols);
  }

  /** Erase mode 0 blanks exactly the cells from the cursor on, in reading order. */
  lemma ErasedFromCursor(t: Term, y: nat, x: nat)
    requires Grid(t) && y < t.rows && x < t.cols
    ensures EraseDisplay(t, 0).screen[y][x]
            == if Position(t, y, x) >= Position(t, t.cursorY, t.cursorX) then ' ' else t.screen[y][x]
  {
    if y < t.cursorY {
      RowsInOrder(t, y, x, t.cursorY, t.cursorX);
    } else if t.cursorY < y {
      RowsInOrderBefore(t, y, x, t.cursorY, t.cursorX);
    }
  }

  /** Mode 1 blanks exactly the cells up to the cursor; a cursor past the last column counts as on it. */
  lemma ErasedUpToCursor(t: Term, y: nat, x: nat)
    requires Grid(t) && y < t.rows && x < t.cols
    ensures EraseDisplay(t, 1).screen[y][x]
            == if Position(t, y, x) <= Position(t, t.cursorY, Min(t.cursorX, t.cols - 1)) then ' ' else t.screen[y][x]
  {
    if y < t.cursorY {
      RowsInOrder(t, y, x, t.cursorY, Min(t.cursorX, t.cols - 1));
    } else if t.cursorY < y {
      RowsInOrderBefore(t, y, x, t.cursorY, Min(t.cursorX, t.cols - 1));
    }
  }

  /** So erasing on both sides of the cursor is clearing the display. */
  lemma ErasedOnBothSides(t: Term)
    requires Grid(t)
    ensures EraseDisplay(EraseDisplay(t, 0), 1) == EraseDisplay(t, 2)
  {
    var r, blank := EraseDisplay(EraseDisplay(t, 0), 1).screen, BlankScreen(t.cols, t.rows);
    forall y: nat | y < t.rows ensures r[y] == blank[y] {
      forall x: nat | x < t.cols ensures r[y][x] == blank[y][x] {
        ErasedUpToCursor(EraseDisplay(t, 0), y, x);
        ErasedFromCursor(t, y, x);
      }
    }
  }

  // ----- Saving and restoring the cursor -----

  predicate SavesCursor(t: Term, c: char) {
    (t.parser == Escape && c == '7') || (t.parser == Csi && c == 's')
  }

  lemma EscapeKeepsSavedCursor(t: Term, c: char)
    requires Grid(t) && c != '7'
    ensures EscapeDispatch(t, c).savedX == t.savedX && EscapeDispatch(t, c).savedY == t.savedY
  {
  }

  lemma CsiKeepsSavedCursor(t: Term, raw: string, final: char)
    requires Grid(t) && final != 's'
    ensures CsiDispatch(t, raw, final).savedX == t.savedX && CsiDispatch(t, raw, final).savedY == t.savedY
  {
  }

  /** Nothing but a save changes the saved cursor: not a reset, not the other screen. */
  lemma ConsumeKeepsSavedCursor(t: Term, c: char)
    requires Grid(t) && !SavesCursor(t, c)
    ensures Consume(t, c).savedX == t.savedX && Consume(t, c).savedY == t.savedY
  {
    match t.parser
    case Csi => CsiKeepsSavedCursor(t, t.control, c);
    case Escape => EscapeKeepsSavedCursor(t, c);
    case _ =>
  }

  predicate NeverSaves(t: Term, s: string)
    requires Grid(t) && Safe(t, s)
    decreases |s|
  {
    |s| == 0 || (!SavesCursor(t, s[0]) && NeverSaves(Consume(t, s[0]), s[1..]))
  }

  lemma {:induction false} FeedKeepsSavedCursor(t: Term, s: string)
    requires Grid(t) && Safe(t, s) && NeverSaves(t, s)
    ensures Feed(t, s).savedX == t.savedX && Feed(t, s).savedY == t.savedY
    decreases |s|
  {
    if |s| > 0 {
      ConsumeKeepsSavedCursor(t, s[0]);
      FeedKeepsSavedCursor(Consume(t, s[0]), s[1..]);
    }
  }

  const SAVE: string := [ESC] + "7"
  const RESTORE: string := [ESC] + "8"

  lemma FeedEscape(t: Term, c: char)
    requires Grid(t) && t.parser == Normal
    ensures Safe(t, [ESC] + [c]) && Feed(t, [ESC] + [c]) == EscapeDispatch(t.(parser := Escape), c)
  {
    FeedOne(t, ESC);
    FeedOne(t.(parser := Escape), c);
    FeedAppend(t, [ESC], [c]);
  }

  /** The terminal after the whole saving sequence. */
  function Remembered(t: Term): (r: Term)
    requires Grid(t)
    ensures Grid(r)
  {
    t.(savedX := t.cursorX, savedY := t.cursorY)
  }

  /** Saving, any input that does not save again, then restoring puts the cursor back where it was. */
  lemma CursorRestores(t: Term, s: string)
    requires Grid(t) && t.parser == Normal
    requires Safe(Remembered(t), s) && NeverSaves(Remembered(t), s) && Feed(Remembered(t), s).parser == Normal
    ensures Safe(t, SAVE) && Feed(t, SAVE) == Remembered(t)
    ensures Safe(t, SAVE + s + RESTORE)
    ensures Feed(t, SAVE + s + RESTORE) == Feed(Remembered(t), s).(cursorX := t.cursorX, cursorY := t.cursorY)
  {
    FeedEscape(t, '7');
    FeedKeepsSavedCursor(Remembered(t), s);
    var last := Feed(Remembered(t), s);
    FeedEscape(last, '8');
    FeedAppend(t, SAVE, s);
    FeedAppend(t, SAVE + s, RESTORE);
  }
}
