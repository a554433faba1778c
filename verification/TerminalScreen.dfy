/** The mutable terminal: rows are objects that the edits change in place.
    Every method is proved to follow its function in `TerminalModel`. */
module TerminalScreen {
  import opened Options
  import opened TerminalModel
  import opened TerminalRuns
  import TerminalScrollback
  import TerminalRendering

  /** A JavaScript array of cells: shared by reference, changed in place. */
  class Row {
    var cells: Line

    constructor (line: Line)
      ensures cells == line
    {
      cells := line;
    }
  }

  datatype SavedScreen = SavedScreen(screen: seq<Row>, scrollback: seq<string>, cursorX: int, cursorY: int)

  ghost predicate Distinct(rows: seq<Row>) {
    forall i, j :: 0 <= i < j < |rows| ==> rows[i] != rows[j]
  }

  /** No row object occurs in both. */
  ghost predicate Apart(a: seq<Row>, b: seq<Row>) {
    forall i, j :: 0 <= i < |a| && 0 <= j < |b| ==> a[i] != b[j]
  }

  ghost predicate Shows(rows: seq<Row>, lines: seq<Line>)
    reads rows
  {
    |rows| == |lines| && forall i :: 0 <= i < |rows| ==> rows[i].cells == lines[i]
  }

  /** Rows inserted among others, cut to `n`, stay distinct and apart from a third list, and show
      the lines inserted likewise. */
  lemma InsertedRows(kept: seq<Row>, lines: seq<Line>, y: nat, blank: seq<Row>, inserted: seq<Line>, aside: seq<Row>,
                     n: nat)
    requires Distinct(kept) && Distinct(blank) && Apart(kept, blank) && Apart(kept, aside) && Apart(blank, aside)
    requires Shows(kept, lines) && Shows(blank, inserted) && y <= |kept| && n <= |kept|
    ensures var s := Splice(kept, y, 0, blank)[..n];
            && Distinct(s) && Apart(s, aside) && Shows(s, Splice(lines, y, 0, inserted)[..n])
            && forall i :: 0 <= i < |s| ==> s[i] in kept || s[i] in blank
  {
    var s, shown := Splice(kept, y, 0, blank)[..n], Splice(lines, y, 0, inserted)[..n];
    forall i | 0 <= i < |s|
      ensures s[i] == if i < y then kept[i] else if i < y + |blank| then blank[i - y] else kept[i - |blank|]
      ensures shown[i] == if i < y then lines[i] else if i < y + |blank| then inserted[i - y] else lines[i - |blank|]
    {
    }
    assert |s| == |shown| == n && Distinct(s);
    assert Shows(s, shown);
    assert Apart(s, aside);
  }

  /** Rows taken out and others appended stay distinct and apart from a third list, and show the
      lines taken out and appended likewise. */
  lemma DeletedRows(all: seq<Row>, lines: seq<Line>, y: nat, count: nat, blank: seq<Row>, added: seq<Line>,
                    aside: seq<Row>)
    requires Distinct(all) && Distinct(blank) && Apart(all, blank) && Apart(all, aside) && Apart(blank, aside)
    requires Shows(all, lines) && Shows(blank, added) && y <= |all|
    ensures var s := Splice(all, y, count, []) + blank;
            && Distinct(s) && Apart(s, aside) && Shows(s, Splice(lines, y, count, []) + added)
            && forall i :: 0 <= i < |s| ==> s[i] in all || s[i] in blank
  {
    var to := Min(y + count, |all|);
    var kept, shown := Splice(all, y, count, []), Splice(lines, y, count, []);
    forall i | 0 <= i < |kept|
      ensures kept[i] == if i < y then all[i] else all[i - y + to]
      ensures shown[i] == if i < y then lines[i] else lines[i - y + to]
    {
    }
    assert Distinct(kept + blank);
    assert Shows(kept + blank, shown + added);
    assert Apart(kept + blank, aside);
  }

  /** The same for one row, dropped at the top. */
  lemma ShiftedRows(all: seq<Row>, lines: seq<Line>, row: Row, blank: Line, aside: seq<Row>)
    requires |all| > 0 && Distinct(all) && Apart(all, [row]) && Apart(all, aside) && Apart([row], aside)
    requires Shows(all, lines) && row.cells == blank
    ensures var s := all[1..] + [row];
            && Distinct(s) && Apart(s, aside) && Shows(s, lines[1..] + [blank])
            && forall i :: 0 <= i < |s| ==> s[i] in all || s[i] == row
  {
  }

  method NewRows(cols: int, count: int) returns (rows: seq<Row>)
    ensures Distinct(rows) && forall i :: 0 <= i < |rows| ==> fresh(rows[i])
    ensures Shows(rows, BlankScreen(cols, count))
  {
    rows := [];
    while |rows| < count
      invariant |rows| <= Max(0, count) && Distinct(rows)
      invariant forall i :: 0 <= i < |rows| ==> fresh(rows[i]) && rows[i].cells == BlankLine(cols)
    {
      var row := new Row(BlankLine(cols));
      rows := rows + [row];
    }
  }

  /** `screen.map((line) => [...line])`: equal cells, no shared row. */
  method CopyRows(source: seq<Row>, ghost lines: seq<Line>) returns (rows: seq<Row>)
    requires Shows(source, lines)
    ensures Distinct(rows) && forall i :: 0 <= i < |rows| ==> fresh(rows[i])
    ensures Shows(rows, lines)
  {
    rows := [];
    while |rows| < |source|
      invariant |rows| <= |source| && Distinct(rows)
      invariant forall i :: 0 <= i < |rows| ==> fresh(rows[i]) && rows[i].cells == lines[i]
    {
      var row := new Row(source[|rows|].cells);
      rows := rows + [row];
    }
  }

  /** The rows of a resized screen, cell by cell. */
  method ResizedRows(source: seq<Row>, ghost lines: seq<Line>, cols: int, count: int) returns (rows: seq<Row>)
    requires Shows(source, lines) && count >= 1
    ensures Distinct(rows) && forall i :: 0 <= i < |rows| ==> fresh(rows[i])
    ensures Shows(rows, ResizedScreen(lines, cols, count))
  {
    rows := [];
    while |rows| < count
      invariant |rows| <= count && Distinct(rows)
      invariant forall i :: 0 <= i < |rows| ==> fresh(rows[i])
      invariant forall i :: 0 <= i < |rows| ==> rows[i].cells == ResizedScreen(lines, cols, count)[i]
    {
      var existing := if |rows| < |source| then source[|rows|].cells else [];
      var row := new Row(ResizedLine(existing, cols));
      rows := rows + [row];
    }
  }

  class TerminalScreen {
    var cols: int
    var rows: int
    const scrollbackLimit: Limit
    var screen: seq<Row>
    var scrollback: seq<string>
    var cursorX: int
    var cursorY: int
    var savedX: int
    var savedY: int
    var parserState: ParserState
    var control: string
    var mainScreen: Option<SavedScreen>

    /** The value the functions of `TerminalModel` talk about; `Valid` ties it to every field. */
    ghost var model: Term

    /** The rows set aside while the alternate screen is shown. */
    ghost function SetAside(): seq<Row>
      reads this
    {
      if mainScreen.Some? then mainScreen.value.screen else []
    }

    /** No row object is used twice, on or between the two screens. */
    ghost predicate Unshared()
      reads this
    {
      Distinct(screen) && Distinct(SetAside()) && Apart(screen, SetAside())
    }

    ghost predicate ShowsSaved()
      reads this, SetAside()
    {
      match (mainScreen, model.main)
      case (Some(m), Some(s)) => Shows(m.screen, s.screen) && s == Saved(s.screen, m.scrollback, m.cursorX, m.cursorY)
      case (None, None) => true
      case _ => false
    }

    ghost predicate ShowsModel()
      reads this, screen, SetAside()
    {
      && model == Term(cols, rows, scrollbackLimit, model.screen, scrollback, cursorX, cursorY, savedX, savedY,
                       parserState, control, model.main)
      && Shows(screen, model.screen)
      && ShowsSaved()
    }

    ghost predicate Valid()
      reads this, screen, SetAside()
    {
      Unshared() && ShowsModel() && Grid(model)
    }

    constructor (cols: int, rows: int, limit: Limit)
      requires cols >= 1 && rows >= 1
      ensures Valid() && model == New(cols, rows, limit)
      ensures forall i :: 0 <= i < |screen| ==> fresh(screen[i])
    {
      this.cols, this.rows, scrollbackLimit := cols, rows, limit;
      scrollback, cursorX, cursorY, savedX, savedY := [], 0, 0, 0, 0;
      parserState, control, mainScreen := Normal, "", None;
      model := New(cols, rows, limit);
      new;
      screen := NewRows(cols, rows);
    }

    /** New blank rows on display, with nothing scrolled off and the cursor at home. */
    method ShowBlank()
      requires Valid()
      modifies this`screen, this`scrollback, this`cursorX, this`cursorY, this`model
      ensures Valid() && forall i :: 0 <= i < |screen| ==> fresh(screen[i])
      ensures model == old(model).(screen := BlankScreen(cols, rows), scrollback := [], cursorX := 0, cursorY := 0)
    {
      screen := NewRows(cols, rows);
      scrollback, cursorX, cursorY := [], 0, 0;
      model := model.(screen := BlankScreen(cols, rows), scrollback := [], cursorX := 0, cursorY := 0);
    }

    method Clear()
      requires Valid()
      modifies this
      ensures Valid() && model == TerminalModel.Clear(old(model))
      ensures Renewed(screen, old(screen)) && SetAside() == []
    {
      ShowBlank();
      parserState, control, mainScreen := Normal, "", None;
      model := TerminalModel.Clear(model);
    }

    /** Every row on display was on display before or is new. */
    twostate predicate Renewed(new now: seq<Row>, before: seq<Row>) {
      forall i :: 0 <= i < |now| ==> fresh(now[i]) || now[i] in before
    }

    method SetColumn(x: int)
      requires Valid() && 0 <= x <= cols
      modifies this`cursorX, this`model
      ensures Valid() && model == old(model).(cursorX := x)
    {
      cursorX := x;
      model := model.(cursorX := x);
    }

    /** A line scrolled off, within the limit. */
    method RememberLine(line: string)
      requires Valid()
      modifies this`scrollback, this`model
      ensures Valid() && model == old(model).(scrollback := Remember(old(scrollback), scrollbackLimit, line))
    {
      scrollback := scrollback + [line];
      if !scrollbackLimit.Admits(|scrollback|) {
        scrollback := scrollback[1..];
      }
      model := model.(scrollback := scrollback);
    }

    /** One round of `scroll`. */
    method ShiftUp()
      requires Valid()
      modifies this
      ensures Valid() && model == ScrollOne(old(model))
      ensures Renewed(screen, old(screen)) && mainScreen == old(mainScreen)
    {
      ghost var after := ScrollOne(model);
      if mainScreen.None? {
        RememberLine(TrimRight(screen[0].cells));
      }
      var row := new Row(BlankLine(cols));
      ShiftedRows(screen, model.screen, row, BlankLine(cols), SetAside());
      screen := screen[1..] + [row];
      model := after;
    }

    method Scroll(count: nat)
      requires Valid()
      modifies this
      ensures Valid() && model == TerminalModel.Scroll(old(model), count)
      ensures Renewed(screen, old(screen)) && mainScreen == old(mainScreen)
    {
      ghost var goal := TerminalModel.Scroll(model, count);
      var index := 0;
      while index < count
        invariant index <= count && Valid() && Renewed(screen, old(screen)) && mainScreen == old(mainScreen)
        invariant TerminalModel.Scroll(model, count - index) == goal
      {
        ShiftUp();
        index := index + 1;
      }
    }

    /** One round of `scrollDown`. */
    method ShiftDown()
      requires Valid()
      modifies this
      ensures Valid() && model == ScrollDownOne(old(model))
      ensures Renewed(screen, old(screen)) && mainScreen == old(mainScreen)
    {
      screen := screen[..|screen| - 1];
      var row := new Row(BlankLine(cols));
      screen := [row] + screen;
      model := ScrollDownOne(model);
    }

    method ScrollDown(count: nat)
      requires Valid()
      modifies this
      ensures Valid() && model == TerminalModel.ScrollDown(old(model), count)
      ensures Renewed(screen, old(screen)) && mainScreen == old(mainScreen)
    {
      ghost var goal := TerminalModel.ScrollDown(model, count);
      var index := 0;
      while index < count
        invariant index <= count && Valid() && Renewed(screen, old(screen)) && mainScreen == old(mainScreen)
        invariant TerminalModel.ScrollDown(model, count - index) == goal
      {
        ShiftDown();
        index := index + 1;
      }
    }

    method LineFeed()
      requires Valid()
      modifies this
      ensures Valid() && model == TerminalModel.LineFeed(old(model))
      ensures Renewed(screen, old(screen)) && mainScreen == old(mainScreen)
    {
      if cursorY < rows - 1 {
        cursorY := cursorY + 1;
        model := model.(cursorY := model.cursorY + 1);
        return;
      }
      Scroll(1);
    }

    method ReverseLineFeed()
      requires Valid()
      modifies this
      ensures Valid() && model == TerminalModel.ReverseLineFeed(old(model))
      ensures Renewed(screen, old(screen)) && mainScreen == old(mainScreen)
    {
      if cursorY > 0 {
        cursorY := cursorY - 1;
        model := model.(cursorY := model.cursorY - 1);
      } else {
        UnshiftRow();
      }
    }

    /** A blank row on top, the last one cut off. */
    method UnshiftRow()
      requires Valid() && cursorY == 0
      modifies this`screen, this`model
      ensures Valid() && model == TerminalModel.ReverseLineFeed(old(model))
      ensures Renewed(screen, old(screen))
    {
      var row := new Row(BlankLine(cols));
      InsertedRows(screen, model.screen, 0, [row], [BlankLine(cols)], SetAside(), rows);
      assert Splice(screen, 0, 0, [row]) == [row] + screen;
      assert Splice(model.screen, 0, 0, [BlankLine(cols)]) == [BlankLine(cols)] + model.screen;
      screen := [row] + screen;
      screen := screen[..rows];
      model := TerminalModel.ReverseLineFeed(model);
    }

    /** Replaces the cells of the current row, in place. */
    method SetLine(line: Line)
      requires Valid() && |line| == cols
      modifies this`model, screen
      ensures Valid() && model == WithLine(old(model), line)
    {
      screen[cursorY].cells := line;
      model := WithLine(model, line);
    }

    /** The deferred wrap: a cursor past the last column moves to the next row before printing. */
    method Wrap()
      requires Valid()
      modifies this
      ensures Valid() && Renewed(screen, old(screen)) && mainScreen == old(mainScreen) && cursorX < cols
      ensures model == if old(model).cursorX >= old(model).cols then TerminalModel.LineFeed(old(model).(cursorX := 0))
                       else old(model)
    {
      if cursorX >= cols {
        SetColumn(0);
        LineFeed();
      }
    }

    method Put(character: char)
      requires Valid()
      modifies this, screen
      ensures Valid() && model == TerminalModel.Put(old(model), character)
      ensures Renewed(screen, old(screen)) && mainScreen == old(mainScreen)
    {
      Wrap();
      SetLine(screen[cursorY].cells[cursorX := character]);
      SetColumn(cursorX + 1);
    }

    /** `screen[row].fill(" ")` for the rows from `from` up to `to`. */
    method FillRows(from: int, to: int)
      requires Valid() && 0 <= from && to <= rows
      modifies this`model, screen
      ensures Valid() && model == old(model).(screen := BlankRows(old(model).screen, from, to))
    {
      ghost var before := model.screen;
      var row := from;
      while row < to
        invariant from <= row && (row <= to || row == from)
        invariant Unshared() && ShowsSaved() && model == old(model)
        invariant forall i :: 0 <= i < rows ==>
                    screen[i].cells == if from <= i < row then Fill(before[i], 0, |before[i]|) else before[i]
      {
        screen[row].cells := Fill(screen[row].cells, 0, |screen[row].cells|);
        row := row + 1;
      }
      model := model.(screen := BlankRows(before, from, to));
    }

    method EraseLine(mode: int)
      requires Valid()
      modifies this`model, screen
      ensures Valid() && model == TerminalModel.EraseLine(old(model), mode)
    {
      if mode == 0 {
        SetLine(Fill(screen[cursorY].cells, cursorX, cols));
      } else if mode == 1 {
        SetLine(Fill(screen[cursorY].cells, 0, cursorX + 1));
      } else if mode == 2 {
        SetLine(Fill(screen[cursorY].cells, 0, cols));
      }
    }

    method EraseAll(mode: int)
      requires Valid() && (mode == 2 || mode == 3)
      modifies this
      ensures Valid() && model == TerminalModel.EraseDisplay(old(model), mode)
      ensures Renewed(screen, old(screen)) && mainScreen == old(mainScreen)
    {
      screen := NewRows(cols, rows);
      if mode == 3 {
        scrollback := [];
      }
      model := TerminalModel.EraseDisplay(model, mode);
    }

    method EraseDisplay(mode: int)
      requires Valid()
      modifies this, screen
      ensures Valid() && model == TerminalModel.EraseDisplay(old(model), mode)
      ensures Renewed(screen, old(screen)) && mainScreen == old(mainScreen)
    {
      if mode == 2 || mode == 3 {
        EraseAll(mode);
      } else if mode == 0 {
        EraseLine(0);
        FillRows(cursorY + 1, rows);
      } else if mode == 1 {
        FillRows(0, cursorY);
        EraseLine(1);
      }
    }

    method DeleteCharacters(count: nat)
      requires Valid()
      modifies this`model, screen
      ensures Valid() && model == TerminalModel.DeleteCharacters(old(model), count)
    {
      var line := Splice(screen[cursorY].cells, cursorX, count, []);
      SetLine(line + BlankLine(Min(count, cols - |line|)));
    }

    method InsertCharacters(count: nat)
      requires Valid()
      modifies this`model, screen
      ensures Valid() && model == TerminalModel.InsertCharacters(old(model), count)
    {
      var line := Splice(screen[cursorY].cells, cursorX, 0, BlankLine(count));
      SetLine(line[..cols]);
    }

    method EraseCharacters(count: nat)
      requires Valid()
      modifies this`model, screen
      ensures Valid() && model == TerminalModel.EraseCharacters(old(model), count)
    {
      SetLine(Fill(screen[cursorY].cells, cursorX, Min(cols, cursorX + count)));
    }

    method InsertLines(count: nat)
      requires Valid()
      modifies this
      ensures Valid() && model == TerminalModel.InsertLines(old(model), count)
      ensures Renewed(screen, old(screen)) && mainScreen == old(mainScreen)
    {
      var blank := NewRows(cols, count);
      InsertedRows(screen, model.screen, cursorY, blank, BlankScreen(cols, count), SetAside(), rows);
      screen := Splice(screen, cursorY, 0, blank);
      screen := screen[..rows];
      model := TerminalModel.InsertLines(model, count);
    }

    method DeleteLines(count: nat)
      requires Valid()
      modifies this
      ensures Valid() && model == TerminalModel.DeleteLines(old(model), count)
      ensures Renewed(screen, old(screen)) && mainScreen == old(mainScreen)
    {
      var kept := Splice(screen, cursorY, count, []);
      var blank := NewRows(cols, rows - |kept|);
      DeletedRows(screen, model.screen, cursorY, count, blank, BlankScreen(cols, rows - |kept|), SetAside());
      screen := kept + blank;
      model := TerminalModel.DeleteLines(model, count);
    }

    method EnterAlternateScreen()
      requires Valid()
      modifies this
      ensures Valid() && model == TerminalModel.EnterAlternateScreen(old(model))
      ensures forall i :: 0 <= i < |screen| ==> fresh(screen[i]) || screen[i] in old(screen)
      ensures Renewed(SetAside(), old(SetAside()))
    {
      if mainScreen.Some? {
        return;
      }
      var copy := CopyRows(screen, model.screen);
      var saved := SavedScreen(copy, scrollback, cursorX, cursorY);
      ghost var after := TerminalModel.EnterAlternateScreen(model);
      ShowBlank();
      mainScreen := Some(saved);
      model := after;
    }

    method LeaveAlternateScreen()
      requires Valid()
      modifies this
      ensures Valid() && model == TerminalModel.LeaveAlternateScreen(old(model))
      ensures screen == if old(mainScreen).Some? then old(SetAside()) else old(screen)
      ensures SetAside() == []
    {
      if mainScreen.None? {
        return;
      }
      var m := mainScreen.value;
      screen, scrollback, cursorX, cursorY := m.screen, m.scrollback, m.cursorX, m.cursorY;
      mainScreen := None;
      model := TerminalModel.LeaveAlternateScreen(model);
    }

    /** Every row held afterwards was held before or is new; rows set aside were never on display before. */
    twostate predicate Kept()
      reads this
    {
      Renewed(screen, old(screen) + old(SetAside())) && Renewed(SetAside(), old(SetAside()))
    }

    /** As long as the screens are not switched. */
    twostate lemma StaysKept()
      requires Renewed(screen, old(screen)) && SetAside() == old(SetAside())
      ensures Kept()
    {
    }

    method MoveCursor(n: int, final: char)
      requires Valid() && n >= 1 && final in {'A', 'B', 'C', 'D', 'E', 'F', 'G', 'd'}
      modifies this`cursorX, this`cursorY, this`model
      ensures Valid() && model == TerminalModel.MoveCursor(old(model), n, final)
    {
      if final == 'A' {
        cursorY := Max(0, cursorY - n);
      } else if final == 'B' {
        cursorY := Min(rows - 1, cursorY + n);
      } else if final == 'C' {
        cursorX := Min(cols - 1, cursorX + n);
      } else if final == 'D' {
        cursorX := Max(0, cursorX - n);
      } else if final == 'E' {
        cursorY := Min(rows - 1, cursorY + n);
        cursorX := 0;
      } else if final == 'F' {
        cursorY := Max(0, cursorY - n);
        cursorX := 0;
      } else if final == 'G' {
        cursorX := Min(cols - 1, n - 1);
      } else {
        cursorY := Min(rows - 1, n - 1);
      }
      model := TerminalModel.MoveCursor(model, n, final);
    }

    method EditGrid(mode: int, n: nat, final: char)
      requires Valid() && final in {'K', 'P', '@', 'X', 'L', 'M', 'T'}
      modifies this, screen
      ensures Valid() && model == TerminalModel.EditGrid(old(model), mode, n, final)
      ensures Renewed(screen, old(screen)) && mainScreen == old(mainScreen)
    {
      if final == 'K' {
        EraseLine(mode);
      } else if final == 'P' {
        DeleteCharacters(n);
      } else if final == '@' {
        InsertCharacters(n);
      } else if final == 'X' {
        EraseCharacters(n);
      } else if final == 'L' {
        InsertLines(n);
      } else if final == 'M' {
        DeleteLines(n);
      } else {
        ScrollDown(n);
      }
    }

    method SaveCursor()
      requires Valid()
      modifies this`savedX, this`savedY, this`model
      ensures Valid() && model == old(model).(savedX := old(model).cursorX, savedY := old(model).cursorY)
    {
      savedX, savedY := cursorX, cursorY;
      model := model.(savedX := cursorX, savedY := cursorY);
    }

    method RestoreCursor()
      requires Valid()
      modifies this`cursorX, this`cursorY, this`model
      ensures Valid() && model == old(model).(cursorX := old(model).savedX, cursorY := old(model).savedY)
    {
      cursorX, cursorY := savedX, savedY;
      model := model.(cursorX := savedX, cursorY := savedY);
    }

    /** `CSI H`: the clamp has no lower end, so the parameters must not be negative. */
    method HomeCursor(values: seq<int>)
      requires Valid() && OrOne(values, 0) >= 1 && OrOne(values, 1) >= 1
      modifies this`cursorX, this`cursorY, this`model
      ensures Valid() && model == Home(old(model), values)
    {
      cursorY := Min(rows - 1, OrOne(values, 0) - 1);
      cursorX := Min(cols - 1, OrOne(values, 1) - 1);
      model := Home(model, values);
    }

    method SwitchScreen(final: char)
      requires Valid() && final in {'h', 'l'}
      modifies this
      ensures Valid() && Kept()
      ensures model == if final == 'h' then TerminalModel.EnterAlternateScreen(old(model))
                       else TerminalModel.LeaveAlternateScreen(old(model))
    {
      if final == 'h' {
        EnterAlternateScreen();
      } else {
        LeaveAlternateScreen();
      }
    }

    /** The sequences that stay on the screen they find. */
    method CsiOnScreen(values: seq<int>, n: nat, final: char)
      requires Valid() && |values| >= 1 && n == Count(model, values)
      requires final in {'H', 'f'} ==> OrOne(values, 0) >= 1 && OrOne(values, 1) >= 1
      modifies this, screen
      ensures Valid() && model == DispatchOnScreen(old(model), values, final)
      ensures Renewed(screen, old(screen)) && mainScreen == old(mainScreen)
    {
      if final in {'A', 'B', 'C', 'D', 'E', 'F', 'G', 'd'} {
        MoveCursor(n, final);
      } else if final in {'H', 'f'} {
        HomeCursor(values);
      } else if final == 'J' {
        EraseDisplay(values[0]);
      } else if final in {'K', 'P', '@', 'X', 'L', 'M', 'T'} {
        EditGrid(values[0], n, final);
      } else if final == 'S' {
        Scroll(n);
      } else if final == 's' {
        SaveCursor();
      } else if final == 'u' {
        RestoreCursor();
      }
    }

    method Csi(raw: string, final: char)
      requires Valid() && raw == control && parserState == ParserState.Csi && !NegativeHome(model, final)
      modifies this, screen
      ensures Valid() && model == CsiDispatch(old(model), raw, final) && Kept()
    {
      var values := ParameterList(raw);
      var n := Max(1, Min(OrOne(values, 0), Max(cols, rows)));
      if IsAlternateSwitch(raw, final) {
        SwitchScreen(final);
      } else {
        CsiOnScreen(values, n, final);
        StaysKept();
      }
    }

    method EscapeFinal(character: char)
      requires Valid()
      modifies this
      ensures Valid() && model == EscapeControl(old(model), character) && Kept()
    {
      if character == '7' {
        SaveCursor();
      } else if character == '8' {
        RestoreCursor();
      } else if character == 'D' {
        LineFeed();
      } else if character == 'E' {
        SetColumn(0);
        LineFeed();
      } else if character == 'M' {
        ReverseLineFeed();
      } else if character == 'c' {
        Clear();
      }
    }

    method SetParser(state: ParserState, buffer: string)
      requires Valid() && |buffer| <= 128 && Utf16Length(buffer) <= 129
      modifies this`parserState, this`control, this`model
      ensures Valid() && model == old(model).(parser := state, control := buffer)
    {
      parserState, control := state, buffer;
      model := model.(parser := state, control := buffer);
    }

    method EscapeCharacter(character: char)
      requires Valid()
      modifies this
      ensures Valid() && model == EscapeDispatch(old(model), character) && Kept()
    {
      if character == '[' {
        SetParser(ParserState.Csi, "");
      } else if character == ']' {
        SetParser(Osc, control);
      } else if character in {'P', 'X', '^', '_'} {
        SetParser(ControlString, control);
      } else {
        EscapeFinal(character);
        SetParser(Normal, control);
      }
    }

    /** The loop of a tab: `spaces` blanks, one at a time. */
    method PutSpaces(spaces: nat)
      requires Valid()
      modifies this, screen
      ensures Valid() && model == TerminalModel.PutSpaces(old(model), spaces)
      ensures Renewed(screen, old(screen)) && mainScreen == old(mainScreen)
    {
      ghost var goal := TerminalModel.PutSpaces(model, spaces);
      var index := 0;
      while index < spaces
        invariant index <= spaces && Valid() && mainScreen == old(mainScreen)
        invariant forall i :: 0 <= i < |screen| ==> fresh(screen[i]) || screen[i] in old(screen)
        invariant TerminalModel.PutSpaces(model, spaces - index) == goal
      {
        ghost var shown := screen;
        Put(' ');
        assert forall i :: 0 <= i < |screen| ==> screen[i] in shown || fresh(screen[i]);
        index := index + 1;
      }
    }

    method NormalCharacter(character: char)
      requires Valid()
      modifies this, screen
      ensures Valid() && model == ConsumeNormal(old(model), character)
      ensures Renewed(screen, old(screen)) && mainScreen == old(mainScreen)
    {
      if character == ESC {
        SetParser(Escape, control);
      } else if character == '\r' {
        SetColumn(0);
      } else if character in {'\n', '\U{000b}', '\U{000c}'} {
        LineFeed();
      } else if character == '\U{0008}' {
        SetColumn(Max(0, cursorX - 1));
      } else if character == '\t' {
        PutSpaces(8 - cursorX % 8);
      } else if Printable(character) {
        Put(character);
      }
    }

    method CsiCharacter(character: char)
      requires Valid() && parserState == ParserState.Csi && !NegativeHome(model, character)
      modifies this, screen
      ensures Valid() && model == ConsumeCsi(old(model), character) && Kept()
    {
      if '@' <= character <= '~' {
        Csi(control, character);
        SetParser(Normal, "");
      } else if Utf16Length(control) < 128 {
        assert (control + [character])[..|control|] == control;
        SetParser(parserState, control + [character]);
      } else {
        SetParser(Normal, "");
      }
    }

    /** One character; only rows on display may change. */
    method Consume(character: char)
      requires Valid() && !NegativeHome(model, character)
      modifies this, screen
      ensures Valid() && model == TerminalModel.Consume(old(model), character) && Kept()
    {
      match parserState
      case ControlString =>
        if character == ESC { SetParser(ControlStringEscape, control); }
      case ControlStringEscape =>
        SetParser(if character == '\\' then Normal else ControlString, control);
      case Osc =>
        if character == BEL {
          SetParser(Normal, control);
        } else if character == ESC {
          SetParser(OscEscape, control);
        }
      case OscEscape =>
        SetParser(if character == '\\' then Normal else Osc, control);
      case Csi =>
        CsiCharacter(character);
      case Escape =>
        EscapeCharacter(character);
      case Normal =>
        NormalCharacter(character);
        StaysKept();
    }

    method Feed(value: string)
      requires Valid() && Safe(model, value)
      modifies this, screen, SetAside()
      ensures Valid() && model == TerminalRuns.Feed(old(model), value) && KeptOverall()
    {
      var index := 0;
      while index < |value|
        invariant index <= |value| && Valid() && KeptOverall()
        invariant Safe(model, value[index..])
        invariant TerminalRuns.Feed(model, value[index..]) == TerminalRuns.Feed(old(model), value)
      {
        assert value[index..][1..] == value[index + 1..];
        Consume(value[index]);
        index := index + 1;
      }
    }

    /** Across several characters a row may change sides, but no foreign row is ever taken in. */
    twostate predicate KeptOverall()
      reads this
    {
      && Renewed(screen, old(screen) + old(SetAside()))
      && Renewed(SetAside(), old(screen) + old(SetAside()))
    }

    method Resize(newCols: int, newRows: int)
      requires Valid() && newCols >= 1 && newRows >= 1
      requires (newCols == cols && newRows == rows) || (savedX <= newCols && savedY < newRows && mainScreen.None?)
      modifies this
      ensures Valid() && model == TerminalModel.Resize(old(model), newCols, newRows)
      ensures Renewed(screen, old(screen)) && mainScreen == old(mainScreen)
    {
      if newCols == cols && newRows == rows {
        return;
      }
      ResizeKeepsGridExactly(model, newCols, newRows);
      var next := ResizedRows(screen, model.screen, newCols, newRows);
      cols, rows, screen := newCols, newRows, next;
      cursorX, cursorY := Min(cursorX, newCols - 1), Min(cursorY, newRows - 1);
      model := TerminalModel.Resize(model, newCols, newRows);
    }

    /** The text on display, as one string; nothing changes. */
    method Render(cursor: bool) returns (text: string)
      requires Valid()
      ensures text == TerminalRendering.Rendered(model, cursor)
    {
      ghost var visible := TerminalRendering.Visible(model, cursor);
      var lines, y := scrollback, 0;
      while y < rows
        invariant 0 <= y <= rows && lines == scrollback + TerminalScrollback.TrimmedRows(visible[..y])
      {
        var line := screen[y].cells;
        if cursor && y == cursorY {
          line := line[Min(cursorX, cols - 1) := TerminalRendering.BLOCK];
        }
        assert line == visible[y] && visible[..y + 1] == visible[..y] + [line];
        TerminalRendering.TrimmedRowsAppend(visible[..y], line);
        lines := lines + [TrimRight(line)];
        y := y + 1;
      }
      assert visible[..y] == visible;
      while |lines| > 1 && lines[|lines| - 1] == ""
        invariant TerminalRendering.DropEmpty(lines) == TerminalRendering.RenderedLines(model, cursor)
      {
        lines := lines[..|lines| - 1];
      }
      text := TerminalRendering.JoinLines(lines);
    }
  }
}
