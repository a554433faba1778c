/** The terminal emulator as a state and one function per operation.
    `TerminalScreen` (see TerminalScreen.dfy) is the mutable object proved to follow these functions. */
module TerminalModel {
  import opened Options

  type Line = seq<char>

  datatype ParserState = Normal | Escape | Csi | Osc | OscEscape | ControlString | ControlStringEscape

  /** A JavaScript number used as a bound: `Infinity` never cuts anything off. */
  datatype Limit = Finite(max: nat) | Infinity {
    predicate Admits(n: nat) {
      Infinity? || n <= max
    }
  }

  datatype Saved = Saved(screen: seq<Line>, scrollback: seq<string>, cursorX: int, cursorY: int)

  datatype Term = Term(
    cols: int, rows: int, limit: Limit,
    screen: seq<Line>, scrollback: seq<string>,
    cursorX: int, cursorY: int, savedX: int, savedY: int,
    parser: ParserState, control: string, main: Option<Saved>)

  // ----- JavaScript array and string built-ins -----

  function Min(a: int, b: int): int { if a <= b then a else b }

  function Max(a: int, b: int): int { if a <= b then b else a }

  function BlankLine(cols: int): (line: Line)
    ensures |line| == Max(0, cols)
  {
    seq(Max(0, cols), _ => ' ')
  }

  function BlankScreen(cols: int, rows: int): (screen: seq<Line>)
    ensures |screen| == Max(0, rows)
  {
    seq(Max(0, rows), _ => BlankLine(cols))
  }

  /** `line.fill(" ", from, to)` for non-negative bounds. */
  function Fill(line: Line, from: int, to: int): (r: Line)
    ensures |r| == |line|
  {
    seq(|line|, i requires 0 <= i < |line| => if from <= i < to then ' ' else line[i])
  }

  /** `s.splice(start, deleteCount, ...items)` for non-negative arguments. */
  function Splice<T>(s: seq<T>, start: nat, deleteCount: nat, items: seq<T>): seq<T> {
    var from := Min(start, |s|);
    var to := Min(start + deleteCount, |s|);
    s[..from] + items + s[to..]
  }

  /** The characters matched by `\s`. */
  predicate IsSpace(c: char) {
    || '\t' <= c <= '\r'
    || c in {' ', '\U{00a0}', '\U{1680}', '\U{2028}', '\U{2029}', '\U{202f}', '\U{205f}', '\U{3000}', '\U{feff}'}
    || '\U{2000}' <= c <= '\U{200a}'
  }

  /** `line.join("").replace(/\s+$/u, "")` */
  function TrimRight(line: Line): string {
    if |line| > 0 && IsSpace(line[|line| - 1]) then TrimRight(line[..|line| - 1]) else line
  }

  function Utf16Length(s: string): (n: nat)
    ensures |s| <= n <= 2 * |s|
  {
    if |s| == 0 then 0 else Utf16Length(s[..|s| - 1]) + (if s[|s| - 1] > '\U{ffff}' then 2 else 1)
  }

  // ----- CSI parameters -----

  function Split(s: string, separator: char): (parts: seq<string>)
    ensures |parts| >= 1
  {
    if |s| == 0 then [""]
    else
      var rest := Split(s[1..], separator);
      if s[0] == separator then [""] + rest else [[s[0]] + rest[0]] + rest[1..]
  }

  function TrimLeft(s: string): string {
    if |s| > 0 && IsSpace(s[0]) then TrimLeft(s[1..]) else s
  }

  function Digits(s: string, acc: nat): nat {
    if |s| > 0 && '0' <= s[0] <= '9' then Digits(s[1..], 10 * acc + (s[0] as int - '0' as int)) else acc
  }

  /** `Number.parseInt(part || "0", 10)`, with the not-a-number result read as 0. */
  function ParseInt(part: string): int {
    var s := TrimLeft(part);
    if |s| > 0 && s[0] == '-' then 0 - Digits(s[1..], 0)
    else if |s| > 0 && s[0] == '+' then Digits(s[1..], 0)
    else Digits(s, 0)
  }

  function ParameterList(raw: string): (values: seq<int>)
    ensures |values| >= 1
  {
    var normalized := if |raw| > 0 && raw[0] in {'?', '>', '!'} then raw[1..] else raw;
    if normalized == "" then [0]
    else
      var parts := Split(normalized, ';');
      seq(|parts|, i requires 0 <= i < |parts| => ParseInt(parts[i]))
  }

  /** `values[i] || 1` */
  function OrOne(values: seq<int>, i: nat): int {
    if i < |values| && values[i] != 0 then values[i] else 1
  }

  /** The repeat count of a control sequence, bounded by the larger screen dimension. */
  function Count(t: Term, values: seq<int>): (n: int)
    requires t.cols >= 1
    ensures 1 <= n <= Max(t.cols, t.rows)
  {
    Max(1, Min(OrOne(values, 0), Max(t.cols, t.rows)))
  }

  // ----- The grid invariant -----

  predicate Rectangular(screen: seq<Line>, cols: int, rows: int) {
    && |screen| == rows
    && forall i :: 0 <= i < |screen| ==> |screen[i]| == cols
  }

  predicate CursorInside(x: int, y: int, cols: int, rows: int) {
    0 <= x <= cols && 0 <= y < rows
  }

  predicate SavedGrid(s: Saved, cols: int, rows: int, limit: Limit) {
    && Rectangular(s.screen, cols, rows)
    && CursorInside(s.cursorX, s.cursorY, cols, rows)
    && limit.Admits(|s.scrollback|)
  }

  predicate Grid(t: Term) {
    && t.cols >= 1 && t.rows >= 1
    && Rectangular(t.screen, t.cols, t.rows)
    && CursorInside(t.cursorX, t.cursorY, t.cols, t.rows)
    && CursorInside(t.savedX, t.savedY, t.cols, t.rows)
    && t.limit.Admits(|t.scrollback|)
    && |t.control| <= 128 && Utf16Length(t.control) <= 129
    && (t.main.Some? ==> SavedGrid(t.main.value, t.cols, t.rows, t.limit))
  }

  predicate SameDimensions(t: Term, r: Term) {
    r.cols == t.cols && r.rows == t.rows && r.limit == t.limit
  }

  /** What every grid edit leaves alone. */
  predicate SameBackground(t: Term, r: Term) {
    && SameDimensions(t, r)
    && r.savedX == t.savedX && r.savedY == t.savedY
    && r.parser == t.parser && r.control == t.control && r.main == t.main
  }

  // ----- Construction, clearing and resizing -----

  function New(cols: int, rows: int, limit: Limit): (t: Term)
    requires cols >= 1 && rows >= 1
    ensures Grid(t)
  {
    Term(cols, rows, limit, BlankScreen(cols, rows), [], 0, 0, 0, 0, Normal, "", None)
  }

  function Clear(t: Term): (r: Term)
    ensures SameDimensions(t, r) && (Grid(t) ==> Grid(r))
  {
    t.(screen := BlankScreen(t.cols, t.rows), scrollback := [], cursorX := 0, cursorY := 0,
       parser := Normal, control := "", main := None)
  }

  function ResizedLine(line: Line, cols: int): (r: Line)
    ensures |r| == Max(0, cols)
  {
    seq(Max(0, cols), j requires 0 <= j => if j < |line| then line[j] else ' ')
  }

  function ResizedScreen(screen: seq<Line>, cols: int, rows: int): (r: seq<Line>)
    ensures Rectangular(r, Max(0, cols), Max(0, rows))
  {
    var next := seq(Max(0, rows), i requires 0 <= i => ResizedLine(if i < |screen| then screen[i] else [], cols));
    assert forall i :: 0 <= i < |next| ==> next[i] == ResizedLine(if i < |screen| then screen[i] else [], cols);
    next
  }

  function Resize(t: Term, cols: int, rows: int): Term {
    if cols == t.cols && rows == t.rows then t
    else
      t.(cols := cols, rows := rows, screen := ResizedScreen(t.screen, cols, rows),
         cursorX := Min(t.cursorX, cols - 1), cursorY := Min(t.cursorY, rows - 1))
  }

  // ----- Scrolling and printing -----

  /** `scrollback.push(line)` followed by dropping the oldest line beyond the limit. */
  function Remember(scrollback: seq<string>, limit: Limit, line: string): seq<string> {
    var pushed := scrollback + [line];
    if limit.Admits(|pushed|) then pushed else pushed[1..]
  }

  function ScrollOne(t: Term): (r: Term)
    requires Grid(t)
    ensures Grid(r) && SameBackground(t, r) && r.cursorX == t.cursorX && r.cursorY == t.cursorY
  {
    t.(screen := t.screen[1..] + [BlankLine(t.cols)],
       scrollback := if t.main.None? then Remember(t.scrollback, t.limit, TrimRight(t.screen[0])) else t.scrollback)
  }

  function Scroll(t: Term, count: nat): (r: Term)
    requires Grid(t)
    ensures Grid(r) && SameBackground(t, r) && r.cursorX == t.cursorX && r.cursorY == t.cursorY
    decreases count
  {
    if count == 0 then t else Scroll(ScrollOne(t), count - 1)
  }

  function ScrollDownOne(t: Term): (r: Term)
    requires Grid(t)
    ensures Grid(r) && r == t.(screen := r.screen)
  {
    t.(screen := [BlankLine(t.cols)] + t.screen[..|t.screen| - 1])
  }

  function ScrollDown(t: Term, count: nat): (r: Term)
    requires Grid(t)
    ensures Grid(r) && r == t.(screen := r.screen)
    decreases count
  {
    if count == 0 then t else ScrollDown(ScrollDownOne(t), count - 1)
  }

  function LineFeed(t: Term): (r: Term)
    requires Grid(t)
    ensures Grid(r) && SameBackground(t, r) && r.cursorX == t.cursorX
  {
    if t.cursorY < t.rows - 1 then t.(cursorY := t.cursorY + 1) else Scroll(t, 1)
  }

  function ReverseLineFeed(t: Term): (r: Term)
    requires Grid(t)
    ensures Grid(r) && SameBackground(t, r) && r.scrollback == t.scrollback && r.cursorX == t.cursorX
  {
    if t.cursorY > 0 then t.(cursorY := t.cursorY - 1)
    else t.(screen := ([BlankLine(t.cols)] + t.screen)[..t.rows])
  }

  function Put(t: Term, c: char): (r: Term)
    requires Grid(t)
    ensures Grid(r) && SameBackground(t, r)
  {
    var u := if t.cursorX >= t.cols then LineFeed(t.(cursorX := 0)) else t;
    u.(screen := u.screen[u.cursorY := u.screen[u.cursorY][u.cursorX := c]], cursorX := u.cursorX + 1)
  }

  function PutSpaces(t: Term, count: nat): (r: Term)
    requires Grid(t)
    ensures Grid(r) && SameBackground(t, r)
    decreases count
  {
    if count == 0 then t else PutSpaces(Put(t, ' '), count - 1)
  }

  // ----- Erasing and editing -----

  function WithLine(t: Term, line: Line): (r: Term)
    requires Grid(t) && |line| == t.cols
    ensures Grid(r) && r == t.(screen := r.screen)
  {
    t.(screen := t.screen[t.cursorY := line])
  }

  function CurrentLine(t: Term): (line: Line)
    requires Grid(t)
    ensures |line| == t.cols
  {
    t.screen[t.cursorY]
  }

  function BlankRows(screen: seq<Line>, from: int, to: int): (r: seq<Line>)
    ensures |r| == |screen|
    ensures forall i :: 0 <= i < |r| ==> |r[i]| == |screen[i]|
  {
    seq(|screen|, i requires 0 <= i < |screen| =>
        if from <= i < to then Fill(screen[i], 0, |screen[i]|) else screen[i])
  }

  function EraseLine(t: Term, mode: int): (r: Term)
    requires Grid(t)
    ensures Grid(r) && r == t.(screen := r.screen)
  {
    if mode == 0 then WithLine(t, Fill(CurrentLine(t), t.cursorX, t.cols))
    else if mode == 1 then WithLine(t, Fill(CurrentLine(t), 0, t.cursorX + 1))
    else if mode == 2 then WithLine(t, Fill(CurrentLine(t), 0, t.cols))
    else t
  }

  function EraseDisplay(t: Term, mode: int): (r: Term)
    requires Grid(t)
    ensures Grid(r) && r == t.(screen := r.screen, scrollback := r.scrollback)
    ensures r.scrollback == if mode == 3 then [] else t.scrollback
  {
    if mode == 2 || mode == 3 then
      t.(screen := BlankScreen(t.cols, t.rows), scrollback := if mode == 3 then [] else t.scrollback)
    else if mode == 0 then
      var u := EraseLine(t, 0);
      u.(screen := BlankRows(u.screen, t.cursorY + 1, t.rows))
    else if mode == 1 then
      EraseLine(t.(screen := BlankRows(t.screen, 0, t.cursorY)), 1)
    else t
  }

  function DeleteCharacters(t: Term, count: nat): (r: Term)
    requires Grid(t)
    ensures Grid(r) && r == t.(screen := r.screen)
  {
    var line := Splice(CurrentLine(t), t.cursorX, count, []);
    WithLine(t, line + BlankLine(Min(count, t.cols - |line|)))
  }

  function InsertCharacters(t: Term, count: nat): (r: Term)
    requires Grid(t)
    ensures Grid(r) && r == t.(screen := r.screen)
  {
    WithLine(t, Splice(CurrentLine(t), t.cursorX, 0, BlankLine(count))[..t.cols])
  }

  function EraseCharacters(t: Term, count: nat): (r: Term)
    requires Grid(t)
    ensures Grid(r) && r == t.(screen := r.screen)
  {
    WithLine(t, Fill(CurrentLine(t), t.cursorX, Min(t.cols, t.cursorX + count)))
  }

  function InsertLines(t: Term, count: nat): (r: Term)
    requires Grid(t)
    ensures Grid(r) && r == t.(screen := r.screen)
  {
    t.(screen := Splice(t.screen, t.cursorY, 0, BlankScreen(t.cols, count))[..t.rows])
  }

  function DeleteLines(t: Term, count: nat): (r: Term)
    requires Grid(t)
    ensures Grid(r) && r == t.(screen := r.screen)
  {
    var kept := Splice(t.screen, t.cursorY, count, []);
    t.(screen := kept + BlankScreen(t.cols, t.rows - |kept|))
  }

  // ----- Alternate screen -----

  function EnterAlternateScreen(t: Term): (r: Term)
    requires Grid(t)
    ensures SameDimensions(t, r) && Grid(r)
  {
    if t.main.Some? then t
    else t.(main := Some(Saved(t.screen, t.scrollback, t.cursorX, t.cursorY)),
            screen := BlankScreen(t.cols, t.rows), scrollback := [], cursorX := 0, cursorY := 0)
  }

  function LeaveAlternateScreen(t: Term): (r: Term)
    requires Grid(t)
    ensures SameDimensions(t, r) && Grid(r)
  {
    if t.main.None? then t
    else
      var m := t.main.value;
      t.(screen := m.screen, scrollback := m.scrollback, cursorX := m.cursorX, cursorY := m.cursorY, main := None)
  }

  // ----- The parser -----

  predicate IsAlternateSwitch(raw: string, final: char) {
    (final == 'h' || final == 'l') && "?1049" <= raw
  }

  /** The absolute cursor position of `CSI row ; column H`; the only step whose clamp has no lower end. */
  function Home(t: Term, values: seq<int>): Term {
    t.(cursorY := Min(t.rows - 1, OrOne(values, 0) - 1), cursorX := Min(t.cols - 1, OrOne(values, 1) - 1))
  }

  predicate NegativeHome(t: Term, c: char) {
    && t.parser == Csi && c in {'H', 'f'}
    && var values := ParameterList(t.control);
       OrOne(values, 0) < 1 || OrOne(values, 1) < 1
  }

  /** Cursor movement: everything but H and f. */
  function MoveCursor(t: Term, n: int, final: char): (r: Term)
    requires Grid(t) && n >= 1 && final in {'A', 'B', 'C', 'D', 'E', 'F', 'G', 'd'}
    ensures Grid(r) && r == t.(cursorX := r.cursorX, cursorY := r.cursorY)
  {
    match final
    case 'A' => t.(cursorY := Max(0, t.cursorY - n))
    case 'B' => t.(cursorY := Min(t.rows - 1, t.cursorY + n))
    case 'C' => t.(cursorX := Min(t.cols - 1, t.cursorX + n))
    case 'D' => t.(cursorX := Max(0, t.cursorX - n))
    case 'E' => t.(cursorY := Min(t.rows - 1, t.cursorY + n), cursorX := 0)
    case 'F' => t.(cursorY := Max(0, t.cursorY - n), cursorX := 0)
    case 'G' => t.(cursorX := Min(t.cols - 1, n - 1))
    case _ => t.(cursorY := Min(t.rows - 1, n - 1))
  }

  /** In-place edits of the live rows; none of them can reach the scrollback or the saved screen. */
  function EditGrid(t: Term, mode: int, n: nat, final: char): (r: Term)
    requires Grid(t) && final in {'K', 'P', '@', 'X', 'L', 'M', 'T'}
    ensures Grid(r) && r == t.(screen := r.screen)
  {
    match final
    case 'K' => EraseLine(t, mode)
    case 'P' => DeleteCharacters(t, n)
    case '@' => InsertCharacters(t, n)
    case 'X' => EraseCharacters(t, n)
    case 'L' => InsertLines(t, n)
    case 'M' => DeleteLines(t, n)
    case _ => ScrollDown(t, n)
  }

  /** The sequences that stay on the screen they find. */
  function DispatchOnScreen(t: Term, values: seq<int>, final: char): (r: Term)
    requires Grid(t) && |values| >= 1
    ensures SameDimensions(t, r) && r.parser == t.parser && r.control == t.control && r.main == t.main
    ensures Grid(r) || final in {'H', 'f'}
  {
    var n := Count(t, values);
    if final in {'A', 'B', 'C', 'D', 'E', 'F', 'G', 'd'} then MoveCursor(t, n, final)
    else if final in {'H', 'f'} then Home(t, values)
    else if final == 'J' then EraseDisplay(t, values[0])
    else if final in {'K', 'P', '@', 'X', 'L', 'M', 'T'} then EditGrid(t, values[0], n, final)
    else if final == 'S' then Scroll(t, n)
    else if final == 's' then t.(savedX := t.cursorX, savedY := t.cursorY)
    else if final == 'u' then t.(cursorX := t.savedX, cursorY := t.savedY)
    else t
  }

  function CsiDispatch(t: Term, raw: string, final: char): (r: Term)
    requires Grid(t)
    ensures SameDimensions(t, r) && r.parser == t.parser && r.control == t.control
    ensures Grid(r) || final in {'H', 'f'}
  {
    if IsAlternateSwitch(raw, final) then
      if final == 'h' then EnterAlternateScreen(t) else LeaveAlternateScreen(t)
    else DispatchOnScreen(t, ParameterList(raw), final)
  }

  /** The escape sequences of one final character. */
  function EscapeControl(t: Term, c: char): (r: Term)
    requires Grid(t)
    ensures SameDimensions(t, r) && Grid(r)
  {
    if c == '7' then t.(savedX := t.cursorX, savedY := t.cursorY)
    else if c == '8' then t.(cursorX := t.savedX, cursorY := t.savedY)
    else if c == 'D' then LineFeed(t)
    else if c == 'E' then LineFeed(t.(cursorX := 0))
    else if c == 'M' then ReverseLineFeed(t)
    else if c == 'c' then Clear(t)
    else t
  }

  function EscapeDispatch(t: Term, c: char): (r: Term)
    requires Grid(t)
    ensures SameDimensions(t, r) && Grid(r)
  {
    if c == '[' then t.(control := "", parser := Csi)
    else if c == ']' then t.(parser := Osc)
    else if c in {'P', 'X', '^', '_'} then t.(parser := ControlString)
    else EscapeControl(t, c).(parser := Normal)
  }

  const ESC: char := '\U{001b}'
  const BEL: char := '\U{0007}'

  predicate Printable(c: char) {
    c >= ' ' && c != '\U{007f}'
  }

  function ConsumeNormal(t: Term, c: char): (r: Term)
    requires Grid(t)
    ensures SameDimensions(t, r) && Grid(r)
  {
    if c == ESC then t.(parser := Escape)
    else if c == '\r' then t.(cursorX := 0)
    else if c in {'\n', '\U{000b}', '\U{000c}'} then LineFeed(t)
    else if c == '\U{0008}' then t.(cursorX := Max(0, t.cursorX - 1))
    else if c == '\t' then PutSpaces(t, 8 - t.cursorX % 8)
    else if Printable(c) then Put(t, c)
    else t
  }

  function ConsumeCsi(t: Term, c: char): (r: Term)
    requires Grid(t)
    ensures SameDimensions(t, r)
    ensures t.parser == Csi && !NegativeHome(t, c) ==> Grid(r)
  {
    assert (t.control + [c])[..|t.control|] == t.control;
    if '@' <= c <= '~' then CsiDispatch(t, t.control, c).(control := "", parser := Normal)
    else if Utf16Length(t.control) < 128 then t.(control := t.control + [c])
    else t.(control := "", parser := Normal)
  }

  function Consume(t: Term, c: char): (r: Term)
    requires Grid(t)
    ensures SameDimensions(t, r)
    ensures !NegativeHome(t, c) ==> Grid(r)
  {
    match t.parser
    case ControlString => if c == ESC then t.(parser := ControlStringEscape) else t
    case ControlStringEscape => t.(parser := if c == '\\' then Normal else ControlString)
    case Osc => if c == BEL then t.(parser := Normal) else if c == ESC then t.(parser := OscEscape) else t
    case OscEscape => t.(parser := if c == '\\' then Normal else Osc)
    case Csi => ConsumeCsi(t, c)
    case Escape => EscapeDispatch(t, c)
    case Normal => ConsumeNormal(t, c)
  }
}
