/** The abstract screen machine: its state, its reachable-state invariant and the
    meaning of every handler operation. The class in Terminal.dfy refines it. */
module Screens {
  import opened Sequences
  import opened Cells
  import opened RowEdits
  import opened Regions

  // ---- state -------------------------------------------------------------

  datatype Pen = Pen(fg: Color, bg: Color, flags: bv8)

  datatype Charset = Ascii | LineDrawing

  datatype CharsetIndex = G0 | G1 | G2 | G3

  datatype Charsets = Charsets(g0: Charset, g1: Charset, g2: Charset, g3: Charset, active: CharsetIndex)

  /** A character and the number of columns it takes. */
  datatype Char = Char(ch: char, width: nat)

  datatype Cursor = Cursor(row: nat, col: nat, pen: Pen, charsets: Charsets)

  /** The five modes that a switch to the alternate screen saves. */
  datatype Modes = Modes(showCursor: bool, cursorKeys: bool, bracketedPaste: bool, lineWrap: bool, origin: bool)

  /** Mouse tracking is global: no screen switch saves or restores it. */
  datatype Mouse = Mouse(reporting: bool, sgr: bool, buttonMotion: bool, anyMotion: bool)

  datatype SwitchState = SwitchState(
    cursor: Cursor, modes: Modes, scrollTop: nat, scrollBottom: nat, savedCursor: Option<Cursor>)

  datatype Screen = Screen(
    rows: nat, cols: nat,
    grid: seq<Row>,
    cursorRow: nat, cursorCol: nat,
    pen: Pen, charsets: Charsets,
    savedCursor: Option<Cursor>,
    switchState: Option<SwitchState>,
    scrollTop: nat, scrollBottom: nat,
    altGrid: Option<seq<Row>>, usingAlt: bool,
    scrollback: seq<Row>, capacity: nat,
    log: seq<Row>,  // every row pushed to scrollback since it was last cleared
    tabStops: seq<bool>,
    modes: Modes, insertMode: bool, mouse: Mouse,
    exitCode: Option<int>, exitDirty: bool)

  const DEFAULT_PEN := Pen(Default, Default, 0)
  const DEFAULT_CHARSETS := Charsets(Ascii, Ascii, Ascii, Ascii, G0)
  const DEFAULT_MODES := Modes(true, false, false, true, false)
  const MOUSE_OFF := Mouse(false, false, false, false)
  const DEFAULT_CAPACITY: nat := 10_000

  function StopsEvery(cols: nat, interval: nat): (stops: seq<bool>)
    requires interval > 0
    ensures |stops| == cols
    ensures forall c :: 0 <= c < cols ==> stops[c] == (c % interval == 0)
  {
    seq(cols, c requires 0 <= c => c % interval == 0)
  }

  function Fresh(rows: nat, cols: nat): (s: Screen)
    ensures rows > 0 && cols > 0 ==> Inv(s)
  {
    Screen(rows, cols, BlankGrid(rows, cols), 0, 0, DEFAULT_PEN, DEFAULT_CHARSETS, None, None,
           0, Monus(rows, 1), None, false, [], DEFAULT_CAPACITY, [], StopsEvery(cols, 8),
           DEFAULT_MODES, false, MOUSE_OFF, None, false)
  }

  // ---- invariant ---------------------------------------------------------

  predicate CursorOk(c: Cursor, rows: nat, cols: nat) {
    c.row < rows && c.col <= cols + 1
  }

  predicate SavedOk(c: Option<Cursor>, rows: nat, cols: nat) {
    c.Some? ==> CursorOk(c.value, rows, cols)
  }

  predicate SwitchOk(w: SwitchState, rows: nat, cols: nat) {
    CursorOk(w.cursor, rows, cols) && w.scrollTop <= w.scrollBottom < rows && SavedOk(w.savedCursor, rows, cols)
  }

  /** What holds of every state a run without resizing reaches. */
  predicate Inv(s: Screen) {
    && 0 < s.rows && 0 < s.cols
    && GridOk(s.grid, s.rows, s.cols)
    && s.cursorRow < s.rows && s.cursorCol <= s.cols + 1
    && s.scrollTop <= s.scrollBottom < s.rows
    && |s.tabStops| == s.cols
    && SavedOk(s.savedCursor, s.rows, s.cols)
    && |s.scrollback| <= s.capacity
    && IsSuffix(s.scrollback, s.log)
    && s.usingAlt == s.altGrid.Some? == s.switchState.Some?
    && (s.usingAlt ==> GridOk(s.altGrid.value, s.rows, s.cols) && SwitchOk(s.switchState.value, s.rows, s.cols))
  }

  /** The bounds most operations need. */
  lemma InvBounds(s: Screen)
    requires Inv(s)
    ensures 0 < s.rows == |s.grid| && 0 < s.cols == |s.tabStops|
    ensures s.cursorRow < s.rows && s.scrollTop <= s.scrollBottom < s.rows
    ensures |s.scrollback| <= s.capacity && |s.grid[s.cursorRow].cells| == s.cols
    ensures s.usingAlt ==> s.altGrid.Some? && s.switchState.Some?
  {
  }

  /** `t` can follow `s`: it satisfies the invariant at the same size. */
  predicate Follows(s: Screen, t: Screen) {
    Inv(t) && t.rows == s.rows && t.cols == s.cols
  }

  /** Scrollback holds exactly the most recent rows of the log that fit. */
  predicate Window(s: Screen) {
    s.scrollback == LastN(s.log, s.capacity)
  }

  /** What an editing operation leaves alone: everything but the grid, the cursor and
      the history, and on the alternate screen the history too. It keeps the history
      window, and with wrapping on it keeps the cursor at most one past the margin. */
  predicate Edits(s: Screen, t: Screen) {
    && t == s.(grid := t.grid, cursorRow := t.cursorRow, cursorCol := t.cursorCol,
               scrollback := t.scrollback, log := t.log)
    && (s.usingAlt ==> t.scrollback == s.scrollback && t.log == s.log)
    && (Window(s) ==> Window(t))
    && (2 <= s.cols && s.modes.lineWrap && s.cursorCol <= s.cols ==> t.cursorCol <= s.cols)
  }

  // ---- scrolling ---------------------------------------------------------

  function Blank(s: Screen): Row {
    BlankRow(s.cols, s.pen.bg)
  }

  /** A rearranged grid, and the rows it gave up to the history. */
  function WithRows(s: Screen, grid: seq<Row>, moved: seq<Row>): (t: Screen)
    requires Inv(s) && GridOk(grid, s.rows, s.cols) && (s.usingAlt ==> moved == [])
    ensures Follows(s, t) && Edits(s, t)
  {
    LastNTwice(s.log, moved, s.capacity);
    s.(grid := grid, scrollback := LastN(s.scrollback + moved, s.capacity), log := s.log + moved)
  }

  /** Rows leave the region at the top; only the primary screen keeps them. */
  function ScrollUp(s: Screen, n: nat): (t: Screen)
    requires Inv(s)
    ensures Follows(s, t) && Edits(s, t)
  {
    RegionsKeepShape(s.grid, s.scrollTop, s.scrollBottom, n, Blank(s), s.rows, s.cols);
    WithRows(s, RegionUp(s.grid, s.scrollTop, s.scrollBottom, n, Blank(s)),
             if s.usingAlt then [] else MovedOut(s.grid, s.scrollTop, s.scrollBottom, n, Blank(s)))
  }

  function ScrollDown(s: Screen, n: nat): (t: Screen)
    requires Inv(s)
    ensures Follows(s, t) && Edits(s, t)
  {
    RegionsKeepShape(s.grid, s.scrollTop, s.scrollBottom, n, Blank(s), s.rows, s.cols);
    s.(grid := RegionDown(s.grid, s.scrollTop, s.scrollBottom, n, Blank(s)))
  }

  function LineFeed(s: Screen): (t: Screen)
    requires Inv(s)
    ensures Follows(s, t) && Edits(s, t)
  {
    if s.cursorRow == s.scrollBottom then ScrollUp(s, 1)
    else if s.cursorRow < s.rows - 1 then s.(cursorRow := s.cursorRow + 1)
    else s
  }

  function ReverseIndex(s: Screen): (t: Screen)
    requires Inv(s)
    ensures Follows(s, t) && Edits(s, t)
  {
    if s.cursorRow == s.scrollTop then ScrollDown(s, 1)
    else if s.cursorRow > 0 then s.(cursorRow := s.cursorRow - 1)
    else s
  }

  predicate CursorInRegion(s: Screen) {
    s.scrollTop <= s.cursorRow <= s.scrollBottom
  }

  function DeleteLines(s: Screen, n: nat): (t: Screen)
    requires Inv(s)
    ensures Follows(s, t) && Edits(s, t)
  {
    if CursorInRegion(s) then
      RegionsKeepShape(s.grid, s.cursorRow, s.scrollBottom, n, Blank(s), s.rows, s.cols);
      s.(grid := RegionUp(s.grid, s.cursorRow, s.scrollBottom, n, Blank(s)))
    else s
  }

  function InsertLines(s: Screen, n: nat): (t: Screen)
    requires Inv(s)
    ensures Follows(s, t) && Edits(s, t)
  {
    if CursorInRegion(s) && s.scrollBottom > 0 then
      RegionsKeepShape(s.grid, s.cursorRow, s.scrollBottom, n, Blank(s), s.rows, s.cols);
      s.(grid := RegionDown(s.grid, s.cursorRow, s.scrollBottom, n, Blank(s)))
    else s
  }

  // ---- the cursor's row --------------------------------------------------

  function CursorCells(s: Screen): seq<Cell>
    requires Inv(s)
  {
    s.grid[s.cursorRow].cells
  }

  function WithCells(s: Screen, cells: seq<Cell>): (t: Screen)
    requires Inv(s) && |cells| == s.cols
    ensures Follows(s, t) && Edits(s, t)
  {
    s.(grid := s.grid[s.cursorRow := s.grid[s.cursorRow].(cells := cells)])
  }

  function InsertBlank(s: Screen, n: nat): (t: Screen)
    requires Inv(s)
    ensures Follows(s, t) && Edits(s, t)
  {
    WithCells(s, InsertCells(CursorCells(s), s.cursorCol, n, Erased(s.pen.bg)))
  }

  function DeleteChars(s: Screen, n: nat): (t: Screen)
    requires Inv(s)
    ensures Follows(s, t) && Edits(s, t)
  {
    WithCells(s, DeleteCells(CursorCells(s), s.cursorCol, n, Erased(s.pen.bg)))
  }

  function EraseChars(s: Screen, n: nat): (t: Screen)
    requires Inv(s)
    ensures Follows(s, t) && Edits(s, t)
  {
    WithCells(s, EraseCells(CursorCells(s), s.cursorCol, s.cursorCol + n, Erased(s.pen.bg)))
  }

  datatype LineMode = Right | Left | Whole

  /** The half-open range of columns an erase-in-line covers; `Left` includes the cursor. */
  function LineSpan(s: Screen, mode: LineMode): (nat, nat)
    requires Inv(s)
  {
    match mode
    case Right => (s.cursorCol, Max(s.cursorCol, s.cols))
    case Left => (0, Min(s.cursorCol, s.cols - 1) + 1)
    case Whole => (0, s.cols)
  }

  function ClearLine(s: Screen, mode: LineMode): (t: Screen)
    requires Inv(s)
    ensures Follows(s, t) && Edits(s, t)
  {
    var (from, to) := LineSpan(s, mode);
    WithCells(s, EraseCells(CursorCells(s), from, to, Erased(s.pen.bg)))
  }

  datatype ScreenMode = Below | Above | All | Saved

  /** Rows `[from, to)` replaced by blank rows. */
  function BlankRows(s: Screen, from: nat, to: nat): (t: Screen)
    requires Inv(s) && from <= to <= s.rows
    ensures Follows(s, t) && Edits(s, t)
  {
    s.(grid := s.grid[..from] + Repeat(Blank(s), to - from) + s.grid[to..])
  }

  function ClearScreen(s: Screen, mode: ScreenMode): (t: Screen)
    requires Inv(s)
    ensures Follows(s, t)
    ensures mode != Saved ==> Edits(s, t)
  {
    match mode
    case Below => BlankRows(ClearLine(s, Right), s.cursorRow + 1, s.rows)
    case Above => ClearLine(BlankRows(s, 0, s.cursorRow), Left)
    case All => BlankRows(s, 0, s.rows)
    case Saved => s.(scrollback := [], log := [])
  }

  /** The alignment pattern overwrites characters and keeps every attribute. */
  function AlignmentTest(s: Screen): (t: Screen)
    requires Inv(s)
    ensures Follows(s, t) && Edits(s, t)
  {
    s.(grid := seq(s.rows, i requires 0 <= i < s.rows =>
        s.grid[i].(cells := seq(s.cols, j requires 0 <= j < s.cols => s.grid[i].cells[j].(character := 'E')))))
  }

  // ---- printing ----------------------------------------------------------

  /** A cursor past the last column wraps, or is pulled back onto it. */
  function WrapPending(s: Screen): (t: Screen)
    requires Inv(s)
    ensures Follows(s, t) && Edits(s, t) && t.cursorCol < t.cols
  {
    if s.cursorCol < s.cols then s
    else if s.modes.lineWrap then LineFeed(s.(cursorCol := 0))
    else s.(cursorCol := s.cols - 1)
  }

  /** A wide character that does not fit blanks the last column and wraps. */
  function WrapWide(s: Screen, width: nat): (t: Screen)
    requires Inv(s) && s.cursorCol < s.cols
    ensures Follows(s, t) && Edits(s, t) && t.cursorCol < t.cols
    ensures 2 <= s.cols && s.modes.lineWrap && width <= 2 ==> t.cursorCol + width <= t.cols
  {
    if width == 2 && s.cursorCol + 1 >= s.cols then
      var e := EraseChars(s, 1);
      if s.modes.lineWrap then LineFeed(e.(cursorCol := 0)) else e
    else s
  }

  /** Insert mode opens a gap of default cells before the glyph is written. */
  function OpenGap(s: Screen, width: nat): (t: Screen)
    requires Inv(s) && s.cursorCol < s.cols
    ensures Follows(s, t) && Edits(s, t) && t.cursorCol == s.cursorCol
  {
    if s.insertMode then WithCells(s, InsertCells(CursorCells(s), s.cursorCol, width, DEFAULT_CELL)) else s
  }

  function Glyph(ch: char, width: nat, pen: Pen): Cell {
    Cell(ch, pen.fg, pen.bg, pen.flags, width > 1, false)
  }

  function Continuation(pen: Pen): Cell {
    Cell(' ', pen.fg, pen.bg, pen.flags, false, true)
  }

  function PutGlyph(s: Screen, ch: char, width: nat): (t: Screen)
    requires Inv(s) && s.cursorCol < s.cols && width <= 2
    ensures Follows(s, t)
    ensures s.cursorCol + width <= s.cols || !s.modes.lineWrap || s.cols < 2 ==> Edits(s, t)
  {
    var c := s.cursorCol;
    var one := CursorCells(s)[c := Glyph(ch, width, s.pen)];
    var two := if width == 2 && c + 1 < s.cols then one[c + 1 := Continuation(s.pen)] else one;
    WithCells(s, two).(cursorCol := c + width)
  }

  function ActiveCharset(c: Charsets): Charset {
    match c.active
    case G0 => c.g0
    case G1 => c.g1
    case G2 => c.g2
    case G3 => c.g3
  }

  /** An input character under the terminal's own active character set, given what the
      line-drawing set makes of it. */
  function Mapped(c: Charsets, plain: Char, drawing: Char): Char {
    if ActiveCharset(c).LineDrawing? then drawing else plain
  }

  function Print(s: Screen, ch: char, width: nat): (t: Screen)
    requires Inv(s) && width <= 2
    ensures Follows(s, t) && Edits(s, t)
  {
    PutGlyph(OpenGap(WrapWide(WrapPending(s), width), width), ch, width)
  }

  // ---- cursor motion and tabs --------------------------------------------

  function ClampRow(s: Screen, row: int): (r: nat)
    requires s.rows > 0
    ensures r < s.rows
  {
    Min(Max(row, 0), s.rows - 1)
  }

  function ClampCol(s: Screen, col: nat): (c: nat)
    requires s.cols > 0
    ensures c < s.cols
  {
    Min(col, s.cols - 1)
  }

  function MoveTo(s: Screen, row: nat, col: nat): (t: Screen)
    requires Inv(s) && row < s.rows && col <= Max(s.cols, s.cursorCol)
    ensures Follows(s, t) && Edits(s, t)
  {
    s.(cursorRow := row, cursorCol := col)
  }

  /** Landing on the second half of a wide character selects its first half. */
  function Goto(s: Screen, line: int, col: nat): (t: Screen)
    requires Inv(s)
    ensures Follows(s, t) && Edits(s, t)
  {
    var row, c := ClampRow(s, line), ClampCol(s, col);
    s.(cursorRow := row, cursorCol := if s.grid[row].cells[c].wideNext then Monus(c, 1) else c)
  }

  /** The first stop right of `col`, or the last column. */
  function NextStop(stops: seq<bool>, col: nat): (c: nat)
    requires |stops| > 0
    ensures c < |stops|
    ensures col + 1 < |stops| ==> col < c
    ensures forall k :: col < k < c ==> !stops[k]
    ensures col < c < |stops| - 1 ==> stops[c]
    ensures |stops| <= col + 1 ==> c == |stops| - 1
    decreases |stops| - col
  {
    if col + 1 >= |stops| then |stops| - 1
    else if stops[col + 1] then col + 1
    else NextStop(stops, col + 1)
  }

  /** The last stop left of `col`, or column 0. */
  function PreviousStop(stops: seq<bool>, col: nat): (c: nat)
    ensures c <= col
    ensures col > 0 ==> c < col
    ensures 0 < c < |stops| ==> stops[c]
    ensures forall k :: c < k < col && k < |stops| ==> !stops[k]
    ensures c > 0 ==> c < |stops|
  {
    if col == 0 then 0
    else if col - 1 < |stops| && stops[col - 1] then col - 1
    else PreviousStop(stops, col - 1)
  }

  function PutTab(s: Screen, n: nat): (t: Screen)
    requires Inv(s)
    ensures Follows(s, t) && Edits(s, t)
    decreases n
  {
    if n == 0 then s else PutTab(s.(cursorCol := NextStop(s.tabStops, s.cursorCol)), n - 1)
  }

  function BackTab(s: Screen, n: nat): (t: Screen)
    requires Inv(s)
    ensures Follows(s, t) && Edits(s, t)
    decreases n
  {
    if n == 0 then s else BackTab(s.(cursorCol := PreviousStop(s.tabStops, s.cursorCol)), n - 1)
  }

  function WithStops(s: Screen, stops: seq<bool>): (t: Screen)
    requires Inv(s) && |stops| == s.cols
    ensures Follows(s, t)
  {
    s.(tabStops := stops)
  }

  function MarkStop(s: Screen, on: bool): (t: Screen)
    requires Inv(s)
    ensures Follows(s, t)
  {
    if s.cursorCol < |s.tabStops| then s.(tabStops := s.tabStops[s.cursorCol := on]) else s
  }

  // ---- saved state and modes ---------------------------------------------

  function CursorOf(s: Screen): Cursor {
    Cursor(s.cursorRow, s.cursorCol, s.pen, s.charsets)
  }

  function WithCursor(s: Screen, c: Cursor): Screen {
    s.(cursorRow := c.row, cursorCol := c.col, pen := c.pen, charsets := c.charsets)
  }

  function SaveCursor(s: Screen): (t: Screen)
    requires Inv(s)
    ensures Follows(s, t)
  {
    s.(savedCursor := Some(CursorOf(s)))
  }

  function RestoreCursor(s: Screen): (t: Screen)
    requires Inv(s)
    ensures Follows(s, t)
  {
    if s.savedCursor.Some? then WithCursor(s, s.savedCursor.value) else s
  }

  function WithStyle(s: Screen, pen: Pen, charsets: Charsets, insertMode: bool): (t: Screen)
    requires Inv(s)
    ensures Follows(s, t)
  {
    s.(pen := pen, charsets := charsets, insertMode := insertMode)
  }

  /** RIS: the visible screen and most modes, but not tab stops, not scrollback,
      and not the primary screen parked behind an alternate one. */
  function Reset(s: Screen): (t: Screen)
    requires Inv(s)
    ensures Follows(s, t)
  {
    s.(grid := BlankGrid(s.rows, s.cols), cursorRow := 0, cursorCol := 0, pen := DEFAULT_PEN,
       savedCursor := None, scrollTop := 0, scrollBottom := s.rows - 1, modes := DEFAULT_MODES,
       mouse := MOUSE_OFF, insertMode := false, charsets := DEFAULT_CHARSETS)
  }

  function SwitchOf(s: Screen): SwitchState {
    SwitchState(CursorOf(s), s.modes, s.scrollTop, s.scrollBottom, s.savedCursor)
  }

  function EnterAlt(s: Screen): (t: Screen)
    requires Inv(s)
    ensures Follows(s, t)
  {
    if s.usingAlt then s else
      s.(switchState := Some(SwitchOf(s)), altGrid := Some(s.grid), grid := BlankGrid(s.rows, s.cols),
         usingAlt := true, cursorRow := 0, cursorCol := 0, scrollTop := 0, scrollBottom := s.rows - 1,
         savedCursor := None)
  }

  function LeaveAlt(s: Screen): (t: Screen)
    requires Inv(s)
    ensures Follows(s, t)
  {
    if !s.usingAlt then s else
      var w := s.switchState.value;
      WithCursor(s, w.cursor).(
        grid := s.altGrid.value, altGrid := None, usingAlt := false, switchState := None,
        modes := w.modes, scrollTop := w.scrollTop, scrollBottom := w.scrollBottom, savedCursor := w.savedCursor)
  }

  datatype PrivateMode =
    | CursorKeys | LineWrap | Origin | ShowCursor | BracketedPaste
    | MouseClicks | MouseButtonMotion | MouseAnyMotion | MouseSgr
    | AltScreen

  function SetMouse(m: Mouse, mode: PrivateMode): Mouse {
    match mode
    case MouseClicks => m.(reporting := true)
    case MouseButtonMotion => m.(reporting := true, buttonMotion := true, anyMotion := false)
    case MouseAnyMotion => m.(reporting := true, anyMotion := true)
    case MouseSgr => m.(sgr := true)
    case _ => m
  }

  function UnsetMouse(m: Mouse, mode: PrivateMode): Mouse {
    match mode
    case MouseClicks => m.(reporting := false)
    case MouseButtonMotion => m.(buttonMotion := false, reporting := m.reporting && m.anyMotion)
    case MouseAnyMotion => m.(anyMotion := false, reporting := m.reporting && m.buttonMotion)
    case MouseSgr => m.(sgr := false)
    case _ => m
  }

  function SwitchMode(m: Modes, mode: PrivateMode, on: bool): Modes {
    match mode
    case CursorKeys => m.(cursorKeys := on)
    case LineWrap => m.(lineWrap := on)
    case Origin => m.(origin := on)
    case ShowCursor => m.(showCursor := on)
    case BracketedPaste => m.(bracketedPaste := on)
    case _ => m
  }

  function SetPrivateMode(s: Screen, mode: PrivateMode): (t: Screen)
    requires Inv(s)
    ensures Follows(s, t)
  {
    if mode.AltScreen? then EnterAlt(s)
    else s.(modes := SwitchMode(s.modes, mode, true), mouse := SetMouse(s.mouse, mode))
  }

  function UnsetPrivateMode(s: Screen, mode: PrivateMode): (t: Screen)
    requires Inv(s)
    ensures Follows(s, t)
  {
    if mode.AltScreen? then LeaveAlt(s)
    else s.(modes := SwitchMode(s.modes, mode, false), mouse := UnsetMouse(s.mouse, mode))
  }

  /** The region DECSTBM asks for: 1-based input, only the bottom is clamped. */
  function RegionTop(top: nat): nat {
    Monus(top, 1)
  }

  function RegionBottom(rows: nat, bottom: Option<nat>): nat {
    match bottom
    case Some(b) => Min(Monus(b, 1), Monus(rows, 1))
    case None => Monus(rows, 1)
  }

  function SetRegion(s: Screen, top: nat, bottom: Option<nat>): Screen {
    s.(scrollTop := RegionTop(top), scrollBottom := RegionBottom(s.rows, bottom),
       cursorRow := if s.modes.origin then RegionTop(top) else 0, cursorCol := 0)
  }

  function WithCharset(c: Charsets, index: CharsetIndex, charset: Charset): Charsets {
    match index
    case G0 => c.(g0 := charset)
    case G1 => c.(g1 := charset)
    case G2 => c.(g2 := charset)
    case G3 => c.(g3 := charset)
  }

  /** A lower capacity drops the oldest rows at once. */
  function SetCapacity(s: Screen, capacity: nat): (t: Screen)
    requires Inv(s)
    ensures Follows(s, t)
  {
    s.(capacity := capacity, scrollback := LastN(s.scrollback, capacity))
  }

  // ---- operations --------------------------------------------------------

  datatype Op =
    | OpPrint(plain: Char, drawing: Char)
    | OpGoto(line: int, col: nat) | OpGotoLine(line: int) | OpGotoCol(col: nat)
    | OpMoveUp(n: nat) | OpMoveDown(n: nat) | OpMoveForward(n: nat) | OpMoveBackward(n: nat)
    | OpMoveDownAndCr(n: nat) | OpMoveUpAndCr(n: nat)
    | OpPutTab(n: nat) | OpBackTab(n: nat)
    | OpBackspace | OpCarriageReturn | OpLineFeed | OpNewLine | OpReverseIndex
    | OpSetTabStop | OpClearTabStop | OpClearAllTabs | OpSetTabs(interval: nat)
    | OpScrollUp(n: nat) | OpScrollDown(n: nat)
    | OpInsertBlank(n: nat) | OpDeleteChars(n: nat) | OpEraseChars(n: nat)
    | OpInsertLines(n: nat) | OpDeleteLines(n: nat)
    | OpClearLine(lineMode: LineMode) | OpClearScreen(screenMode: ScreenMode) | OpAlignmentTest
    | OpSaveCursor | OpRestoreCursor | OpReset
    | OpSetPen(pen: Pen)
    | OpConfigureCharset(index: CharsetIndex, charset: Charset) | OpSetActiveCharset(index: CharsetIndex)
    | OpSetInsert(on: bool) | OpSetPrivateMode(mode: PrivateMode) | OpUnsetPrivateMode(mode: PrivateMode)
    | OpSetRegion(top: nat, bottom: Option<nat>)
    | OpSetCapacity(capacity: nat)

  /** What the code needs of the caller: a known glyph width, a positive tab
      interval, and a scrolling region whose top is not below its bottom. */
  predicate Legal(op: Op, rows: nat) {
    match op
    case OpPrint(plain, drawing) => plain.width <= 2 && drawing.width <= 2
    case OpSetTabs(interval) => interval > 0
    case OpSetRegion(top, bottom) => RegionTop(top) <= RegionBottom(rows, bottom)
    case _ => true
  }

  predicate IsEdit(op: Op) {
    match op
    case OpClearScreen(mode) => mode != Saved
    case OpSetTabStop | OpClearTabStop | OpClearAllTabs | OpSetTabs(_) => false
    case OpSaveCursor | OpRestoreCursor | OpReset => false
    case OpSetPen(_) | OpConfigureCharset(_, _) | OpSetActiveCharset(_) | OpSetInsert(_) => false
    case OpSetPrivateMode(_) | OpUnsetPrivateMode(_) | OpSetRegion(_, _) | OpSetCapacity(_) => false
    case _ => true
  }

  /** The operations that only move the cursor. */
  predicate IsMotion(op: Op) {
    op.OpGoto? || op.OpGotoLine? || op.OpGotoCol? || op.OpMoveUp? || op.OpMoveDown? || op.OpMoveForward?
    || op.OpMoveBackward? || op.OpMoveDownAndCr? || op.OpMoveUpAndCr? || op.OpPutTab? || op.OpBackTab?
    || op.OpBackspace? || op.OpCarriageReturn?
  }

  function MotionStep(s: Screen, op: Op): (t: Screen)
    requires Inv(s) && IsMotion(op)
    ensures Follows(s, t) && Edits(s, t)
  {
    match op
    case OpGoto(line, col) => Goto(s, line, col)
    case OpGotoLine(line) => MoveTo(s, ClampRow(s, line), s.cursorCol)
    case OpGotoCol(col) => MoveTo(s, s.cursorRow, ClampCol(s, col))
    case OpMoveUp(n) => MoveTo(s, Monus(s.cursorRow, n), s.cursorCol)
    case OpMoveDown(n) => MoveTo(s, ClampRow(s, s.cursorRow + n), s.cursorCol)
    case OpMoveForward(n) => MoveTo(s, s.cursorRow, ClampCol(s, s.cursorCol + n))
    case OpMoveBackward(n) => MoveTo(s, s.cursorRow, Monus(s.cursorCol, n))
    case OpMoveDownAndCr(n) => MoveTo(s, ClampRow(s, s.cursorRow + n), 0)
    case OpMoveUpAndCr(n) => MoveTo(s, Monus(s.cursorRow, n), 0)
    case OpPutTab(n) => PutTab(s, n)
    case OpBackTab(n) => BackTab(s, n)
    case OpBackspace => MoveTo(s, s.cursorRow, Monus(s.cursorCol, 1))
    case OpCarriageReturn => MoveTo(s, s.cursorRow, 0)
  }

  /** The operations that move rows. */
  predicate IsScroll(op: Op) {
    op.OpLineFeed? || op.OpNewLine? || op.OpReverseIndex? || op.OpScrollUp? || op.OpScrollDown?
    || op.OpInsertLines? || op.OpDeleteLines?
  }

  function ScrollStep(s: Screen, op: Op): (t: Screen)
    requires Inv(s) && IsScroll(op)
    ensures Follows(s, t) && Edits(s, t)
  {
    match op
    case OpLineFeed => LineFeed(s)
    case OpNewLine => LineFeed(MoveTo(s, s.cursorRow, 0))
    case OpReverseIndex => ReverseIndex(s)
    case OpScrollUp(n) => ScrollUp(s, n)
    case OpScrollDown(n) => ScrollDown(s, n)
    case OpInsertLines(n) => InsertLines(s, n)
    case OpDeleteLines(n) => DeleteLines(s, n)
  }

  /** The operations that overwrite cells in place. */
  predicate IsErasure(op: Op) {
    op.OpEraseChars? || op.OpClearLine? || (op.OpClearScreen? && op.screenMode != Saved) || op.OpAlignmentTest?
  }

  function ErasureStep(s: Screen, op: Op): (t: Screen)
    requires Inv(s) && IsErasure(op)
    ensures Follows(s, t) && Edits(s, t)
  {
    match op
    case OpEraseChars(n) => EraseChars(s, n)
    case OpClearLine(mode) => ClearLine(s, mode)
    case OpClearScreen(mode) => ClearScreen(s, mode)
    case OpAlignmentTest => AlignmentTest(s)
  }

  function EditStep(s: Screen, op: Op): (t: Screen)
    requires Inv(s) && Legal(op, s.rows) && IsEdit(op)
    ensures Follows(s, t) && Edits(s, t)
  {
    if IsMotion(op) then MotionStep(s, op)
    else if IsScroll(op) then ScrollStep(s, op)
    else if IsErasure(op) then ErasureStep(s, op)
    else
      match op
      case OpPrint(plain, drawing) =>
        var c := Mapped(s.charsets, plain, drawing);
        Print(s, c.ch, c.width)
      case OpInsertBlank(n) => InsertBlank(s, n)
      case OpDeleteChars(n) => DeleteChars(s, n)
  }

  function StateStep(s: Screen, op: Op): (t: Screen)
    requires Inv(s) && Legal(op, s.rows) && !IsEdit(op)
    ensures Follows(s, t)
  {
    match op
    case OpSetTabStop => MarkStop(s, true)
    case OpClearTabStop => MarkStop(s, false)
    case OpClearAllTabs => WithStops(s, Repeat(false, s.cols))
    case OpSetTabs(interval) => WithStops(s, StopsEvery(s.cols, interval))
    case OpClearScreen(mode) => ClearScreen(s, mode)
    case OpSaveCursor => SaveCursor(s)
    case OpRestoreCursor => RestoreCursor(s)
    case OpReset => Reset(s)
    case OpSetPen(pen) => WithStyle(s, pen, s.charsets, s.insertMode)
    case OpConfigureCharset(index, charset) =>
      WithStyle(s, s.pen, WithCharset(s.charsets, index, charset), s.insertMode)
    case OpSetActiveCharset(index) => WithStyle(s, s.pen, s.charsets.(active := index), s.insertMode)
    case OpSetInsert(on) => WithStyle(s, s.pen, s.charsets, on)
    case OpSetPrivateMode(mode) => SetPrivateMode(s, mode)
    case OpUnsetPrivateMode(mode) => UnsetPrivateMode(s, mode)
    case OpSetRegion(top, bottom) => SetRegion(s, top, bottom)
    case OpSetCapacity(capacity) => SetCapacity(s, capacity)
  }

  /** The meaning of one handler call. */
  function Step(s: Screen, op: Op): (t: Screen)
    requires Inv(s) && Legal(op, s.rows)
    ensures Follows(s, t)
  {
    if IsEdit(op) then EditStep(s, op) else StateStep(s, op)
  }

  predicate AllLegal(ops: seq<Op>, rows: nat) {
    forall i :: 0 <= i < |ops| ==> Legal(ops[i], rows)
  }

  /** A run: every reachable state satisfies the invariant. */
  function Run(s: Screen, ops: seq<Op>): (t: Screen)
    requires Inv(s) && AllLegal(ops, s.rows)
    ensures Follows(s, t)
    decreases |ops|
  {
    if ops == [] then s else Run(Step(s, ops[0]), ops[1..])
  }

  lemma RunOne(s: Screen, op: Op)
    requires Inv(s) && Legal(op, s.rows)
    ensures Run(s, [op]) == Step(s, op)
  {
    hide Inv, Step;
    assert Run(s, [op]) == Run(Step(s, op), []);
  }

  lemma StepIsPrint(s: Screen, c: Char)
    requires Inv(s) && c.width <= 2
    ensures Step(s, OpPrint(c, c)) == Print(s, c.ch, c.width)
  {
    hide Inv, Print;
  }

  /** A narrow character that fits changes its cell and the cursor. */
  lemma PrintsInRow(s: Screen, c: Char)
    requires Inv(s) && s.cursorCol < s.cols && !s.insertMode
    ensures Print(s, c.ch, 1)
            == s.(grid := s.grid[s.cursorRow := Row(s.grid[s.cursorRow].cells[s.cursorCol := Glyph(c.ch, 1, s.pen)],
                                                    s.grid[s.cursorRow].wrapped)],
                  cursorCol := s.cursorCol + 1)
  {
    hide Edits, LineFeed, EraseChars;
    assert WrapPending(s) == s && WrapWide(s, 1) == s && OpenGap(s, 1) == s;
  }

  lemma {:induction false} RunAppend(s: Screen, a: seq<Op>, b: seq<Op>)
    requires Inv(s) && AllLegal(a, s.rows) && AllLegal(b, s.rows)
    ensures AllLegal(a + b, s.rows)
    ensures Run(s, a + b) == Run(Run(s, a), b)
    decreases |a|
  {
    if a == [] {
      assert a + b == b;
    } else {
      assert (a + b)[1..] == a[1..] + b;
      RunAppend(Step(s, a[0]), a[1..], b);
    }
  }
}
