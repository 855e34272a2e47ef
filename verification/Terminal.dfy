/** The terminal as a mutable object. Every method is proved to change the state as
    the abstract screen machine says; the loops over rows and cells live in the
    modules whose closed forms they refine. */
module TerminalModel {
  import opened Sequences
  import opened Cells
  import opened RowEdits
  import opened Regions
  import opened Screens
  import opened AltScreen
  import opened History
  import opened Reflow
  import opened Markers

  class Terminal {
    var rows: nat
    var cols: nat
    var pixelWidth: nat
    var pixelHeight: nat
    var grid: seq<Row>
    var cursorRow: nat
    var cursorCol: nat
    var pen: Pen
    var charsets: Charsets
    var savedCursor: Option<Cursor>
    var switchState: Option<SwitchState>
    var scrollTop: nat
    var scrollBottom: nat
    var altGrid: Option<seq<Row>>
    var usingAlt: bool
    var scrollback: seq<Row>
    var capacity: nat
    var tabStops: seq<bool>
    var modes: Modes
    var insertMode: bool
    var mouse: Mouse
    var exitCode: Option<int>
    var exitDirty: bool
    ghost var log: seq<Row>  // every row pushed to scrollback since it was last cleared

    ghost function State(): Screen
      reads this
    {
      Screen(rows, cols, grid, cursorRow, cursorCol, pen, charsets, savedCursor, switchState,
             scrollTop, scrollBottom, altGrid, usingAlt, scrollback, capacity, log, tabStops,
             modes, insertMode, mouse, exitCode, exitDirty)
    }

    ghost predicate Valid()
      reads this
    {
      Inv(State())
    }

    constructor (rows: nat, cols: nat)
      ensures State() == Fresh(rows, cols)
    {
      this.rows, this.cols, pixelWidth, pixelHeight := rows, cols, 0, 0;
      grid := BlankGrid(rows, cols);
      cursorRow, cursorCol, pen, charsets := 0, 0, DEFAULT_PEN, DEFAULT_CHARSETS;
      savedCursor, switchState := None, None;
      scrollTop, scrollBottom := 0, Monus(rows, 1);
      altGrid, usingAlt := None, false;
      scrollback, capacity, log := [], DEFAULT_CAPACITY, [];
      tabStops := StopsEvery(cols, 8);
      modes, insertMode, mouse := DEFAULT_MODES, false, MOUSE_OFF;
      exitCode, exitDirty := None, false;
    }

    // ---- scrolling -------------------------------------------------------

    /** A row enters scrollback; past capacity the oldest one is evicted. */
    method Retire(row: Row)
      requires |scrollback| <= capacity
      modifies this`scrollback, this`log
      ensures log == old(log) + [row] && scrollback == LastN(old(scrollback) + [row], capacity)
      ensures |scrollback| <= capacity
    {
      scrollback := scrollback + [row];
      log := log + [row];
      if |scrollback| > capacity {
        scrollback := scrollback[1..];
      }
    }

    /** The top row goes to scrollback (or nowhere, on the alternate screen) and a
        blank sinks to the bottom. */
    method ScrollUpOnce(blank: Row)
      requires scrollTop <= scrollBottom < |grid| && |scrollback| <= capacity
      modifies this`grid, this`scrollback, this`log
      ensures grid == RegionUp(old(grid), scrollTop, scrollBottom, 1, blank)
      ensures |scrollback| <= capacity
      ensures usingAlt ==> log == old(log) && scrollback == old(scrollback)
      ensures !usingAlt ==>
        var moved := MovedOut(old(grid), scrollTop, scrollBottom, 1, blank);
        log == old(log) + moved && scrollback == LastN(old(scrollback) + moved, capacity)
    {
      var oldTop := grid[scrollTop];
      assert MovedOut(grid, scrollTop, scrollBottom, 1, blank) == [oldTop];
      if !usingAlt {
        Retire(oldTop);
      }
      grid := BubbleDown(grid, scrollTop, scrollBottom, blank);
    }

    method ScrollUp(count: nat)
      requires Valid()
      modifies this`grid, this`scrollback, this`log
      ensures State() == Screens.ScrollUp(old(State()), count)
      ensures Valid()
    {
      hide Inv, Edits, RegionUp, MovedOut, LastN;
      ghost var s := State();
      InvBounds(s);
      var blank := BlankRow(cols, pen.bg);
      ghost var top, bottom := scrollTop, scrollBottom;
      NoScroll(s, blank);
      for i := 0 to count
        invariant |grid| == |s.grid| && |scrollback| <= capacity
        invariant grid == RegionUp(s.grid, top, bottom, i, blank)
        invariant usingAlt ==> log == s.log && scrollback == s.scrollback
        invariant !usingAlt ==> log == s.log + MovedOut(s.grid, top, bottom, i, blank)
                                && scrollback == LastN(s.scrollback + MovedOut(s.grid, top, bottom, i, blank), capacity)
      {
        ghost var moved, next := MovedOut(s.grid, top, bottom, i, blank), MovedOut(grid, top, bottom, 1, blank);
        RegionUpAdd(s.grid, top, bottom, 1, i, blank);
        LastNTwice(s.scrollback + moved, next, capacity);
        Assoc(s.scrollback, moved, next);
        Assoc(s.log, moved, next);
        ScrollUpOnce(blank);
      }
    }

    method ScrollDown(count: nat)
      requires Valid()
      modifies this`grid
      ensures State() == Screens.ScrollDown(old(State()), count)
      ensures Valid()
    {
      ghost var s := State();
      var blank := BlankRow(cols, pen.bg);
      assert RegionDown(grid, scrollTop, scrollBottom, 0, blank) == grid;
      for i := 0 to count
        invariant |grid| == |s.grid|
        invariant grid == RegionDown(s.grid, scrollTop, scrollBottom, i, blank)
      {
        RegionDownAdd(s.grid, scrollTop, scrollBottom, 1, i, blank);
        grid := BubbleUp(grid, scrollTop, scrollBottom, blank);
      }
    }

    method LineFeed()
      requires Valid()
      modifies this`grid, this`scrollback, this`log, this`cursorRow
      ensures State() == Screens.LineFeed(old(State()))
      ensures Valid()
    {
      if cursorRow == scrollBottom {
        ScrollUp(1);
      } else if cursorRow < Monus(rows, 1) {
        cursorRow := cursorRow + 1;
      }
    }

    method ReverseIndex()
      requires Valid()
      modifies this`grid, this`cursorRow
      ensures State() == Screens.ReverseIndex(old(State()))
      ensures Valid()
    {
      if cursorRow == scrollTop {
        ScrollDown(1);
      } else if cursorRow > 0 {
        cursorRow := cursorRow - 1;
      }
    }

    method DeleteLines(count: nat)
      requires Valid()
      modifies this`grid
      ensures State() == Screens.DeleteLines(old(State()), count)
      ensures Valid()
    {
      if scrollTop <= cursorRow <= scrollBottom {
        grid := RemoveThenInsert(grid, cursorRow, scrollBottom, count, BlankRow(cols, pen.bg));
      }
    }

    method InsertLines(count: nat)
      requires Valid()
      modifies this`grid
      ensures State() == Screens.InsertLines(old(State()), count)
      ensures Valid()
    {
      if scrollTop <= cursorRow <= scrollBottom {
        grid := RemoveThenInsertAbove(grid, cursorRow, scrollBottom, count, BlankRow(cols, pen.bg));
      }
    }

    // ---- the cursor's row ------------------------------------------------

    method SetCells(cells: seq<Cell>)
      requires Valid() && |cells| == cols
      modifies this`grid
      ensures State() == WithCells(old(State()), cells)
      ensures Valid()
    {
      grid := grid[cursorRow := grid[cursorRow].(cells := cells)];
    }

    method InsertBlank(count: nat)
      requires Valid()
      modifies this`grid
      ensures State() == Screens.InsertBlank(old(State()), count)
      ensures Valid()
    {
      var cells := ShiftRight(grid[cursorRow].cells, cursorCol, count, Erased(pen.bg));
      SetCells(cells);
    }

    method DeleteChars(count: nat)
      requires Valid()
      modifies this`grid
      ensures State() == Screens.DeleteChars(old(State()), count)
      ensures Valid()
    {
      var cells := ShiftLeft(grid[cursorRow].cells, cursorCol, count, Erased(pen.bg));
      SetCells(cells);
    }

    method EraseChars(count: nat)
      requires Valid()
      modifies this`grid
      ensures State() == Screens.EraseChars(old(State()), count)
      ensures Valid()
    {
      var cells := EraseRun(grid[cursorRow].cells, cursorCol, count, Erased(pen.bg));
      SetCells(cells);
    }

    method ClearLine(mode: LineMode)
      requires Valid()
      modifies this`grid
      ensures State() == Screens.ClearLine(old(State()), mode)
      ensures Valid()
    {
      var from, to := 0, cols;
      match mode {
        case Right => from := cursorCol; to := Max(cursorCol, cols);
        case Left => to := Min(cursorCol, cols - 1) + 1;
        case Whole =>
      }
      var cells := EraseRun(grid[cursorRow].cells, from, to - from, Erased(pen.bg));
      SetCells(cells);
    }

    /** Blanks rows `[from, to)` one by one. */
    method BlankRows(from: nat, to: nat)
      requires Valid() && from <= to <= rows
      modifies this`grid
      ensures State() == Screens.BlankRows(old(State()), from, to)
      ensures Valid()
    {
      ghost var s := State();
      var blank := BlankRow(cols, pen.bg);
      for i := from to to
        invariant |grid| == rows
        invariant forall j :: 0 <= j < rows ==> grid[j] == if from <= j < i then blank else s.grid[j]
      {
        grid := grid[i := blank];
      }
      assert grid == Screens.BlankRows(s, from, to).grid;
    }

    method ClearScreen(mode: ScreenMode)
      requires Valid()
      modifies this`grid, this`scrollback, this`log
      ensures State() == Screens.ClearScreen(old(State()), mode)
      ensures Valid()
    {
      match mode {
        case Below =>
          ClearLine(Right);
          BlankRows(cursorRow + 1, rows);
        case Above =>
          BlankRows(0, cursorRow);
          ClearLine(Left);
        case All =>
          BlankRows(0, rows);
        case Saved =>
          scrollback := [];
          log := [];
      }
    }

    method AlignmentTest()
      requires Valid()
      modifies this`grid
      ensures State() == Screens.AlignmentTest(old(State()))
      ensures Valid()
    {
      ghost var s := State();
      ghost var goal := Screens.AlignmentTest(s).grid;
      for i := 0 to |grid|
        invariant |grid| == rows
        invariant forall j :: 0 <= j < i ==> grid[j] == goal[j]
        invariant forall j :: i <= j < rows ==> grid[j] == s.grid[j]
      {
        var cells := grid[i].cells;
        for k := 0 to |cells|
          invariant |cells| == cols
          invariant forall m :: 0 <= m < k ==> cells[m] == s.grid[i].cells[m].(character := 'E')
          invariant forall m :: k <= m < cols ==> cells[m] == s.grid[i].cells[m]
        {
          cells := cells[k := cells[k].(character := 'E')];
        }
        assert cells == goal[i].cells;
        grid := grid[i := grid[i].(cells := cells)];
      }
      assert grid == goal;
    }

    // ---- printing --------------------------------------------------------

    method WrapPending()
      requires Valid()
      modifies this`grid, this`scrollback, this`log, this`cursorRow, this`cursorCol
      ensures State() == Screens.WrapPending(old(State()))
      ensures Valid()
    {
      if cursorCol >= cols {
        if modes.lineWrap {
          cursorCol := 0;
          LineFeed();
        } else {
          cursorCol := cols - 1;
        }
      }
    }

    method WrapWide(width: nat)
      requires Valid() && cursorCol < cols
      modifies this`grid, this`scrollback, this`log, this`cursorRow, this`cursorCol
      ensures State() == Screens.WrapWide(old(State()), width)
      ensures Valid()
    {
      if width == 2 && cursorCol + 1 >= cols {
        EraseChars(1);
        if modes.lineWrap {
          cursorCol := 0;
          LineFeed();
        }
      }
    }

    /** Writes the glyph and, for a wide one that fits, its continuation cell. */
    method PutGlyph(ch: char, width: nat)
      requires Valid() && cursorCol < cols && width <= 2
      modifies this`grid, this`cursorCol
      ensures State() == Screens.PutGlyph(old(State()), ch, width)
      ensures Valid()
    {
      var cells := grid[cursorRow].cells;
      cells := cells[cursorCol := Glyph(ch, width, pen)];
      if width == 2 && cursorCol + 1 < cols {
        cells := cells[cursorCol + 1 := Continuation(pen)];
      }
      SetCells(cells);
      cursorCol := cursorCol + width;
    }

    /** Writes one character of known width. */
    method WriteChar(ch: char, width: nat)
      requires Valid() && width <= 2
      modifies this`grid, this`scrollback, this`log, this`cursorRow, this`cursorCol
      ensures State() == Print(old(State()), ch, width)
      ensures Valid()
    {
      WrapPending();
      WrapWide(width);
      if insertMode && cursorCol < cols {
        var cells := ShiftRight(grid[cursorRow].cells, cursorCol, width, DEFAULT_CELL);
        SetCells(cells);
      }
      PutGlyph(ch, width);
    }

    // ---- cursor motion and tabs ------------------------------------------

    method Goto(line: int, col: nat)
      requires Valid()
      modifies this`cursorRow, this`cursorCol
      ensures State() == Screens.Goto(old(State()), line, col)
      ensures Valid()
    {
      var row: int := if line < 0 then 0 else line;
      row := Min(row, Monus(rows, 1));
      var c := Min(col, Monus(cols, 1));
      if row < |grid| && c < |grid[row].cells| && grid[row].cells[c].wideNext {
        c := Monus(c, 1);
      }
      cursorRow, cursorCol := row, c;
    }

    method MoveCursor(row: int, col: nat)
      requires Valid() && col <= Max(cols, cursorCol)
      modifies this`cursorRow, this`cursorCol
      ensures State() == MoveTo(old(State()), ClampRow(old(State()), row), col)
      ensures Valid()
    {
      cursorRow, cursorCol := Min(Max(row, 0), Monus(rows, 1)), col;
    }

    method PutTab(count: nat)
      requires Valid()
      modifies this`cursorCol
      ensures State() == Screens.PutTab(old(State()), count)
      ensures Valid()
    {
      hide Inv, Edits;
      for i := 0 to count
        invariant Valid()
        invariant Screens.PutTab(State(), count - i) == Screens.PutTab(old(State()), count)
      {
        NextStopFollows(State());
        cursorCol := FindNextStop(tabStops, cursorCol);
      }
    }

    method BackTab(count: nat)
      requires Valid()
      modifies this`cursorCol
      ensures State() == Screens.BackTab(old(State()), count)
      ensures Valid()
    {
      hide Inv, Edits;
      for i := 0 to count
        invariant Valid()
        invariant Screens.BackTab(State(), count - i) == Screens.BackTab(old(State()), count)
      {
        PreviousStopFollows(State());
        cursorCol := FindPreviousStop(tabStops, cursorCol);
      }
    }

    method SetStop(on: bool)
      requires Valid()
      modifies this`tabStops
      ensures State() == MarkStop(old(State()), on)
      ensures Valid()
    {
      if cursorCol < |tabStops| {
        tabStops := tabStops[cursorCol := on];
      }
    }

    method ClearAllTabs()
      requires Valid()
      modifies this`tabStops
      ensures State() == WithStops(old(State()), Repeat(false, old(cols)))
      ensures Valid()
    {
      for i := 0 to |tabStops|
        invariant |tabStops| == cols
        invariant forall k :: 0 <= k < i ==> !tabStops[k]
      {
        tabStops := tabStops[i := false];
      }
      assert tabStops == Repeat(false, cols);
    }

    /** Steps through the columns by `interval`. */
    method SetTabs(interval: nat)
      requires Valid() && interval > 0
      modifies this`tabStops
      ensures State() == WithStops(old(State()), StopsEvery(old(cols), interval))
      ensures Valid()
    {
      tabStops := EveryNth(cols, interval);
    }

    // ---- saved state and modes -------------------------------------------

    method LoadCursor(c: Cursor)
      modifies this`cursorRow, this`cursorCol, this`pen, this`charsets
      ensures State() == WithCursor(old(State()), c)
    {
      cursorRow, cursorCol, pen, charsets := c.row, c.col, c.pen, c.charsets;
    }

    method LoadRegion(top: nat, bottom: nat, saved: Option<Cursor>)
      modifies this`scrollTop, this`scrollBottom, this`savedCursor
      ensures State() == old(State()).(scrollTop := top, scrollBottom := bottom, savedCursor := saved)
    {
      scrollTop, scrollBottom, savedCursor := top, bottom, saved;
    }

    /** Puts a screen on display, with another one parked behind it or none. */
    method Show(screen: seq<Row>, parked: Option<seq<Row>>, switch: Option<SwitchState>)
      modifies this`grid, this`altGrid, this`usingAlt, this`switchState
      ensures State() == old(State()).(grid := screen, altGrid := parked,
                                       usingAlt := parked.Some?, switchState := switch)
    {
      grid, altGrid, usingAlt, switchState := screen, parked, parked.Some?, switch;
    }

    method SaveCursor()
      requires Valid()
      modifies this`savedCursor
      ensures State() == Screens.SaveCursor(old(State()))
      ensures Valid()
    {
      savedCursor := Some(Cursor(cursorRow, cursorCol, pen, charsets));
    }

    method RestoreCursor()
      requires Valid()
      modifies this`cursorRow, this`cursorCol, this`pen, this`charsets
      ensures State() == Screens.RestoreCursor(old(State()))
      ensures Valid()
    {
      if savedCursor.Some? {
        LoadCursor(savedCursor.value);
      }
    }

    method SetStyle(pen: Pen, charsets: Charsets, insertMode: bool)
      requires Valid()
      modifies this`pen, this`charsets, this`insertMode
      ensures State() == WithStyle(old(State()), pen, charsets, insertMode)
      ensures Valid()
    {
      this.pen, this.charsets, this.insertMode := pen, charsets, insertMode;
    }

    method ResetState()
      requires Valid()
      modifies this`grid, this`cursorRow, this`cursorCol, this`pen, this`charsets, this`savedCursor,
               this`scrollTop, this`scrollBottom, this`modes, this`mouse, this`insertMode
      ensures State() == Reset(old(State()))
      ensures Valid()
    {
      hide Inv;
      InvBounds(State());
      grid := BlankGrid(rows, cols);
      LoadCursor(Cursor(0, 0, DEFAULT_PEN, DEFAULT_CHARSETS));
      LoadRegion(0, Monus(rows, 1), None);
      modes, mouse, insertMode := DEFAULT_MODES, MOUSE_OFF, false;
    }

    method SetPrivateMode(mode: PrivateMode)
      requires Valid()
      modifies this
      ensures State() == Screens.SetPrivateMode(old(State()), mode)
      ensures Valid()
    {
      match mode {
        case CursorKeys => modes := modes.(cursorKeys := true);
        case LineWrap => modes := modes.(lineWrap := true);
        case Origin => modes := modes.(origin := true);
        case ShowCursor => modes := modes.(showCursor := true);
        case BracketedPaste => modes := modes.(bracketedPaste := true);
        case MouseClicks => mouse := mouse.(reporting := true);
        case MouseButtonMotion => mouse := mouse.(reporting := true, buttonMotion := true, anyMotion := false);
        case MouseAnyMotion => mouse := mouse.(reporting := true, anyMotion := true);
        case MouseSgr => mouse := mouse.(sgr := true);
        case AltScreen => EnterAltScreen();
      }
    }

    method EnterAltScreen()
      requires Valid()
      modifies this
      ensures State() == EnterAlt(old(State()))
      ensures Valid()
    {
      hide Inv;
      InvBounds(State());
      if !usingAlt {
        var cursor := Cursor(cursorRow, cursorCol, pen, charsets);
        var switch := SwitchState(cursor, modes, scrollTop, scrollBottom, savedCursor);
        Show(BlankGrid(rows, cols), Some(grid), Some(switch));
        LoadCursor(Cursor(0, 0, pen, charsets));
        LoadRegion(0, Monus(rows, 1), None);
      }
    }

    method UnsetPrivateMode(mode: PrivateMode)
      requires Valid()
      modifies this
      ensures State() == Screens.UnsetPrivateMode(old(State()), mode)
      ensures Valid()
    {
      match mode {
        case CursorKeys => modes := modes.(cursorKeys := false);
        case LineWrap => modes := modes.(lineWrap := false);
        case Origin => modes := modes.(origin := false);
        case ShowCursor => modes := modes.(showCursor := false);
        case BracketedPaste => modes := modes.(bracketedPaste := false);
        case MouseClicks => mouse := mouse.(reporting := false);
        case MouseButtonMotion =>
          mouse := mouse.(buttonMotion := false);
          if !mouse.anyMotion { mouse := mouse.(reporting := false); }
        case MouseAnyMotion =>
          mouse := mouse.(anyMotion := false);
          if !mouse.buttonMotion { mouse := mouse.(reporting := false); }
        case MouseSgr => mouse := mouse.(sgr := false);
        case AltScreen => LeaveAltScreen();
      }
    }

    method LeaveAltScreen()
      requires Valid()
      modifies this
      ensures State() == LeaveAlt(old(State()))
      ensures Valid()
    {
      hide Inv;
      InvBounds(State());
      if usingAlt {
        var w := switchState.value;
        Show(altGrid.value, None, None);
        LoadCursor(w.cursor);
        LoadRegion(w.scrollTop, w.scrollBottom, w.savedCursor);
        modes := w.modes;
      }
    }

    method SetScrollingRegion(top: nat, bottom: Option<nat>)
      requires Valid()
      modifies this`scrollTop, this`scrollBottom, this`savedCursor, this`cursorRow, this`cursorCol
      ensures State() == SetRegion(old(State()), top, bottom)
      ensures Valid() <==> Legal(OpSetRegion(top, bottom), rows)
    {
      hide Inv;
      SetRegionKeepsInvariantIff(State(), top, bottom);
      var last := match bottom case Some(b) => Min(Monus(b, 1), Monus(rows, 1)) case None => Monus(rows, 1);
      LoadRegion(Monus(top, 1), last, savedCursor);
      cursorRow, cursorCol := if modes.origin then scrollTop else 0, 0;
    }

    method SetScrollbackCapacity(capacity: nat)
      requires Valid()
      modifies this`capacity, this`scrollback
      ensures State() == SetCapacity(old(State()), capacity)
      ensures Valid()
    {
      this.capacity := capacity;
      if |scrollback| > capacity {
        scrollback := scrollback[|scrollback| - capacity..];
      }
    }

    // ---- dispatch --------------------------------------------------------

    /** A character of input, drawn as the active character set shows it. */
    method Input(plain: Char, drawing: Char)
      requires Valid() && plain.width <= 2 && drawing.width <= 2
      modifies this
      ensures var c := Mapped(old(charsets), plain, drawing);
              State() == Print(old(State()), c.ch, c.width)
      ensures Valid()
    {
      var c := if ActiveCharset(charsets) == LineDrawing then drawing else plain;
      WriteChar(c.ch, c.width);
    }

    /** One handler call of the parser. */
    method Handle(op: Op)
      requires Valid() && Legal(op, rows)
      modifies this
      ensures State() == Step(old(State()), op)
      ensures Valid()
    {
      if IsEdit(op) {
        HandleEdit(op);
      } else {
        HandleState(op);
      }
    }

    method HandleEdit(op: Op)
      requires Valid() && Legal(op, rows) && IsEdit(op)
      modifies this
      ensures State() == EditStep(old(State()), op)
      ensures Valid()
    {
      hide Inv;
      if IsMotion(op) {
        HandleMotion(op);
      } else if IsScroll(op) {
        HandleScroll(op);
      } else if IsErasure(op) {
        HandleErasure(op);
      } else {
        match op {
          case OpPrint(plain, drawing) => Input(plain, drawing);
          case OpInsertBlank(n) => InsertBlank(n);
          case OpDeleteChars(n) => DeleteChars(n);
        }
      }
    }

    method HandleMotion(op: Op)
      requires Valid() && IsMotion(op)
      modifies this`cursorRow, this`cursorCol
      ensures State() == MotionStep(old(State()), op)
      ensures Valid()
    {
      match op {
        case OpGoto(line, col) => Goto(line, col);
        case OpGotoLine(line) => MoveCursor(line, cursorCol);
        case OpGotoCol(col) => MoveCursor(cursorRow, Min(col, Monus(cols, 1)));
        case OpMoveUp(n) => MoveCursor(Monus(cursorRow, n), cursorCol);
        case OpMoveDown(n) => MoveCursor(cursorRow + n, cursorCol);
        case OpMoveForward(n) => MoveCursor(cursorRow, Min(cursorCol + n, Monus(cols, 1)));
        case OpMoveBackward(n) => MoveCursor(cursorRow, Monus(cursorCol, n));
        case OpMoveDownAndCr(n) => MoveCursor(cursorRow + n, 0);
        case OpMoveUpAndCr(n) => MoveCursor(Monus(cursorRow, n), 0);
        case OpPutTab(n) => PutTab(n);
        case OpBackTab(n) => BackTab(n);
        case OpBackspace => MoveCursor(cursorRow, Monus(cursorCol, 1));
        case OpCarriageReturn => MoveCursor(cursorRow, 0);
      }
    }

    method HandleScroll(op: Op)
      requires Valid() && IsScroll(op)
      modifies this
      ensures State() == ScrollStep(old(State()), op)
      ensures Valid()
    {
      match op {
        case OpLineFeed => LineFeed();
        case OpNewLine => MoveCursor(cursorRow, 0); LineFeed();
        case OpReverseIndex => ReverseIndex();
        case OpScrollUp(n) => ScrollUp(n);
        case OpScrollDown(n) => ScrollDown(n);
        case OpInsertLines(n) => InsertLines(n);
        case OpDeleteLines(n) => DeleteLines(n);
      }
    }

    method HandleErasure(op: Op)
      requires Valid() && IsErasure(op)
      modifies this
      ensures State() == ErasureStep(old(State()), op)
      ensures Valid()
    {
      match op {
        case OpEraseChars(n) => EraseChars(n);
        case OpClearLine(mode) => ClearLine(mode);
        case OpClearScreen(mode) => ClearScreen(mode);
        case OpAlignmentTest => AlignmentTest();
      }
    }

    method HandleState(op: Op)
      requires Valid() && Legal(op, rows) && !IsEdit(op)
      modifies this
      ensures State() == StateStep(old(State()), op)
      ensures Valid()
    {
      match op {
        case OpSetTabStop => SetStop(true);
        case OpClearTabStop => SetStop(false);
        case OpClearAllTabs => ClearAllTabs();
        case OpSetTabs(interval) => SetTabs(interval);
        case OpClearScreen(mode) => ClearScreen(mode);
        case OpSaveCursor => SaveCursor();
        case OpRestoreCursor => RestoreCursor();
        case OpReset => ResetState();
        case OpSetPen(p) => SetStyle(p, charsets, insertMode);
        case OpConfigureCharset(index, charset) => SetStyle(pen, WithCharset(charsets, index, charset), insertMode);
        case OpSetActiveCharset(index) => SetStyle(pen, charsets.(active := index), insertMode);
        case OpSetInsert(on) => SetStyle(pen, charsets, on);
        case OpSetPrivateMode(mode) => SetPrivateMode(mode);
        case OpUnsetPrivateMode(mode) => UnsetPrivateMode(mode);
        case OpSetRegion(top, bottom) => SetScrollingRegion(top, bottom);
        case OpSetCapacity(n) => SetScrollbackCapacity(n);
      }
    }

    method HandleAll(ops: seq<Op>)
      requires Valid() && AllLegal(ops, rows)
      modifies this
      ensures State() == Run(old(State()), ops)
      ensures Valid()
    {
      ghost var s := State();
      for i := 0 to |ops|
        invariant Valid() && rows == s.rows
        invariant State() == Run(s, ops[..i])
      {
        assert ops[..i + 1] == ops[..i] + [ops[i]];
        RunAppend(s, ops[..i], [ops[i]]);
        RunOne(State(), ops[i]);
        Handle(ops[i]);
      }
      assert ops[..|ops|] == ops;
    }

    // ---- segmented processing --------------------------------------------

    method ClearStaleMouseModes()
      requires Valid()
      modifies this`mouse
      ensures State() == old(State()).(mouse := MOUSE_OFF)
      ensures Valid()
    {
      if mouse.reporting || mouse.buttonMotion || mouse.anyMotion || mouse.sgr {
        mouse := Mouse(false, false, false, false);
      }
    }

    /** A marker records its exit code and proves that mouse tracking is stale. */
    method NoteMarker(code: Option<int>)
      requires Valid()
      modifies this`exitCode, this`exitDirty, this`mouse
      ensures State() == AfterMarker(old(State()), code)
      ensures Valid()
    {
      if code.Some? {
        exitCode, exitDirty := code, true;
      }
      ClearStaleMouseModes();
    }

    /** Feeds a buffer to the parser in segments cut after each marker. */
    method Process<P>(data: seq<Byte>, parser: P, vte: Vte<P>) returns (next: P)
      requires Valid() && Serves(parser, Segments(data), vte, rows)
      modifies this
      ensures (State(), next) == Feed(old(State()), parser, Segments(data), vte)
      ensures Valid()
    {
      hide Inv, Run, Feed, Segments, FirstMarker, MarkerEnd, MarkerAt, ExitCode, AfterMarker, Serves;
      next := parser;
      var pos := 0;
      ghost var rest := data;
      var marker := FindExitCodeMarker(data);
      MarkerFound(data, marker);
      while marker.Some?
        invariant Valid() && rows == old(rows)
        invariant pos <= |data| && rest == data[pos..]
        invariant marker == FoundMarker(rest)
        invariant Serves(next, Segments(rest), vte, rows)
        invariant Feed(State(), next, Segments(rest), vte) == Feed(old(State()), parser, Segments(data), vte)
        decreases |data| - pos
      {
        var end := pos + marker.value.end;
        FeedHead(State(), next, rest, vte);
        assert data[pos..end] == rest[..marker.value.end] && data[end..] == rest[marker.value.end..];
        var (p, ops) := vte(next, data[pos..end]);
        HandleAll(ops);
        NoteMarker(marker.value.exitCode);
        next, pos := p, end;
        rest := data[pos..];
        marker := FindExitCodeMarker(data[pos..]);
        MarkerFound(rest, marker);
      }
      FeedLast(State(), next, rest, vte);
      var (p, ops) := vte(next, data[pos..]);
      HandleAll(ops);
      next := p;
    }

    // ---- resize and views ------------------------------------------------

    method ResizeTo(newCols: nat, newRows: nat, newPixelWidth: nat, newPixelHeight: nat)
      requires newCols > 0
      modifies this
      ensures State() == if newCols == old(cols) && newRows == old(rows)
                            && newPixelWidth == old(pixelWidth) && newPixelHeight == old(pixelHeight)
                         then old(State()) else Resize(old(State()), newCols, newRows)
    {
      hide Resize;
      if newCols == cols && newRows == rows && newPixelWidth == pixelWidth && newPixelHeight == pixelHeight {
        return;
      }
      Reflow(newCols, newRows);
      pixelWidth, pixelHeight := newPixelWidth, newPixelHeight;
    }

    method Reflow(newCols: nat, newRows: nat)
      requires newCols > 0
      modifies this
      ensures State() == Resize(old(State()), newCols, newRows)
    {
      hide Refill, LinesOf, StopsEvery;
      var lines := CollectLines(grid);
      var newGrid, overflow := Rewrap(lines, newRows, newCols);
      ghost var r := Refill(LinesOf(grid), newRows, newCols);
      assert newGrid == r.grid && overflow == r.overflow;
      Replace(newGrid, newCols, newRows);
      PushOverflow(overflow);
      LoadRegion(0, Monus(newRows, 1), savedCursor);
      var row := if cursorRow >= newRows then Monus(newRows, 1) else cursorRow;
      var col := if cursorCol >= newCols then Monus(newCols, 1) else cursorCol;
      LoadCursor(Cursor(row, col, pen, charsets));
      tabStops := EveryNth(newCols, 8);
    }

    /** Installs a grid of another size. */
    method Replace(newGrid: seq<Row>, newCols: nat, newRows: nat)
      modifies this`grid, this`cols, this`rows
      ensures State() == old(State()).(grid := newGrid, cols := newCols, rows := newRows)
    {
      grid, cols, rows := newGrid, newCols, newRows;
    }

    /** Overflow is pushed without eviction. */
    method PushOverflow(overflow: seq<Row>)
      modifies this`scrollback, this`log
      ensures State() == old(State()).(scrollback := old(scrollback) + overflow, log := old(log) + overflow)
    {
      scrollback := scrollback + overflow;
      log := log + overflow;
    }

    method RenderWithScroll(offset: nat) returns (view: View)
      requires Valid()
      ensures view == ScrolledView(State(), offset)
    {
      var len := |scrollback|;
      var shown := grid;
      if offset > 0 && len > 0 {
        var shift := Min(offset, len);
        var available := Min(shift, rows);
        var from := Monus(len, shift);
        shown := scrollback[from..from + available];
        shown := shown + grid[..rows - |shown|];
        assert shown == AllRows(State())[from..from + rows];
      } else {
        assert grid == AllRows(State())[len..len + rows];
      }
      var row, visible := 0, false;
      if offset == 0 {
        row, visible := cursorRow, modes.showCursor;
      }
      var start := if offset > 0 && len > 0 then len - Min(offset, len) + 1 else len + 1;
      view := View(shown, row, cursorCol, visible, start);
    }

    method RenderEverything() returns (view: seq<Row>)
      ensures view == RenderAll(State())
    {
      if usingAlt {
        return grid;
      }
      view := scrollback;
      view := view + grid;
    }
  }

  lemma NoScroll(s: Screen, blank: Row)
    requires Inv(s)
    ensures RegionUp(s.grid, s.scrollTop, s.scrollBottom, 0, blank) == s.grid
    ensures var none := MovedOut(s.grid, s.scrollTop, s.scrollBottom, 0, blank);
            s.log + none == s.log && LastN(s.scrollback + none, s.capacity) == s.scrollback
    ensures s.log + [] == s.log && LastN(s.scrollback + [], s.capacity) == s.scrollback
  {
    assert s.scrollback + [] == s.scrollback;
  }

  method FindNextStop(stops: seq<bool>, col: nat) returns (c: nat)
    requires 0 < |stops|
    ensures c == NextStop(stops, col)
  {
    c := col + 1;
    while c < |stops| && !stops[c]
      invariant col < c
      invariant NextStop(stops, col) == NextStop(stops, c - 1)
      decreases |stops| - c
    {
      c := c + 1;
    }
    if c >= |stops| {
      c := |stops| - 1;
    }
  }

  method FindPreviousStop(stops: seq<bool>, col: nat) returns (c: nat)
    ensures c == PreviousStop(stops, col)
  {
    c := col;
    while c > 0 && !(c - 1 < |stops| && stops[c - 1])
      invariant c <= col
      invariant PreviousStop(stops, col) == PreviousStop(stops, c)
    {
      c := c - 1;
    }
    if c > 0 {
      c := c - 1;
    }
  }

  lemma NextStopFollows(s: Screen)
    requires Inv(s)
    ensures 0 < |s.tabStops| && Inv(s.(cursorCol := NextStop(s.tabStops, s.cursorCol)))
  {
  }

  lemma PreviousStopFollows(s: Screen)
    requires Inv(s)
    ensures Inv(s.(cursorCol := PreviousStop(s.tabStops, s.cursorCol)))
  {
  }

  /** Column 0 and every `interval`-th column after it are stops. */
  method EveryNth(cols: nat, interval: nat) returns (stops: seq<bool>)
    requires interval > 0
    ensures stops == StopsEvery(cols, interval)
  {
    stops := Repeat(false, cols);
    var i := 0;
    ghost var k := 0;
    while i < cols
      invariant |stops| == cols && i == k * interval
      invariant forall c :: 0 <= c < cols ==> stops[c] == (c < i && c % interval == 0)
    {
      forall c | i <= c < i + interval ensures c % interval == c - i {
        ModOf(k, interval, c - i);
      }
      stops := stops[i := true];
      i := i + interval;
      k := k + 1;
    }
  }

  lemma AtLeastOne(d: int, n: nat)
    requires d >= 1
    ensures d * n >= n
  {
  }

  lemma ModOf(q: nat, n: nat, r: nat)
    requires r < n
    ensures (q * n + r) % n == r
  {
    var x := q * n + r;
    var d := q - x / n;
    assert d * n == x % n - r;
    if d != 0 {
      AtLeastOne(if d > 0 then d else -d, n);
    }
  }

  /** What the scanner returns. */
  ghost function FoundMarker(data: seq<Byte>): Option<ExitCodeMarker> {
    match FirstMarker(data, 0)
    case None => None
    case Some(p) => Some(ExitCodeMarker(MarkerEnd(data, p), ExitCode(data, p)))
  }

  lemma MarkerFound(data: seq<Byte>, m: Option<ExitCodeMarker>)
    requires m.None? <==> forall q :: !MarkerAt(data, q)
    requires m.Some? ==> FirstMarker(data, 0).Some? &&
                         var p := FirstMarker(data, 0).value;
                         m.value == ExitCodeMarker(MarkerEnd(data, p), ExitCode(data, p))
    ensures m == FoundMarker(data)
  {
  }

  lemma FeedHead<P>(s: Screen, p: P, data: seq<Byte>, vte: Vte<P>)
    requires Inv(s) && Serves(p, Segments(data), vte, s.rows) && FoundMarker(data).Some?
    ensures var m := FoundMarker(data).value;
            && 0 < m.end <= |data|
            && var (q, ops) := vte(p, data[..m.end]);
               && AllLegal(ops, s.rows)
               && Serves(q, Segments(data[m.end..]), vte, s.rows)
               && Feed(s, p, Segments(data), vte)
                  == Feed(AfterMarker(Run(s, ops), m.exitCode), q, Segments(data[m.end..]), vte)
  {
    hide Inv, Run, MarkerAt, ExitCode, MarkerEnd;
    var m := FoundMarker(data).value;
    var first := Segment(data[..m.end], Some(m.exitCode));
    assert Segments(data) == [first] + Segments(data[m.end..]);
    assert ([first] + Segments(data[m.end..]))[1..] == Segments(data[m.end..]);
  }

  lemma FeedLast<P>(s: Screen, p: P, data: seq<Byte>, vte: Vte<P>)
    requires Inv(s) && Serves(p, Segments(data), vte, s.rows) && FoundMarker(data).None?
    ensures var r := vte(p, data);
            AllLegal(r.1, s.rows) && Feed(s, p, Segments(data), vte) == (Run(s, r.1), r.0)
  {
    hide Inv, Run;
    assert Segments(data)[1..] == [];
  }
}
