/** What each handler call does to every single cell, and to nothing else: the
    screen machine read back without its closed forms. */
module Effects {
  import opened Sequences
  import opened Cells
  import opened RowEdits
  import opened Regions
  import opened Screens

  function CellAt(s: Screen, row: nat, col: nat): Cell
    requires Inv(s) && row < s.rows && col < s.cols
  {
    s.grid[row].cells[col]
  }

  /** The cell an erasure with background `bg` leaves. */
  predicate IsErased(c: Cell, bg: Color) {
    c == Cell(' ', Default, bg, 0, false, false)
  }

  /** Nothing but the grid differs. */
  predicate OnlyGrid(s: Screen, t: Screen) {
    t == s.(grid := t.grid)
  }

  // ---- erasing -----------------------------------------------------------

  /** EL: from the cursor on, up to and including it, or its whole row; a cursor past
      the margin has nothing to its right and the whole row to its left. */
  lemma EraseInLine(s: Screen, row: nat, col: nat)
    requires Inv(s) && row < s.rows && col < s.cols
    ensures forall mode ::
              OnlyGrid(s, ClearLine(s, mode)) && ClearLine(s, mode).grid[row].wrapped == s.grid[row].wrapped
    ensures var here := row == s.cursorRow;
            && (if here && s.cursorCol <= col then IsErased(CellAt(ClearLine(s, Right), row, col), s.pen.bg)
                else CellAt(ClearLine(s, Right), row, col) == CellAt(s, row, col))
            && (if here && col <= s.cursorCol then IsErased(CellAt(ClearLine(s, Left), row, col), s.pen.bg)
                else CellAt(ClearLine(s, Left), row, col) == CellAt(s, row, col))
            && (if here then IsErased(CellAt(ClearLine(s, Whole), row, col), s.pen.bg)
                else CellAt(ClearLine(s, Whole), row, col) == CellAt(s, row, col))
  {
    hide Edits;
  }

  /** EL 1 and then EL 0 is EL 2. */
  lemma LeftThenRightIsWhole(s: Screen)
    requires Inv(s)
    ensures ClearLine(ClearLine(s, Left), Right) == ClearLine(s, Whole)
  {
    hide ClearLine, Edits, Inv;
    var t, u := ClearLine(ClearLine(s, Left), Right), ClearLine(s, Whole);
    ClearLineShape(s, Left);
    ClearLineShape(ClearLine(s, Left), Right);
    ClearLineShape(s, Whole);
    forall row | 0 <= row < s.rows ensures t.grid[row] == u.grid[row] {
      RowShape(t, row);
      RowShape(u, row);
      forall col | 0 <= col < s.cols ensures t.grid[row].cells[col] == u.grid[row].cells[col] {
        EraseInLine(s, row, col);
        EraseInLine(ClearLine(s, Left), row, col);
      }
      SameRow(s, row);
      SameRow(ClearLine(s, Left), row);
    }
  }

  lemma ClearLineShape(s: Screen, mode: LineMode)
    requires Inv(s)
    ensures OnlyGrid(s, ClearLine(s, mode)) && Inv(ClearLine(s, mode)) && |ClearLine(s, mode).grid| == s.rows
  {
    hide Edits;
  }

  lemma RowShape(s: Screen, row: nat)
    requires Inv(s) && row < s.rows
    ensures row < |s.grid| && |s.grid[row].cells| == s.cols
  {
  }

  lemma SameRow(s: Screen, row: nat)
    requires Inv(s) && row < s.rows
    ensures forall mode ::
              row < |ClearLine(s, mode).grid| && ClearLine(s, mode).grid[row].wrapped == s.grid[row].wrapped
  {
    hide Edits;
  }

  /** ED: everything from the cursor on, everything up to and including it, or all;
      the fourth mode leaves the screen and empties the history. */
  lemma EraseInDisplay(s: Screen, row: nat, col: nat)
    requires Inv(s) && row < s.rows && col < s.cols
    ensures forall mode :: mode != Saved ==> OnlyGrid(s, ClearScreen(s, mode))
    ensures var below := s.cursorRow < row || (row == s.cursorRow && s.cursorCol <= col);
            if below then IsErased(CellAt(ClearScreen(s, Below), row, col), s.pen.bg)
            else CellAt(ClearScreen(s, Below), row, col) == CellAt(s, row, col)
    ensures var above := row < s.cursorRow || (row == s.cursorRow && col <= s.cursorCol);
            if above then IsErased(CellAt(ClearScreen(s, Above), row, col), s.pen.bg)
            else CellAt(ClearScreen(s, Above), row, col) == CellAt(s, row, col)
    ensures IsErased(CellAt(ClearScreen(s, All), row, col), s.pen.bg)
    ensures ClearScreen(s, Saved) == s.(scrollback := [], log := [])
  {
    hide Edits, ClearLine;
    forall mode: LineMode ensures OnlyGrid(s, ClearLine(s, mode)) { ClearLineShape(s, mode); }
    EraseInLine(s, row, col);
    EraseAbove(s, row, col);
    BlankRowsAt(ClearLine(s, Right), s.cursorRow + 1, s.rows, row, col);
    BlankRowsAt(s, 0, s.rows, row, col);
  }

  lemma EraseAbove(s: Screen, row: nat, col: nat)
    requires Inv(s) && row < s.rows && col < s.cols
    ensures var t := ClearScreen(s, Above);
            && OnlyGrid(s, t)
            && if row < s.cursorRow || (row == s.cursorRow && col <= s.cursorCol)
               then IsErased(CellAt(t, row, col), s.pen.bg)
               else CellAt(t, row, col) == CellAt(s, row, col)
  {
    hide Edits, ClearLine;
    var b := BlankRows(s, 0, s.cursorRow);
    BlankRowsAt(s, 0, s.cursorRow, row, col);
    ClearLineShape(b, Left);
    EraseInLine(b, row, col);
  }

  lemma BlankRowsAt(s: Screen, from: nat, to: nat, row: nat, col: nat)
    requires Inv(s) && from <= to <= s.rows && row < s.rows && col < s.cols
    ensures OnlyGrid(s, BlankRows(s, from, to))
    ensures if from <= row < to then IsErased(CellAt(BlankRows(s, from, to), row, col), s.pen.bg)
            else CellAt(BlankRows(s, from, to), row, col) == CellAt(s, row, col)
  {
    hide Edits;
  }

  // ---- edits of the cursor's row -----------------------------------------

  /** ECH erases n cells from the cursor, ICH pushes them n to the right, DCH pulls
      the rest n to the left; no other row and no cell left of the cursor changes. */
  lemma EditInLine(s: Screen, n: nat, row: nat, col: nat)
    requires Inv(s) && row < s.rows && col < s.cols
    ensures OnlyGrid(s, EraseChars(s, n)) && OnlyGrid(s, InsertBlank(s, n)) && OnlyGrid(s, DeleteChars(s, n))
    ensures row != s.cursorRow || col < s.cursorCol ==>
              && CellAt(EraseChars(s, n), row, col) == CellAt(s, row, col)
              && CellAt(InsertBlank(s, n), row, col) == CellAt(s, row, col)
              && CellAt(DeleteChars(s, n), row, col) == CellAt(s, row, col)
    ensures row == s.cursorRow && s.cursorCol <= col ==>
              && (if col < s.cursorCol + n then IsErased(CellAt(EraseChars(s, n), row, col), s.pen.bg)
                  else CellAt(EraseChars(s, n), row, col) == CellAt(s, row, col))
              && (if col < s.cursorCol + n then IsErased(CellAt(InsertBlank(s, n), row, col), s.pen.bg)
                  else CellAt(InsertBlank(s, n), row, col) == CellAt(s, row, col - n))
              && (if s.cols <= col + n then IsErased(CellAt(DeleteChars(s, n), row, col), s.pen.bg)
                  else CellAt(DeleteChars(s, n), row, col) == CellAt(s, row, col + n))
  {
    hide Edits, InsertCells, DeleteCells;
    var cells := CursorCells(s);
    EditsKeepLeftOfCursor(cells, s.cursorCol, n, Erased(s.pen.bg));
    var left := Min(s.cursorCol, s.cols);
    if row == s.cursorRow && col < s.cursorCol {
      assert InsertCells(cells, s.cursorCol, n, Erased(s.pen.bg))[..left][col] == cells[..left][col];
      assert DeleteCells(cells, s.cursorCol, n, Erased(s.pen.bg))[..left][col] == cells[..left][col];
    }
    if row == s.cursorRow && s.cursorCol <= col {
      InsertCellsAt(cells, s.cursorCol, n, Erased(s.pen.bg), col);
      DeleteCellsAt(cells, s.cursorCol, n, Erased(s.pen.bg), col);
    }
  }

  /** What a row looks like after `c` was printed at `col`: the character in the current
      pen, the second half of a wide one beside it, and the rest, in insert mode moved
      right by its width, otherwise in place. */
  predicate PrintedRow(before: seq<Cell>, after: seq<Cell>, col: nat, c: Char, pen: Pen, insert: bool)
    requires |before| == |after|
  {
    forall j {:trigger after[j]} :: 0 <= j < |after| ==>
      after[j] == if j < col then before[j]
                  else if j == col then Cell(c.ch, pen.fg, pen.bg, pen.flags, c.width == 2, false)
                  else if j < col + c.width then Cell(' ', pen.fg, pen.bg, pen.flags, false, true)
                  else if insert then before[j - c.width]
                  else before[j]
  }

  /** Past the margin a character goes to the start of the next line, or with wrapping
      off onto the last column. */
  lemma PrintPastMargin(s: Screen, c: Char)
    requires Inv(s) && c.width <= 2 && s.cols <= s.cursorCol
    ensures s.modes.lineWrap ==> Print(s, c.ch, c.width) == Print(LineFeed(s.(cursorCol := 0)), c.ch, c.width)
    ensures !s.modes.lineWrap ==> Print(s, c.ch, c.width) == Print(s.(cursorCol := s.cols - 1), c.ch, c.width)
  {
    hide Edits, LineFeed, WrapWide, OpenGap, PutGlyph;
    if s.modes.lineWrap { LineFeedKeepsColumn(s.(cursorCol := 0)); }
  }

  lemma LineFeedKeepsColumn(s: Screen)
    requires Inv(s)
    ensures LineFeed(s).cursorCol == s.cursorCol && LineFeed(s).cols == s.cols
  {
    hide Edits;
  }

  /** A printed character that fits changes its row and the column; one of no width is
      drawn over what is there and does not move the cursor. */
  lemma PrintFits(s: Screen, c: Char)
    requires Inv(s) && c.width <= 2 && s.cursorCol + Max(c.width, 1) <= s.cols
    ensures var t := Print(s, c.ch, c.width);
            && t == s.(grid := t.grid, cursorCol := s.cursorCol + c.width)
            && (forall row :: 0 <= row < s.rows && row != s.cursorRow ==> t.grid[row] == s.grid[row])
            && PrintedRow(CursorCells(s), t.grid[s.cursorRow].cells, s.cursorCol, c, s.pen, s.insertMode)
  {
    hide Edits, LineFeed, EraseChars, OpenGap, PutGlyph, PrintedRow;
    assert WrapPending(s) == s && WrapWide(s, c.width) == s;
    GapRow(s, c.width);
    var gap := OpenGap(s, c.width);
    GlyphRow(gap, c);
    PrintedThroughGap(CursorCells(s), CursorCells(gap), CursorCells(PutGlyph(gap, c.ch, c.width)),
                      s.cursorCol, c, s.pen, s.insertMode);
  }

  predicate Gapped(before: seq<Cell>, gap: seq<Cell>, col: nat, width: nat)
    requires |before| == |gap|
  {
    forall j :: 0 <= j < |gap| ==> gap[j] == GapCell(before, col, width, j)
  }

  function GapCell(before: seq<Cell>, col: nat, width: nat, j: nat): Cell
    requires j < |before|
  {
    if j < col then before[j] else if j < col + width then DEFAULT_CELL else before[j - width]
  }

  /** The gap insert mode opens. */
  lemma GapRow(s: Screen, width: nat)
    requires Inv(s) && s.cursorCol + width <= s.cols && s.cursorCol < s.cols
    ensures var t := OpenGap(s, width);
            && Inv(t) && OnlyGrid(s, t)
            && (forall row :: 0 <= row < s.rows && row != s.cursorRow ==> t.grid[row] == s.grid[row])
            && (!s.insertMode ==> CursorCells(t) == CursorCells(s))
            && (s.insertMode ==> Gapped(CursorCells(s), CursorCells(t), s.cursorCol, width))
  {
    hide Edits, InsertCells;
    var cells := CursorCells(s);
    var gap := InsertCells(cells, s.cursorCol, width, DEFAULT_CELL);
    EditsKeepLeftOfCursor(cells, s.cursorCol, width, DEFAULT_CELL);
    forall j | 0 <= j < s.cols ensures gap[j] == GapCell(cells, s.cursorCol, width, j) {
      if j < s.cursorCol {
        assert gap[..s.cursorCol][j] == cells[..s.cursorCol][j];
      } else {
        InsertCellsAt(cells, s.cursorCol, width, DEFAULT_CELL, j);
      }
    }
    assert Gapped(cells, gap, s.cursorCol, width);
    assert s.insertMode ==> CursorCells(OpenGap(s, width)) == gap;
  }

  /** Writing the glyph itself overwrites in place. */
  lemma GlyphRow(s: Screen, c: Char)
    requires Inv(s) && c.width <= 2 && s.cursorCol + Max(c.width, 1) <= s.cols
    ensures var t := PutGlyph(s, c.ch, c.width);
            && Inv(t) && t == s.(grid := t.grid, cursorCol := s.cursorCol + c.width)
            && (forall row :: 0 <= row < s.rows && row != s.cursorRow ==> t.grid[row] == s.grid[row])
            && PrintedRow(CursorCells(s), CursorCells(t), s.cursorCol, c, s.pen, false)
  {
    hide Edits;
  }

  lemma PrintedThroughGap(
      before: seq<Cell>, gap: seq<Cell>, after: seq<Cell>, col: nat, c: Char, pen: Pen, insert: bool)
    requires |before| == |gap| == |after| && col + c.width <= |before|
    requires PrintedRow(gap, after, col, c, pen, false)
    requires !insert ==> gap == before
    requires insert ==> Gapped(before, gap, col, c.width)
    ensures PrintedRow(before, after, col, c, pen, insert)
  {
    if insert {
      forall j | 0 <= j < |after|
        ensures after[j] == if j < col then before[j]
                            else if j == col then Cell(c.ch, pen.fg, pen.bg, pen.flags, c.width == 2, false)
                            else if j < col + c.width then Cell(' ', pen.fg, pen.bg, pen.flags, false, true)
                            else before[j - c.width]
      {
        assert j < col || (col < j && col + c.width <= j) ==> after[j] == gap[j];
      }
    }
  }

  // ---- scrolling by one --------------------------------------------------

  /** Row `row` after the region moved down, or up, by one. */
  lemma RegionRows(s: Screen, row: nat)
    requires Inv(s) && row < s.rows
    ensures ScrollDown(s, 1).grid[row] ==
              if row < s.scrollTop || s.scrollBottom < row then s.grid[row]
              else if row == s.scrollTop then BlankRow(s.cols, s.pen.bg)
              else s.grid[row - 1]
    ensures ScrollUp(s, 1).grid[row] ==
              if row < s.scrollTop || s.scrollBottom < row then s.grid[row]
              else if row == s.scrollBottom then BlankRow(s.cols, s.pen.bg)
              else s.grid[row + 1]
    ensures OnlyGrid(s, ScrollDown(s, 1))
    ensures ScrollUp(s, 1).cursorRow == s.cursorRow && ScrollUp(s, 1).cursorCol == s.cursorCol
  {
    hide Edits, RegionUp, RegionDown, MovedOut, LastN;
    RegionsAt(s.grid, s.scrollTop, s.scrollBottom, 1, Blank(s), row);
  }

  /** A line feed moves down, a reverse index up, by one row; at the region's far edge
      the region moves instead, and at the screen's edge nothing does. */
  lemma IndexMoves(s: Screen)
    requires Inv(s)
    ensures LineFeed(s) == if s.cursorRow == s.scrollBottom then ScrollUp(s, 1)
                           else s.(cursorRow := Min(s.cursorRow + 1, s.rows - 1))
    ensures ReverseIndex(s) == if s.cursorRow == s.scrollTop then ScrollDown(s, 1)
                               else s.(cursorRow := Max(s.cursorRow - 1, 0))
  {
    hide Edits, ScrollUp, ScrollDown;
  }

  /** Away from the region's edges they undo each other. */
  lemma IndexesUndo(s: Screen)
    requires Inv(s)
    ensures 0 < s.cursorRow && s.cursorRow != s.scrollTop && s.cursorRow - 1 != s.scrollBottom ==>
              LineFeed(ReverseIndex(s)) == s
    ensures s.cursorRow < s.rows - 1 && s.cursorRow != s.scrollBottom && s.cursorRow + 1 != s.scrollTop ==>
              ReverseIndex(LineFeed(s)) == s
  {
    hide Edits, ScrollUp, ScrollDown;
  }

  // ---- moving ------------------------------------------------------------

  /** `r` is the number of `0..size - 1` nearest to `x`. */
  predicate Nearest(x: int, size: nat, r: nat) {
    r < size && forall y :: 0 <= y < size ==> Apart(x, r) <= Apart(x, y)
  }

  function Apart(a: int, b: int): int {
    if a <= b then b - a else a - b
  }

  /** The cursor is all that moves. */
  predicate MovedTo(s: Screen, t: Screen, row: nat, col: nat) {
    t == s.(cursorRow := row, cursorCol := col)
  }

  /** Every motion goes to the screen position nearest to the one asked for; landing on
      the second half of a wide character goes one further left. */
  lemma RowMotionsReachNearest(s: Screen, n: nat, line: int)
    requires Inv(s)
    ensures var t := MotionStep(s, OpMoveUp(n));
            MovedTo(s, t, t.cursorRow, s.cursorCol) && Nearest(s.cursorRow - n, s.rows, t.cursorRow)
    ensures var t := MotionStep(s, OpMoveDown(n));
            MovedTo(s, t, t.cursorRow, s.cursorCol) && Nearest(s.cursorRow + n, s.rows, t.cursorRow)
    ensures var t := MotionStep(s, OpGotoLine(line));
            MovedTo(s, t, t.cursorRow, s.cursorCol) && Nearest(line, s.rows, t.cursorRow)
    ensures MotionStep(s, OpMoveUpAndCr(n)) == MotionStep(s, OpMoveUp(n)).(cursorCol := 0)
    ensures MotionStep(s, OpMoveDownAndCr(n)) == MotionStep(s, OpMoveDown(n)).(cursorCol := 0)
  {
    hide Edits, Inv, Goto, PutTab, BackTab, Nearest;
    InvBounds(s);
    ClampIsNearest(s.cursorRow - n, s.rows);
    ClampIsNearest(s.cursorRow + n, s.rows);
    ClampIsNearest(line, s.rows);
  }

  lemma ColumnMotionsReachNearest(s: Screen, n: nat)
    requires Inv(s)
    ensures var t := MotionStep(s, OpMoveForward(n));
            MovedTo(s, t, s.cursorRow, t.cursorCol) && Nearest(s.cursorCol + n, s.cols, t.cursorCol)
    ensures var t := MotionStep(s, OpMoveBackward(n));
            MovedTo(s, t, s.cursorRow, t.cursorCol) && Nearest(s.cursorCol - n, s.cols + 2, t.cursorCol)
    ensures var t := MotionStep(s, OpGotoCol(n));
            MovedTo(s, t, s.cursorRow, t.cursorCol) && Nearest(n, s.cols, t.cursorCol)
    ensures MotionStep(s, OpBackspace) == MotionStep(s, OpMoveBackward(1))
    ensures MovedTo(s, MotionStep(s, OpCarriageReturn), s.cursorRow, 0)
  {
    hide Edits, Inv, Goto, PutTab, BackTab, Nearest;
    InvBounds(s);
    CursorBound(s);
    ClampIsNearest(s.cursorCol + n, s.cols);
    ClampIsNearest(s.cursorCol - n, s.cols + 2);
    ClampIsNearest(n, s.cols);
  }

  lemma ClampIsNearest(x: int, size: nat)
    requires size > 0
    ensures Nearest(x, size, Min(Max(x, 0), size - 1))
  {
  }

  lemma CursorBound(s: Screen)
    requires Inv(s)
    ensures s.cursorCol <= s.cols + 1
  {
  }

  lemma GotoReachesNearest(s: Screen, line: int, col: nat, there: nat)
    requires Inv(s) && Nearest(col, s.cols, there)
    ensures var t := MotionStep(s, OpGoto(line, col));
            && Nearest(line, s.rows, t.cursorRow)
            && MovedTo(s, t, t.cursorRow,
                       if CellAt(s, t.cursorRow, there).wideNext && there > 0 then there - 1 else there)
  {
    hide Edits;
    assert there == ClampCol(s, col) by {
      assert Apart(col, ClampCol(s, col)) >= Apart(col, there);
    }
  }

  /** A stop set at the cursor is where a tab from anywhere before it arrives, if no
      other stop comes first; a cleared one is not. */
  lemma TabReachesSetStop(s: Screen, col: nat)
    requires Inv(s) && col < s.cursorCol < s.cols
    requires forall k :: col < k < s.cursorCol ==> !s.tabStops[k]
    ensures PutTab(MarkStop(s, true).(cursorCol := col), 1).cursorCol == s.cursorCol
    ensures s.cursorCol < s.cols - 1 ==> PutTab(MarkStop(s, false).(cursorCol := col), 1).cursorCol > s.cursorCol
    ensures forall k :: 0 <= k < s.cols && k != s.cursorCol ==>
              MarkStop(s, true).tabStops[k] == s.tabStops[k] == MarkStop(s, false).tabStops[k]
  {
    hide Edits;
    var on, off := MarkStop(s, true), MarkStop(s, false);
    assert PutTab(on.(cursorCol := col), 1) == PutTab(on.(cursorCol := NextStop(on.tabStops, col)), 0);
    var c := NextStop(on.tabStops, col);
    assert on.tabStops[s.cursorCol] && forall k :: col < k < s.cursorCol ==> !on.tabStops[k];
    assert PutTab(off.(cursorCol := col), 1) == PutTab(off.(cursorCol := NextStop(off.tabStops, col)), 0);
  }

  /** Tab counts add up. */
  lemma {:induction false} TabsAdd(s: Screen, m: nat, n: nat)
    requires Inv(s)
    ensures PutTab(PutTab(s, m), n) == PutTab(s, m + n)
    decreases m
  {
    hide Edits, NextStop;
    if m > 0 {
      TabsAdd(s.(cursorCol := NextStop(s.tabStops, s.cursorCol)), m - 1, n);
    }
  }

  lemma {:induction false} BackTabsAdd(s: Screen, m: nat, n: nat)
    requires Inv(s)
    ensures BackTab(BackTab(s, m), n) == BackTab(s, m + n)
    decreases m
  {
    hide Edits, PreviousStop;
    if m > 0 {
      BackTabsAdd(s.(cursorCol := PreviousStop(s.tabStops, s.cursorCol)), m - 1, n);
    }
  }

  // ---- saved cursor, modes, character sets -------------------------------

  /** The calls that neither save, restore nor forget the saved cursor. */
  predicate KeepsSaved(op: Op) {
    !op.OpSaveCursor? && !op.OpReset?
    && op != OpSetPrivateMode(PrivateMode.AltScreen) && op != OpUnsetPrivateMode(PrivateMode.AltScreen)
  }

  lemma StepKeepsSaved(s: Screen, op: Op)
    requires Inv(s) && Legal(op, s.rows) && KeepsSaved(op)
    ensures Step(s, op).savedCursor == s.savedCursor
  {
    hide Inv, SetMouse, UnsetMouse, WithCharset, SwitchMode, StopsEvery, LastN;
    if IsEdit(op) {
      EditKeepsSaved(s, EditStep(s, op));
    }
  }

  lemma EditKeepsSaved(s: Screen, t: Screen)
    requires Edits(s, t)
    ensures t.savedCursor == s.savedCursor
  {
  }

  /** DECSC, anything that leaves the slot alone, DECRC: position, pen and character
      sets are those of the save, and restoring changes nothing else. */
  lemma {:induction false} RestoreReturnsToSave(s: Screen, ops: seq<Op>, t: Screen)
    requires Inv(s) && AllLegal(ops, s.rows) && (forall op :: op in ops ==> KeepsSaved(op))
    requires t == Run(SaveCursor(s), ops)
    ensures var r := RestoreCursor(t);
            && r.cursorRow == s.cursorRow && r.cursorCol == s.cursorCol && r.pen == s.pen && r.charsets == s.charsets
            && t == r.(cursorRow := t.cursorRow, cursorCol := t.cursorCol, pen := t.pen, charsets := t.charsets)
  {
    hide Run, Inv, Step;
    RunKeepsSaved(SaveCursor(s), ops);
  }

  lemma {:induction false} RunKeepsSaved(s: Screen, ops: seq<Op>)
    requires Inv(s) && AllLegal(ops, s.rows) && forall op :: op in ops ==> KeepsSaved(op)
    ensures Run(s, ops).savedCursor == s.savedCursor
    decreases |ops|
  {
    hide Inv, Step;
    if ops != [] {
      StepKeepsSaved(s, ops[0]);
      RunKeepsSaved(Step(s, ops[0]), ops[1..]);
    }
  }

  /** RIS gives a fresh terminal but for tab stops, history and marker state, and for
      the primary screen when it is parked. */
  lemma ResetIsFresh(s: Screen)
    requires Inv(s)
    ensures Reset(s) == Fresh(s.rows, s.cols).(
              tabStops := s.tabStops, scrollback := s.scrollback, log := s.log, capacity := s.capacity,
              exitCode := s.exitCode, exitDirty := s.exitDirty,
              altGrid := s.altGrid, usingAlt := s.usingAlt, switchState := s.switchState)
  {
  }

  /** A program that enters the alternate screen finds a blank one, scrolling whole,
      with the cursor at home and nothing saved; pen, modes and history are as before. */
  lemma AltScreenStartsBlank(s: Screen, row: nat, col: nat)
    requires Inv(s) && !s.usingAlt && row < s.rows && col < s.cols
    ensures var t := EnterAlt(s);
            && CellAt(t, row, col) == DEFAULT_CELL && !t.grid[row].wrapped
            && t.cursorRow == 0 && t.cursorCol == 0 && t.scrollTop == 0 && t.scrollBottom == s.rows - 1
            && t.savedCursor == None && t.usingAlt
            && t.pen == s.pen && t.charsets == s.charsets && t.modes == s.modes && t.mouse == s.mouse
            && t.insertMode == s.insertMode && t.tabStops == s.tabStops
            && t.scrollback == s.scrollback && t.log == s.log && t.capacity == s.capacity
  {
  }

  /** Whether a mode of the five is on. */
  function IsOn(m: Modes, mode: PrivateMode): bool {
    match mode
    case CursorKeys => m.cursorKeys
    case LineWrap => m.lineWrap
    case Origin => m.origin
    case ShowCursor => m.showCursor
    case BracketedPaste => m.bracketedPaste
    case _ => false
  }

  predicate IsScreenMode(mode: PrivateMode) {
    mode in {CursorKeys, LineWrap, Origin, ShowCursor, BracketedPaste}
  }

  /** Setting or resetting one of them switches that one and nothing else. */
  lemma ModesAreIndependent(s: Screen, mode: PrivateMode, other: PrivateMode)
    requires Inv(s) && IsScreenMode(mode) && IsScreenMode(other)
    ensures var t, u := SetPrivateMode(s, mode), UnsetPrivateMode(s, mode);
            && t == s.(modes := t.modes) && u == s.(modes := u.modes)
            && IsOn(t.modes, other) == (other == mode || IsOn(s.modes, other))
            && IsOn(u.modes, other) == (other != mode && IsOn(s.modes, other))
  {
    hide Inv, EnterAlt, LeaveAlt;
  }

  /** The mouse modes: clicks and encoding are switches of their own; turning a motion
      mode on turns reporting on, button motion replaces any motion; turning one off
      leaves reporting only if it was on and the other motion mode remains. */
  lemma MouseModes(m: Mouse)
    ensures SetMouse(m, MouseClicks) == Mouse(true, m.sgr, m.buttonMotion, m.anyMotion)
    ensures SetMouse(m, MouseSgr) == Mouse(m.reporting, true, m.buttonMotion, m.anyMotion)
    ensures SetMouse(m, MouseButtonMotion) == Mouse(true, m.sgr, true, false)
    ensures SetMouse(m, MouseAnyMotion) == Mouse(true, m.sgr, m.buttonMotion, true)
    ensures UnsetMouse(m, MouseClicks) == Mouse(false, m.sgr, m.buttonMotion, m.anyMotion)
    ensures UnsetMouse(m, MouseSgr) == Mouse(m.reporting, false, m.buttonMotion, m.anyMotion)
    ensures UnsetMouse(m, MouseButtonMotion) == Mouse(m.reporting && m.anyMotion, m.sgr, false, m.anyMotion)
    ensures UnsetMouse(m, MouseAnyMotion) == Mouse(m.reporting && m.buttonMotion, m.sgr, m.buttonMotion, false)
    ensures forall mode :: IsScreenMode(mode) ==> SetMouse(m, mode) == m == UnsetMouse(m, mode)
  {
  }

  /** A set designated to a slot is what characters are drawn in once the slot is
      active; the other slots keep theirs. */
  lemma DesignateThenShift(
      c: Charsets, index: CharsetIndex, charset: Charset, other: CharsetIndex, plain: Char, drawing: Char)
    ensures var d := WithCharset(c, index, charset);
            && d.active == c.active
            && ActiveCharset(d.(active := other))
               == (if other == index then charset else ActiveCharset(c.(active := other)))
            && Mapped(d.(active := index), plain, drawing) == if charset == LineDrawing then drawing else plain
  {
  }

  /** The region a valid request gives: exactly the rows numbered top to bottom. */
  lemma RegionHoldsRequestedRows(s: Screen, top: nat, bottom: nat, row: nat)
    requires Inv(s) && 1 <= top <= bottom && top <= s.rows && row < s.rows
    ensures var t := SetRegion(s, top, Some(bottom));
            && (t.scrollTop <= row <= t.scrollBottom <==> top <= row + 1 <= bottom)
            && t.cursorCol == 0 && t.cursorRow == (if s.modes.origin then t.scrollTop else 0)
            && t == s.(scrollTop := t.scrollTop, scrollBottom := t.scrollBottom,
                       cursorRow := t.cursorRow, cursorCol := 0)
    ensures var t := SetRegion(s, top, None); t.scrollTop <= row <= t.scrollBottom <==> top <= row + 1
  {
  }

  /** A capacity change keeps the latest rows that fit and is otherwise invisible. */
  lemma CapacityKeepsLatest(s: Screen, capacity: nat)
    requires Inv(s)
    ensures var t := SetCapacity(s, capacity);
            && t == s.(capacity := capacity, scrollback := t.scrollback)
            && |t.scrollback| == Min(|s.scrollback|, capacity) && IsSuffix(t.scrollback, s.scrollback)
  {
  }

  /** DECALN shows E in every cell, wearing what the cell wore. */
  lemma AlignmentShowsE(s: Screen, row: nat, col: nat)
    requires Inv(s) && row < s.rows && col < s.cols
    ensures var c, d := CellAt(s, row, col), CellAt(AlignmentTest(s), row, col);
            d == Cell('E', c.fg, c.bg, c.flags, c.wide, c.wideNext)
    ensures OnlyGrid(s, AlignmentTest(s)) && AlignmentTest(s).grid[row].wrapped == s.grid[row].wrapped
  {
    hide Edits;
  }

  // ---- the calls ---------------------------------------------------------

  /** A call does what its kind does. */
  lemma StepByKind(s: Screen, op: Op)
    requires Inv(s) && Legal(op, s.rows)
    ensures Step(s, op) == if IsMotion(op) then MotionStep(s, op) else if IsScroll(op) then ScrollStep(s, op)
                           else if IsErasure(op) then ErasureStep(s, op)
                           else if IsEdit(op) then EditStep(s, op) else StateStep(s, op)
  {
    hide Inv, Edits, MotionStep, ScrollStep, ErasureStep, StateStep;
  }

  /** And within its kind what its name says, so that what is proved of the effects is
      proved of the calls. */
  lemma ScrollCalls(s: Screen, n: nat)
    requires Inv(s)
    ensures ScrollStep(s, OpLineFeed) == LineFeed(s) && ScrollStep(s, OpReverseIndex) == ReverseIndex(s)
    ensures ScrollStep(s, OpNewLine) == LineFeed(MoveTo(s, s.cursorRow, 0))
    ensures ScrollStep(s, OpScrollUp(n)) == ScrollUp(s, n) && ScrollStep(s, OpScrollDown(n)) == ScrollDown(s, n)
    ensures ScrollStep(s, OpInsertLines(n)) == InsertLines(s, n) && ScrollStep(s, OpDeleteLines(n)) == DeleteLines(s, n)
  {
    hide Inv, LineFeed, ReverseIndex, ScrollUp, ScrollDown, InsertLines, DeleteLines, Edits;
  }

  lemma ErasureCalls(s: Screen, n: nat, line: LineMode, display: ScreenMode)
    requires Inv(s)
    ensures ErasureStep(s, OpEraseChars(n)) == EraseChars(s, n) && ErasureStep(s, OpAlignmentTest) == AlignmentTest(s)
    ensures ErasureStep(s, OpClearLine(line)) == ClearLine(s, line)
    ensures display != Saved ==> ErasureStep(s, OpClearScreen(display)) == ClearScreen(s, display)
  {
    hide Inv, EraseChars, AlignmentTest, ClearLine, ClearScreen, Edits;
  }

  lemma RowCalls(s: Screen, n: nat)
    requires Inv(s)
    ensures EditStep(s, OpInsertBlank(n)) == InsertBlank(s, n) && EditStep(s, OpDeleteChars(n)) == DeleteChars(s, n)
  {
    hide Inv, InsertBlank, DeleteChars, MotionStep, ScrollStep, ErasureStep, Edits;
  }

  lemma TabCalls(s: Screen, n: nat)
    requires Inv(s)
    ensures MotionStep(s, OpPutTab(n)) == PutTab(s, n) && MotionStep(s, OpBackTab(n)) == BackTab(s, n)
  {
    hide Inv, PutTab, BackTab, Edits;
  }

  lemma SlotCalls(s: Screen)
    requires Inv(s)
    ensures StateStep(s, OpSaveCursor) == SaveCursor(s) && StateStep(s, OpRestoreCursor) == RestoreCursor(s)
    ensures StateStep(s, OpReset) == Reset(s) && StateStep(s, OpClearScreen(Saved)) == s.(scrollback := [], log := [])
  {
    hide Inv, SaveCursor, RestoreCursor, Reset;
  }

  lemma ModeCalls(s: Screen, mode: PrivateMode)
    requires Inv(s)
    ensures StateStep(s, OpSetPrivateMode(mode)) == SetPrivateMode(s, mode)
    ensures StateStep(s, OpUnsetPrivateMode(mode)) == UnsetPrivateMode(s, mode)
  {
    hide Inv, SetPrivateMode, UnsetPrivateMode;
  }

  lemma StyleCalls(s: Screen, pen: Pen, index: CharsetIndex, charset: Charset, on: bool)
    requires Inv(s)
    ensures StateStep(s, OpSetPen(pen)) == s.(pen := pen) && StateStep(s, OpSetInsert(on)) == s.(insertMode := on)
    ensures StateStep(s, OpConfigureCharset(index, charset)) == s.(charsets := WithCharset(s.charsets, index, charset))
    ensures StateStep(s, OpSetActiveCharset(index)) == s.(charsets := s.charsets.(active := index))
  {
    hide Inv, WithCharset;
  }

  lemma StopCalls(s: Screen, n: nat)
    requires Inv(s)
    ensures StateStep(s, OpSetTabStop) == MarkStop(s, true) && StateStep(s, OpClearTabStop) == MarkStop(s, false)
    ensures StateStep(s, OpClearAllTabs) == s.(tabStops := Repeat(false, s.cols))
    ensures n > 0 ==> StateStep(s, OpSetTabs(n)) == s.(tabStops := StopsEvery(s.cols, n))
  {
    hide Inv, MarkStop, StopsEvery;
  }

  lemma SizeCalls(s: Screen, top: nat, bottom: Option<nat>, n: nat)
    requires Inv(s)
    ensures Legal(OpSetRegion(top, bottom), s.rows) ==>
              StateStep(s, OpSetRegion(top, bottom)) == SetRegion(s, top, bottom)
    ensures StateStep(s, OpSetCapacity(n)) == SetCapacity(s, n)
  {
    hide Inv, SetRegion, SetCapacity;
  }
}
