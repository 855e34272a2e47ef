/** Line insertion and deletion as scrolling of the rows from the cursor down to
    the bottom of the region. */
module LineEdits {
  import opened Sequences
  import opened Cells
  import opened Regions
  import opened Screens

  /** The same screen with its region starting at the cursor's row. */
  function FromCursor(s: Screen): Screen {
    s.(scrollTop := s.cursorRow)
  }

  /** DL n is SU n on the rows from the cursor, without feeding history. */
  lemma DeleteLinesIsRegionScroll(s: Screen, n: nat)
    requires Inv(s) && CursorInRegion(s)
    ensures Inv(FromCursor(s))
    ensures DeleteLines(s, n)
            == ScrollUp(FromCursor(s), n).(scrollTop := s.scrollTop, scrollback := s.scrollback, log := s.log)
  {
  }

  /** IL n is SD n on the rows from the cursor, except on a region ending at row 0,
      where the code does nothing: there they agree only when nothing was to be
      inserted or row 0 is already blank. */
  lemma InsertLinesIsRegionScrollIff(s: Screen, n: nat)
    requires Inv(s) && CursorInRegion(s)
    ensures Inv(FromCursor(s))
    ensures InsertLines(s, n) == ScrollDown(FromCursor(s), n).(scrollTop := s.scrollTop)
            <==> s.scrollBottom > 0 || n == 0 || s.grid[0] == Blank(s)
  {
    var scrolled := ScrollDown(FromCursor(s), n).(scrollTop := s.scrollTop);
    if s.scrollBottom == 0 {
      RegionsAt(s.grid, 0, 0, n, Blank(s), 0);
      assert scrolled.grid == s.grid[0 := if n == 0 then s.grid[0] else Blank(s)] by {
        forall j | 0 <= j < |s.grid|
          ensures scrolled.grid[j] == s.grid[0 := if n == 0 then s.grid[0] else Blank(s)][j]
        {
          RegionsAt(s.grid, 0, 0, n, Blank(s), j);
        }
      }
      assert InsertLines(s, n) == s;
      assert scrolled == s.(grid := scrolled.grid);
      assert scrolled.grid[0] == if n == 0 then s.grid[0] else Blank(s);
    }
  }

  /** A run that gets there: text on row 0, then a region of that row alone. */
  lemma InsertLinesIgnoresOneRowRegion(start: Screen, c: Char, s: Screen)
    requires start == Fresh(2, 1) && c.width == 1 && c.ch != ' '
    requires s == Run(start, [OpPrint(c, c)] + [OpSetRegion(1, Some(1))])
    ensures Inv(s) && CursorInRegion(s) && InsertLines(s, 1) == s
    ensures InsertLines(s, 1) != ScrollDown(FromCursor(s), 1).(scrollTop := s.scrollTop)
  {
    hide Inv, Step, Run, Print, Fresh, SetRegion;
    FreshIsOk(start);
    RunAppend(start, [OpPrint(c, c)], [OpSetRegion(1, Some(1))]);
    RunOne(start, OpPrint(c, c));
    StepIsPrint(start, c);
    var printed := Print(start, c.ch, 1);
    RunOne(printed, OpSetRegion(1, Some(1)));
    StepIsSetRegion(printed);
    PrintOnFresh(start, c, printed);
    OneRowRegion(printed, s);
    InsertLinesIsRegionScrollIff(s, 1);
  }

  lemma FreshIsOk(start: Screen)
    requires start == Fresh(2, 1)
    ensures Inv(start) && start.rows == 2
  {
  }

  lemma OneRowRegion(printed: Screen, s: Screen)
    requires Inv(printed) && s == SetRegion(printed, 1, Some(1)) && Inv(s)
    requires !printed.modes.origin && printed.cols == 1 && printed.grid[0].cells[0].character != ' '
    ensures s.cursorRow == s.scrollTop == s.scrollBottom == 0 && s.grid[0] != Blank(s) && InsertLines(s, 1) == s
  {
    assert Blank(s).cells[0].character == ' ';
  }

  lemma PrintOnFresh(start: Screen, c: Char, t: Screen)
    requires start == Fresh(2, 1) && Inv(start) && c.width == 1 && t == Print(start, c.ch, 1)
    ensures t.cols == 1 && !t.modes.origin && t.grid[0].cells[0].character == c.ch
  {
    hide Print, StopsEvery, Edits;
    PrintsInRow(start, c);
  }

  lemma StepIsSetRegion(s: Screen)
    requires Inv(s)
    ensures Step(s, OpSetRegion(1, Some(1))) == SetRegion(s, 1, Some(1))
  {
    hide Inv, SetRegion;
  }

  /** Deleting lines right after inserting them restores every row except those
      that insertion pushed past the bottom, which come back blank. */
  lemma DeleteLinesUndoesInsertLines(s: Screen, n: nat)
    requires Inv(s) && CursorInRegion(s) && s.scrollBottom > 0
    ensures var k := Min(n, s.scrollBottom + 1 - s.cursorRow);
            DeleteLines(InsertLines(s, n), n)
            == s.(grid := s.grid[..s.scrollBottom + 1 - k] + Repeat(Blank(s), k) + s.grid[s.scrollBottom + 1..])
  {
    UpUndoesDown(s.grid, s.cursorRow, s.scrollBottom, n, Blank(s));
  }
}
