/** Scrollback as a sliding window over the rows scrolled off, and the views of it. */
module History {
  import opened Sequences
  import opened Cells
  import opened Regions
  import opened Screens

  /** Scrolling the primary screen loses no row: history followed by the region is
      what it was, with blanks added at the end. */
  lemma ScrollUpConservesRows(s: Screen, n: nat)
    requires Inv(s) && !s.usingAlt
    ensures var t := ScrollUp(s, n);
            var top, end := s.scrollTop, s.scrollBottom + 1;
            && t.log + t.grid[top..end] == s.log + s.grid[top..end] + Repeat(Blank(s), n)
            && t.grid[..top] == s.grid[..top] && t.grid[end..] == s.grid[end..]
  {
    RegionUpConserves(s.grid, s.scrollTop, s.scrollBottom, n, Blank(s));
    var moved := MovedOut(s.grid, s.scrollTop, s.scrollBottom, n, Blank(s));
    var t := ScrollUp(s, n);
    assert t.log == s.log + moved && t.grid == RegionUp(s.grid, s.scrollTop, s.scrollBottom, n, Blank(s)) by {
      hide Follows, Edits, Inv;
    }
    hide *;
    assert s.log + moved + t.grid[s.scrollTop..s.scrollBottom + 1]
        == s.log + (moved + t.grid[s.scrollTop..s.scrollBottom + 1]);
  }

  lemma StepKeepsWindow(s: Screen, op: Op)
    requires Inv(s) && Window(s) && Legal(op, s.rows) && !op.OpSetCapacity?
    ensures Window(Step(s, op))
  {
    hide Inv, EditStep, StateStep, Edits, LastN;
    if IsEdit(op) {
      EditKeepsWindow(s, EditStep(s, op));
    } else {
      StateStepKeepsWindow(s, op);
    }
  }

  lemma EditKeepsWindow(s: Screen, t: Screen)
    requires Window(s) && Edits(s, t)
    ensures Window(t)
  {
  }

  lemma StateStepKeepsWindow(s: Screen, op: Op)
    requires Inv(s) && Window(s) && Legal(op, s.rows) && !IsEdit(op) && !op.OpSetCapacity?
    ensures Window(StateStep(s, op))
  {
    hide Inv, Edits, WithCharset, SetMouse, UnsetMouse, BlankGrid, StopsEvery;
  }

  /** Over any run at a fixed capacity, scrollback is exactly the last `capacity`
      rows scrolled off since it was last cleared. (With capacity changes it is
      still some suffix of at most `capacity` rows: that is part of `Inv`.) */
  lemma {:induction false} RunKeepsWindow(s: Screen, ops: seq<Op>)
    requires Inv(s) && Window(s) && AllLegal(ops, s.rows)
    requires forall op :: op in ops ==> !op.OpSetCapacity?
    ensures Window(Run(s, ops))
    decreases |ops|
  {
    if ops != [] {
      StepKeepsWindow(s, ops[0]);
      RunKeepsWindow(Step(s, ops[0]), ops[1..]);
    }
  }

  // ---- views -------------------------------------------------------------

  /** Scrollback followed by the grid. */
  function AllRows(s: Screen): seq<Row> {
    s.scrollback + s.grid
  }

  function LineNumberStart(s: Screen, offset: nat): nat {
    Monus(|s.scrollback|, offset) + 1
  }

  /** The `rows` rows of history-then-grid that `LineNumberStart` names. */
  function Viewport(s: Screen, offset: nat): (v: seq<Row>)
    requires Inv(s)
    ensures |v| == s.rows
  {
    var start := LineNumberStart(s, offset) - 1;
    AllRows(s)[start..start + s.rows]
  }

  /** The alternate screen has no history of its own. */
  function RenderAll(s: Screen): seq<Row> {
    if s.usingAlt then s.grid else AllRows(s)
  }

  /** What a renderer gets for a scroll offset. The cursor shows only when nothing is
      scrolled back, even where the offset has no history to act on. */
  datatype View = View(rows: seq<Row>, cursorRow: nat, cursorCol: nat, cursorVisible: bool, lineNumberStart: nat)

  function ScrolledView(s: Screen, offset: nat): View
    requires Inv(s)
  {
    View(Viewport(s, offset), if offset == 0 then s.cursorRow else 0, s.cursorCol,
         offset == 0 && s.modes.showCursor, LineNumberStart(s, offset))
  }

  /** Unscrolled, the view is the screen with its cursor; scrolled, there is no cursor. */
  lemma CursorShowsUnscrolled(s: Screen, offset: nat)
    requires Inv(s)
    ensures ScrolledView(s, 0) == View(s.grid, s.cursorRow, s.cursorCol, s.modes.showCursor, |s.scrollback| + 1)
    ensures offset > 0 ==> !ScrolledView(s, offset).cursorVisible && ScrolledView(s, offset).cursorRow == 0
  {
    assert AllRows(s)[|s.scrollback|..|s.scrollback| + s.rows] == s.grid;
  }

  /** The full rendering holds the window that the line number names, and the scrolled
      view is that window, exactly on the primary screen, when there is no history, or
      when the view reaches the top of a history that looks like the alternate screen. */
  lemma ViewportIsWindowOfRenderAllIff(s: Screen, offset: nat)
    requires Inv(s)
    ensures var start, all := LineNumberStart(s, offset) - 1, RenderAll(s);
            start + s.rows <= |all| && Viewport(s, offset) == all[start..start + s.rows]
            <==> !s.usingAlt || s.scrollback == [] || (offset >= |s.scrollback| && AllRows(s)[..s.rows] == s.grid)
    ensures Viewport(s, 0) == s.grid
  {
    var start, all := LineNumberStart(s, offset) - 1, RenderAll(s);
    assert |AllRows(s)| == |s.scrollback| + |s.grid|;
    assert s.scrollback == [] ==> AllRows(s) == s.grid;
    assert AllRows(s)[|s.scrollback|..|s.scrollback| + s.rows] == s.grid;
    if s.usingAlt && start == 0 {
      assert all[0..s.rows] == s.grid && AllRows(s)[0..s.rows] == AllRows(s)[..s.rows];
    }
  }

  /** A full-screen program over a history of blank rows: the third case does occur. */
  lemma AltViewMayCoincide(s: Screen)
    requires Inv(s) && s.usingAlt && s.grid == BlankGrid(s.rows, s.cols)
    requires s.scrollback == BlankGrid(1, s.cols)
    ensures RenderAll(s) != AllRows(s)
    ensures Viewport(s, 1) == RenderAll(s)[0..s.rows]
  {
    assert |AllRows(s)| == 1 + s.rows;
    assert Viewport(s, 1) == s.grid;
  }
}
