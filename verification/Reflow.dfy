/** Resizing: every grid row is trimmed to a line, the lines are cut into chunks of
    the new width, and the chunks refill the grid. */
module Reflow {
  import opened Sequences
  import opened Cells
  import opened Screens
  import opened Effects

  /** The cells up to the last one that is not default padding. */
  function Trimmed(cells: seq<Cell>): (t: seq<Cell>)
    ensures t <= cells
    ensures forall i :: |t| <= i < |cells| ==> cells[i] == DEFAULT_CELL
    ensures t == [] || t[|t| - 1] != DEFAULT_CELL
  {
    if cells != [] && cells[|cells| - 1] == DEFAULT_CELL then Trimmed(cells[..|cells| - 1]) else cells
  }

  method TrimTrailingPadding(cells: seq<Cell>) returns (t: seq<Cell>)
    ensures t == Trimmed(cells)
  {
    var end: nat := |cells|;
    while end > 0 && cells[end - 1] == DEFAULT_CELL
      invariant end <= |cells| && Trimmed(cells) == Trimmed(cells[..end])
    {
      end := end - 1;
      assert cells[..end + 1][..end] == cells[..end];
    }
    t := cells[..end];
  }

  /** A wrapped row is kept whole, any other loses its right padding. */
  function LineOf(row: Row): seq<Cell> {
    if row.wrapped then row.cells else Trimmed(row.cells)
  }

  function LinesOf(grid: seq<Row>): (lines: seq<seq<Cell>>)
    ensures |lines| == |grid|
    ensures forall i :: 0 <= i < |grid| ==> lines[i] == LineOf(grid[i])
  {
    seq(|grid|, i requires 0 <= i < |grid| => LineOf(grid[i]))
  }

  /** A line is its row but for padding: none is taken from a wrapped row, and what is
      left of any other does not end in padding. */
  lemma LineKeepsAllButPadding(row: Row)
    ensures row.cells == LineOf(row) + Repeat(DEFAULT_CELL, |row.cells| - |LineOf(row)|)
    ensures row.wrapped ==> LineOf(row) == row.cells
    ensures !row.wrapped && LineOf(row) != [] ==> LineOf(row)[|LineOf(row)| - 1] != DEFAULT_CELL
  {
  }

  method CollectLines(grid: seq<Row>) returns (lines: seq<seq<Cell>>)
    ensures lines == LinesOf(grid)
  {
    lines := [];
    for i := 0 to |grid|
      invariant |lines| == i
      invariant forall k :: 0 <= k < i ==> lines[k] == LineOf(grid[k])
    {
      if grid[i].wrapped {
        lines := lines + [grid[i].cells];
      } else {
        var t := TrimTrailingPadding(grid[i].cells);
        lines := lines + [t];
      }
    }
  }

  /** Pieces of exactly `n` cells, the last one possibly shorter; none for an empty line. */
  function Chunks(line: seq<Cell>, n: nat): (pieces: seq<seq<Cell>>)
    requires n > 0
    ensures forall i :: 0 <= i < |pieces| ==> 0 < |pieces[i]| <= n
    ensures forall i :: 0 <= i < |pieces| - 1 ==> |pieces[i]| == n
    ensures pieces == [] <==> line == []
    decreases |line|
  {
    if line == [] then [] else
      var k := Min(n, |line|);
      [line[..k]] + Chunks(line[k..], n)
  }

  lemma {:induction false} ChunksJoin(line: seq<Cell>, n: nat)
    requires n > 0
    ensures Flatten(Chunks(line, n)) == line
    decreases |line|
  {
    if line != [] {
      var k := Min(n, |line|);
      ChunksJoin(line[k..], n);
      var rest := Chunks(line[k..], n);
      assert ([line[..k]] + rest)[0] == line[..k] && ([line[..k]] + rest)[1..] == rest;
      assert line == line[..k] + line[k..];
    }
  }

  function AllChunks(lines: seq<seq<Cell>>, n: nat): (pieces: seq<seq<Cell>>)
    requires n > 0
    ensures forall i :: 0 <= i < |pieces| ==> |pieces[i]| <= n
  {
    if lines == [] then [] else Chunks(lines[0], n) + AllChunks(lines[1..], n)
  }

  lemma {:induction false} AllChunksJoin(lines: seq<seq<Cell>>, n: nat)
    requires n > 0
    ensures Flatten(AllChunks(lines, n)) == Flatten(lines)
  {
    if lines != [] {
      AllChunksJoin(lines[1..], n);
      ChunksJoin(lines[0], n);
      FlattenAppend(Chunks(lines[0], n), AllChunks(lines[1..], n));
    }
  }

  /** A chunk padded with default cells to the new width. */
  function Padded(chunk: seq<Cell>, cols: nat): (cells: seq<Cell>)
    requires |chunk| <= cols
    ensures |cells| == cols
  {
    chunk + Repeat(DEFAULT_CELL, cols - |chunk|)
  }

  method CopyIntoRow(chunk: seq<Cell>, cols: nat) returns (cells: seq<Cell>)
    requires |chunk| <= cols
    ensures cells == Padded(chunk, cols)
  {
    cells := Repeat(DEFAULT_CELL, cols);
    for i := 0 to |chunk|
      invariant |cells| == cols
      invariant forall j :: 0 <= j < cols ==> cells[j] == if j < i then chunk[j] else DEFAULT_CELL
    {
      cells := cells[i := chunk[i]];
    }
  }

  /** A full chunk counts as wrapped when another line follows. */
  function GridRow(chunk: seq<Cell>, cols: nat, more: bool): Row
    requires |chunk| <= cols
  {
    Row(Padded(chunk, cols), |chunk| == cols && more)
  }

  function GridRows(chunks: seq<seq<Cell>>, cols: nat, more: bool): (rows: seq<Row>)
    requires forall i :: 0 <= i < |chunks| ==> |chunks[i]| <= cols
    ensures |rows| == |chunks|
    ensures forall i :: 0 <= i < |chunks| ==> rows[i] == GridRow(chunks[i], cols, more)
  {
    seq(|chunks|, i requires 0 <= i < |chunks| => GridRow(chunks[i], cols, more))
  }

  /** Overflowing chunks go to scrollback unpadded. */
  function OverflowRows(chunks: seq<seq<Cell>>): (rows: seq<Row>)
    ensures |rows| == |chunks|
    ensures forall i :: 0 <= i < |chunks| ==> rows[i] == Row(chunks[i], true)
  {
    seq(|chunks|, i requires 0 <= i < |chunks| => Row(chunks[i], true))
  }

  datatype Refilled = Refilled(grid: seq<Row>, overflow: seq<Row>)

  /** Refills `left` rows from `lines`. The line that fills the grid sends its excess
      to scrollback; lines after it are dropped. */
  function Refill(lines: seq<seq<Cell>>, left: nat, cols: nat): (r: Refilled)
    requires cols > 0
    ensures GridOk(r.grid, left, cols)
    decreases |lines|
  {
    if left == 0 then Refilled([], [])
    else if lines == [] then Refilled(Repeat(BlankRow(cols, Default), left), [])
    else
      var chunks := Chunks(lines[0], cols);
      var more := |lines| > 1;
      if |chunks| <= left then
        var rest := Refill(lines[1..], left - |chunks|, cols);
        Refilled(GridRows(chunks, cols, more) + rest.grid, rest.overflow)
      else
        Refilled(GridRows(chunks[..left], cols, more), OverflowRows(chunks[left..]))
  }

  /** Places the chunks of one line: into grid rows while there is room for them,
      into the overflow after that. */
  method PlaceChunks(chunks: seq<seq<Cell>>, room: nat, cols: nat, more: bool)
    returns (placed: seq<Row>, excess: seq<Row>)
    requires forall i :: 0 <= i < |chunks| ==> |chunks[i]| <= cols
    ensures var k := Min(|chunks|, room);
            placed == GridRows(chunks[..k], cols, more) && excess == OverflowRows(chunks[k..])
  {
    placed, excess := [], [];
    for j := 0 to |chunks|
      invariant |placed| == Min(j, room) && |excess| == Monus(j, room)
      invariant forall i :: 0 <= i < |placed| ==> placed[i] == GridRow(chunks[i], cols, more)
      invariant forall i :: 0 <= i < |excess| ==> excess[i] == Row(chunks[room + i], true)
    {
      if j >= room {
        excess := excess + [Row(chunks[j], true)];
      } else {
        var cells := CopyIntoRow(chunks[j], cols);
        placed := placed + [Row(cells, |chunks[j]| == cols && more)];
      }
    }
  }

  /** The resize loop: one line at a time until every row is filled; blank rows once
      the lines run out. */
  method Rewrap(lines: seq<seq<Cell>>, rows: nat, cols: nat) returns (grid: seq<Row>, overflow: seq<Row>)
    requires cols > 0
    ensures Refilled(grid, overflow) == Refill(lines, rows, cols)
  {
    hide Refill, Chunks, GridRow, GridRows, OverflowRows, GridOk;
    grid, overflow := [], [];
    var next := 0;
    var rowIndex := 0;
    ghost var whole := Refill(lines, rows, cols);
    assert lines[0..] == lines;
    while rowIndex < rows
      invariant next <= |lines|
      invariant rowIndex <= rows ==> |grid| == rowIndex && overflow == []
      invariant rowIndex <= rows ==> whole == After(grid, Refill(lines[next..], rows - rowIndex, cols))
      invariant rowIndex > rows ==> Refilled(grid, overflow) == whole
      decreases |lines| - next, rows - rowIndex
    {
      ghost var rest := lines[next..];
      if next < |lines| {
        assert rest[1..] == lines[next + 1..];
        var chunks := Chunks(lines[next], cols);
        next := next + 1;
        var placed, excess := PlaceChunks(chunks, rows - rowIndex, cols, next < |lines|);
        RefillLine(rest, rows - rowIndex, cols, chunks, placed, excess);
        AfterAfter(grid, placed, Refill(rest[1..], Monus(rows - rowIndex, |chunks|), cols));
        grid, overflow := grid + placed, overflow + excess;
        rowIndex := rowIndex + |chunks|;
      } else {
        RefillBlank(rest, rows - rowIndex, cols);
        AfterAfter(grid, [BlankRow(cols, Default)], Refill(rest, rows - rowIndex - 1, cols));
        grid := grid + [BlankRow(cols, Default)];
        rowIndex := rowIndex + 1;
      }
    }
    NothingLeft(lines[next..], cols);
  }

  /** One line's share of a refill. */
  lemma RefillLine(lines: seq<seq<Cell>>, left: nat, cols: nat,
                   chunks: seq<seq<Cell>>, placed: seq<Row>, excess: seq<Row>)
    requires cols > 0 && left > 0 && lines != [] && chunks == Chunks(lines[0], cols)
    requires var k := Min(|chunks|, left);
             placed == GridRows(chunks[..k], cols, |lines| > 1) && excess == OverflowRows(chunks[k..])
    ensures |chunks| <= left ==>
              && |placed| == |chunks| && excess == []
              && Refill(lines, left, cols) == After(placed, Refill(lines[1..], left - |chunks|, cols))
    ensures |chunks| > left ==> Refill(lines, left, cols) == Refilled(placed, excess)
  {
    hide Chunks, GridRow, GridOk;
    if |chunks| <= left {
      assert chunks[..|chunks|] == chunks && chunks[|chunks|..] == [];
    }
  }

  lemma RefillBlank(lines: seq<seq<Cell>>, left: nat, cols: nat)
    requires cols > 0 && left > 0 && lines == []
    ensures Refill(lines, left, cols) == After([BlankRow(cols, Default)], Refill(lines, left - 1, cols))
  {
    assert Repeat(BlankRow(cols, Default), left)
        == [BlankRow(cols, Default)] + Repeat(BlankRow(cols, Default), left - 1);
  }

  lemma NothingLeft(lines: seq<seq<Cell>>, cols: nat)
    requires cols > 0
    ensures Refill(lines, 0, cols) == Refilled([], [])
  {
  }

  ghost function After(grid: seq<Row>, rest: Refilled): Refilled {
    Refilled(grid + rest.grid, rest.overflow)
  }

  lemma AfterAfter(a: seq<Row>, b: seq<Row>, rest: Refilled)
    ensures After(a + b, rest) == After(a, After(b, rest))
  {
    assert a + b + rest.grid == a + (b + rest.grid);
  }

  // ---- what a refill keeps -----------------------------------------------

  /** How many lines are taken before the grid is full. */
  function LinesTaken(lines: seq<seq<Cell>>, left: nat, cols: nat): (n: nat)
    requires cols > 0
    ensures n <= |lines|
    decreases |lines|
  {
    if left == 0 || lines == [] then 0 else
      var k := |Chunks(lines[0], cols)|;
      1 + (if k <= left then LinesTaken(lines[1..], left - k, cols) else 0)
  }

  /** Row `i` of a refilled grid shows chunk `i`, padded, or is blank past the last chunk. */
  predicate RowShows(row: Row, all: seq<seq<Cell>>, i: nat, cols: nat) {
    if i < |all| then |all[i]| <= cols && row.cells == Padded(all[i], cols) else row == BlankRow(cols, Default)
  }

  /** The refilled grid shows the chunks in order from its top. */
  lemma {:induction false} RefillShowsChunksInOrder(lines: seq<seq<Cell>>, left: nat, cols: nat)
    requires cols > 0
    ensures forall i :: 0 <= i < left ==> RowShows(Refill(lines, left, cols).grid[i], AllChunks(lines, cols), i, cols)
    decreases |lines|
  {
    if left > 0 && lines != [] {
      var r, all := Refill(lines, left, cols), AllChunks(lines, cols);
      var chunks := Chunks(lines[0], cols);
      var k := |chunks|;
      if k <= left {
        RefillShowsChunksInOrder(lines[1..], left - k, cols);
        var rest, others := Refill(lines[1..], left - k, cols), AllChunks(lines[1..], cols);
        forall i | 0 <= i < left ensures RowShows(r.grid[i], all, i, cols) {
          if i < k {
            assert r.grid[i] == GridRow(chunks[i], cols, |lines| > 1);
          } else {
            assert r.grid[i] == rest.grid[i - k] && RowShows(rest.grid[i - k], others, i - k, cols);
            assert i < |all| ==> all[i] == others[i - k];
          }
        }
      }
    }
  }

  /** A row counts as wrapped exactly when its chunk fills it and comes from a line
      other than the last. */
  lemma {:induction false} RefillWrapsIff(lines: seq<seq<Cell>>, left: nat, cols: nat, i: nat)
    requires cols > 0 && i < left && lines != []
    ensures Refill(lines, left, cols).grid[i].wrapped
            <==> var all := AllChunks(lines, cols);
                 i < |AllChunks(lines[..|lines| - 1], cols)| && i < |all| && |all[i]| == cols
    decreases |lines|
  {
    hide Refill, Chunks, GridOk, Padded;
    var rest := lines[1..];
    var k := |Chunks(lines[0], cols)|;
    FirstRows(lines, left, cols, i);
    if |lines| > 1 {
      assert lines[..|lines| - 1] == [lines[0]] + rest[..|rest| - 1];
      assert lines[..|lines| - 1][1..] == rest[..|rest| - 1];
      if i >= k {
        RefillWrapsIff(rest, left - k, cols, i - k);
      }
    } else {
      assert lines[..0] == [];
      if i >= k { OnlyBlanks(rest, left - k, cols, i - k); }
    }
  }

  /** A row is of the first line or of the others. */
  lemma FirstRows(lines: seq<seq<Cell>>, left: nat, cols: nat, i: nat)
    requires cols > 0 && i < left && lines != []
    ensures var chunks, row := Chunks(lines[0], cols), Refill(lines, left, cols).grid[i];
            if i < |chunks| then row == GridRow(chunks[i], cols, |lines| > 1)
            else row == Refill(lines[1..], left - |chunks|, cols).grid[i - |chunks|]
  {
    hide Chunks, GridRow, GridOk;
  }

  lemma OnlyBlanks(lines: seq<seq<Cell>>, left: nat, cols: nat, i: nat)
    requires cols > 0 && i < left && lines == []
    ensures Refill(lines, left, cols).grid[i] == BlankRow(cols, Default)
  {
  }

  /** The overflow continues that order with nothing skipped. */
  lemma {:induction false} OverflowContinuesTheOrder(lines: seq<seq<Cell>>, left: nat, cols: nat, shown: nat)
    requires cols > 0 && shown == Min(|AllChunks(lines, cols)|, left)
    ensures var o, all := Refill(lines, left, cols).overflow, AllChunks(lines, cols);
            shown + |o| <= |all| && o == OverflowRows(all[shown..shown + |o|])
    decreases |lines|
  {
    hide Refill, Chunks, OverflowRows;
    OverflowOfFirst(lines, left, cols);
    if left > 0 && lines != [] {
      var chunks, others := Chunks(lines[0], cols), AllChunks(lines[1..], cols);
      var k := |chunks|;
      var o := Refill(lines, left, cols).overflow;
      if k <= left {
        OverflowContinuesTheOrder(lines[1..], left - k, cols, shown - k);
        SliceOfSecond(chunks, others, shown - k, shown - k + |o|);
      } else {
        SliceOfFirst(chunks, others, left);
      }
    } else {
      assert AllChunks(lines, cols)[shown..shown] == [];
    }
  }

  lemma SliceOfFirst<T>(a: seq<T>, b: seq<T>, i: nat)
    requires i <= |a|
    ensures (a + b)[i..|a|] == a[i..]
  {
  }

  lemma OverflowOfFirst(lines: seq<seq<Cell>>, left: nat, cols: nat)
    requires cols > 0
    ensures var o := Refill(lines, left, cols).overflow;
            if left == 0 || lines == [] then o == [] == OverflowRows([])
            else var chunks := Chunks(lines[0], cols);
                 if |chunks| <= left then o == Refill(lines[1..], left - |chunks|, cols).overflow
                 else o == OverflowRows(chunks[left..])
  {
    hide Chunks, GridRow, GridOk;
  }

  /** How much overflows: the chunks of the lines taken that exceed the room. */
  lemma {:induction false} OverflowSize(lines: seq<seq<Cell>>, left: nat, cols: nat)
    requires cols > 0
    ensures |Refill(lines, left, cols).overflow|
            == Monus(|AllChunks(lines[..LinesTaken(lines, left, cols)], cols)|, left)
    decreases |lines|
  {
    hide Chunks, GridRow, GridRows, OverflowRows, GridOk, BlankRow;
    if left > 0 && lines != [] {
      var k, taken := |Chunks(lines[0], cols)|, LinesTaken(lines, left, cols);
      assert lines[..taken] == [lines[0]] + lines[1..][..taken - 1];
      assert lines[..taken][1..] == lines[1..][..taken - 1];
      if k <= left {
        OverflowSize(lines[1..], left - k, cols);
      } else {
        assert AllChunks(lines[1..][..0], cols) == [];
      }
    }
  }

  /** The chunk each new row shows when history is read before the grid. */
  function ReadingOrder(shown: nat, overflow: nat): (order: seq<nat>)
    ensures |order| == overflow + shown
    ensures forall i :: 0 <= i < overflow ==> order[i] == shown + i
    ensures forall k :: overflow <= k < |order| ==> order[k] == k - overflow
  {
    seq(overflow, i requires 0 <= i => shown + i) + seq(shown, i requires 0 <= i => i)
  }

  predicate Increasing(order: seq<nat>) {
    forall i, j :: 0 <= i < j < |order| ==> order[i] < order[j]
  }

  /** The rows of a resize read in the given order of chunks, and in the order of the
      text exactly when the chunks of the lines taken fit: overflow goes to history,
      above the chunks that come before it. */
  lemma HistoryThenGridKeepsOrderIff(lines: seq<seq<Cell>>, left: nat, cols: nat, shown: nat)
    requires cols > 0 && left > 0 && shown == Min(|AllChunks(lines, cols)|, left)
    ensures var r, all := Refill(lines, left, cols), AllChunks(lines, cols);
            var order := ReadingOrder(shown, |r.overflow|);
            && shown + |r.overflow| <= |all|
            && (forall i :: 0 <= i < |r.overflow| ==> r.overflow[i] == Row(all[order[i]], true))
            && (forall i :: 0 <= i < shown ==> r.grid[i].cells == Padded(all[order[|r.overflow| + i]], cols))
            && (Increasing(order) <==> |AllChunks(lines[..LinesTaken(lines, left, cols)], cols)| <= left)
  {
    hide Refill, AllChunks, LinesTaken, Padded;
    var r, all := Refill(lines, left, cols), AllChunks(lines, cols);
    var n := |r.overflow|;
    RefillShowsChunksInOrder(lines, left, cols);
    OverflowContinuesTheOrder(lines, left, cols, shown);
    OverflowSize(lines, left, cols);
    forall i | 0 <= i < shown ensures r.grid[i].cells == Padded(all[i], cols) {
      assert RowShows(r.grid[i], all, i, cols);
    }
    forall i | 0 <= i < n ensures r.overflow[i] == Row(all[shown + i], true) {
      assert all[shown..shown + n][i] == all[shown + i];
    }
    var order := ReadingOrder(shown, n);
    if n > 0 {
      assert order[0] == shown && order[n + 0] == 0;
    }
  }

  predicate AllEmpty(lines: seq<seq<Cell>>) {
    forall i :: 0 <= i < |lines| ==> lines[i] == []
  }

  lemma {:induction false} NoChunksIffAllEmpty(lines: seq<seq<Cell>>, cols: nat)
    requires cols > 0
    ensures AllChunks(lines, cols) == [] <==> AllEmpty(lines)
  {
    if lines != [] {
      NoChunksIffAllEmpty(lines[1..], cols);
      if AllEmpty(lines) {
        assert lines[0] == [] && AllEmpty(lines[1..]);
      } else if lines[0] == [] {
        var i :| 0 <= i < |lines| && lines[i] != [];
        assert lines[1..][i - 1] != [];
      }
    }
  }

  /** No chunk is lost exactly when every line after the ones taken is blank. */
  lemma {:induction false} RefillLosesNothingIff(lines: seq<seq<Cell>>, left: nat, cols: nat)
    requires cols > 0
    ensures var r, all := Refill(lines, left, cols), AllChunks(lines, cols);
            Min(|all|, left) + |r.overflow| == |all| <==> AllEmpty(lines[LinesTaken(lines, left, cols)..])
    decreases |lines|
  {
    if left == 0 || lines == [] {
      assert lines[0..] == lines;
      NoChunksIffAllEmpty(lines, cols);
    } else {
      var chunks := Chunks(lines[0], cols);
      var taken := LinesTaken(lines, left, cols);
      if |chunks| <= left {
        RefillLosesNothingIff(lines[1..], left - |chunks|, cols);
        assert lines[1..][taken - 1..] == lines[taken..];
      } else {
        NoChunksIffAllEmpty(lines[1..], cols);
      }
    }
  }

  /** When the chunks fit, the old cells, in order and without their right padding,
      are the new cells without theirs. */
  lemma FittingRefillPreservesCells(lines: seq<seq<Cell>>, rows: nat, cols: nat)
    requires cols > 0 && |AllChunks(lines, cols)| <= rows
    ensures var r, all := Refill(lines, rows, cols), AllChunks(lines, cols);
            && r.overflow == [] && Flatten(all) == Flatten(lines)
            && (forall i :: 0 <= i < rows ==> RowShows(r.grid[i], all, i, cols))
  {
    RefillShowsChunksInOrder(lines, rows, cols);
    OverflowContinuesTheOrder(lines, rows, cols, |AllChunks(lines, cols)|);
    AllChunksJoin(lines, cols);
  }

  // ---- blank lines -------------------------------------------------------

  /** What row `i` of a grid showing these chunks from its top looks like. */
  function Shown(chunks: seq<seq<Cell>>, i: nat, cols: nat): seq<Cell>
    requires i < |chunks| ==> |chunks[i]| <= cols
  {
    if i < |chunks| then Padded(chunks[i], cols) else Repeat(DEFAULT_CELL, cols)
  }

  /** The rows of one line as the comment in `reflow_grid` promises them: a blank line
      takes one blank row. */
  function PromisedRows(line: seq<Cell>, n: nat): (pieces: seq<seq<Cell>>)
    requires n > 0
    ensures forall i :: 0 <= i < |pieces| ==> |pieces[i]| <= n
  {
    if line == [] then [[]] else Chunks(line, n)
  }

  function Promised(lines: seq<seq<Cell>>, n: nat): (pieces: seq<seq<Cell>>)
    requires n > 0
    ensures forall i :: 0 <= i < |pieces| ==> |pieces[i]| <= n
  {
    if lines == [] then [] else PromisedRows(lines[0], n) + Promised(lines[1..], n)
  }

  predicate NoInk(cells: seq<Cell>) {
    forall i :: 0 <= i < |cells| ==> cells[i] == DEFAULT_CELL
  }

  /** None of the first `left` of these rows shows anything. */
  predicate NothingShown(rows: seq<seq<Cell>>, left: nat) {
    forall i :: 0 <= i < left && i < |rows| ==> NoInk(rows[i])
  }

  /** Of the `left` rows there are, no row taken by a line below a blank one shows
      anything: then the missing blank row is not missed. */
  predicate BlanksStay(lines: seq<seq<Cell>>, left: nat, cols: nat)
    requires cols > 0
    decreases |lines|
  {
    if left == 0 || lines == [] then true
    else if lines[0] == [] then NothingShown(AllChunks(lines[1..], cols), left)
    else
      var k := |Chunks(lines[0], cols)|;
      k >= left || BlanksStay(lines[1..], left - k, cols)
  }

  /** The two layouts look the same on the first `left` rows. */
  predicate LookAlike(a: seq<seq<Cell>>, b: seq<seq<Cell>>, left: nat, cols: nat)
    requires forall i :: 0 <= i < |a| ==> |a[i]| <= cols
    requires forall i :: 0 <= i < |b| ==> |b[i]| <= cols
  {
    forall i :: 0 <= i < left ==> Shown(a, i, cols) == Shown(b, i, cols)
  }

  lemma ShowsNothingIff(rows: seq<seq<Cell>>, i: nat, cols: nat)
    requires i < |rows| ==> |rows[i]| <= cols
    ensures Shown(rows, i, cols) == Repeat(DEFAULT_CELL, cols) <==> (i < |rows| ==> NoInk(rows[i]))
  {
    if i < |rows| && Padded(rows[i], cols) == Repeat(DEFAULT_CELL, cols) {
      forall k | 0 <= k < |rows[i]| ensures rows[i][k] == DEFAULT_CELL {
        assert Padded(rows[i], cols)[k] == rows[i][k];
      }
    }
  }

  /** Giving blank lines their rows shows nothing new. */
  lemma {:induction false} NothingPromised(lines: seq<seq<Cell>>, left: nat, cols: nat)
    requires cols > 0 && NothingShown(AllChunks(lines, cols), left)
    ensures NothingShown(Promised(lines, cols), left)
    decreases |lines|
  {
    hide Chunks;
    if lines != [] {
      var chunks, rest := Chunks(lines[0], cols), AllChunks(lines[1..], cols);
      var all := chunks + rest;
      forall i | 0 <= i < Monus(left, |chunks|) && i < |rest| ensures NoInk(rest[i]) {
        assert all[|chunks| + i] == rest[i];
      }
      forall i | 0 <= i < left && i < |chunks| ensures NoInk(chunks[i]) {
        assert all[i] == chunks[i];
      }
      NothingPromised(lines[1..], Monus(left, |chunks|), cols);
    }
  }

  /** Below a blank line, rows that look as promised are all blank: each row must look
      like the one above it is promised to. */
  lemma {:induction false} BlankPushesBlank(rest: seq<seq<Cell>>, left: nat, cols: nat, k: nat)
    requires cols > 0 && k <= left
    requires LookAlike(AllChunks(rest, cols), [[]] + Promised(rest, cols), left, cols)
    ensures NothingShown(AllChunks(rest, cols), k)
    decreases k
  {
    hide AllChunks, Promised;
    if k > 0 {
      BlankPushesBlank(rest, left, cols, k - 1);
      NothingPromised(rest, k - 1, cols);
      ShowsNothingIff([[]] + Promised(rest, cols), k - 1, cols);
      ShowsNothingIff(AllChunks(rest, cols), k - 1, cols);
    }
  }

  lemma {:induction false} LookAlikeIff(lines: seq<seq<Cell>>, left: nat, cols: nat)
    requires cols > 0
    ensures LookAlike(AllChunks(lines, cols), Promised(lines, cols), left, cols) <==> BlanksStay(lines, left, cols)
    decreases |lines|
  {
    hide NothingShown, NoInk, Padded;
    if left > 0 && lines != [] {
      var rest := lines[1..];
      var all, promised := AllChunks(rest, cols), Promised(rest, cols);
      if lines[0] == [] {
        assert Chunks(lines[0], cols) + all == all;
        BlankHeadIff(rest, left, cols);
      } else {
        var chunks := Chunks(lines[0], cols);
        LookAlikeIff(rest, Monus(left, |chunks|), cols);
        SameHead(chunks, all, promised, left, cols);
      }
    }
  }

  lemma BlankHeadIff(rest: seq<seq<Cell>>, left: nat, cols: nat)
    requires cols > 0
    ensures LookAlike(AllChunks(rest, cols), [[]] + Promised(rest, cols), left, cols)
            <==> NothingShown(AllChunks(rest, cols), left)
  {
    hide AllChunks, Promised;
    var all, promised := AllChunks(rest, cols), Promised(rest, cols);
    if LookAlike(all, [[]] + promised, left, cols) {
      BlankPushesBlank(rest, left, cols, left);
    }
    if NothingShown(all, left) {
      NothingPromised(rest, left, cols);
      forall i | 0 <= i < left ensures Shown(all, i, cols) == Shown([[]] + promised, i, cols) {
        ShowsNothingIff(all, i, cols);
        ShowsNothingIff([[]] + promised, i, cols);
      }
    }
  }

  lemma SameHead(head: seq<seq<Cell>>, a: seq<seq<Cell>>, b: seq<seq<Cell>>, left: nat, cols: nat)
    requires forall i :: 0 <= i < |head| ==> |head[i]| <= cols
    requires forall i :: 0 <= i < |a| ==> |a[i]| <= cols
    requires forall i :: 0 <= i < |b| ==> |b[i]| <= cols
    ensures LookAlike(head + a, head + b, left, cols) <==> LookAlike(a, b, Monus(left, |head|), cols)
  {
    hide Padded;
    var n := |head|;
    forall i | 0 <= i < n ensures Shown(head + a, i, cols) == Shown(head + b, i, cols) {
    }
    forall i | 0 <= i
      ensures Shown(head + a, n + i, cols) == Shown(a, i, cols) && Shown(head + b, n + i, cols) == Shown(b, i, cols)
    {
    }
    if LookAlike(head + a, head + b, left, cols) {
      forall i | 0 <= i < Monus(left, n) ensures Shown(a, i, cols) == Shown(b, i, cols) {
        assert Shown(head + a, n + i, cols) == Shown(head + b, n + i, cols);
      }
    }
    if LookAlike(a, b, Monus(left, n), cols) {
      forall i | 0 <= i < left ensures Shown(head + a, i, cols) == Shown(head + b, i, cols) {
        if i >= n {
          assert Shown(a, i - n, cols) == Shown(b, i - n, cols);
          assert Shown(head + a, n + (i - n), cols) == Shown(a, i - n, cols);
        }
      }
    }
  }

  /** At every size, whatever is lost to overflow or dropped, the resized grid looks as
      promised if and only if no row below a blank line shows anything. */
  lemma BlankLinesKeepTheirRowIff(lines: seq<seq<Cell>>, rows: nat, cols: nat)
    requires cols > 0
    ensures var grid, promised := Refill(lines, rows, cols).grid, Promised(lines, cols);
            (forall i :: 0 <= i < rows ==> grid[i].cells == Shown(promised, i, cols)) <==> BlanksStay(lines, rows, cols)
  {
    hide Refill, Promised, AllChunks, BlanksStay;
    var grid, all := Refill(lines, rows, cols).grid, AllChunks(lines, cols);
    RefillShowsChunksInOrder(lines, rows, cols);
    forall i | 0 <= i < rows ensures grid[i].cells == Shown(all, i, cols) {
      assert RowShows(grid[i], all, i, cols);
    }
    LookAlikeIff(lines, rows, cols);
    assert LookAlike(all, Promised(lines, cols), rows, cols)
      <==> forall i :: 0 <= i < rows ==> grid[i].cells == Shown(Promised(lines, cols), i, cols);
  }

  /** No blank line stands before a line that shows something. */
  predicate BlanksAreLast(lines: seq<seq<Cell>>) {
    forall i, j :: 0 <= i < j < |lines| && lines[i] == [] ==> NoInk(lines[j])
  }

  predicate AllNoInk(rows: seq<seq<Cell>>) {
    forall i :: 0 <= i < |rows| ==> NoInk(rows[i])
  }

  lemma BlanksCons(head: seq<Cell>, rest: seq<seq<Cell>>)
    ensures BlanksAreLast([head] + rest) <==> BlanksAreLast(rest) && (head == [] ==> AllNoInk(rest))
    ensures AllNoInk([head] + rest) <==> NoInk(head) && AllNoInk(rest)
    ensures AllNoInk(rest) ==> BlanksAreLast(rest)
  {
    hide NoInk;
    var lines := [head] + rest;
    assert forall i :: 1 <= i < |lines| ==> lines[i] == rest[i - 1];
    assert forall i :: 0 <= i < |rest| ==> rest[i] == lines[i + 1];
    assert lines[0] == head;
    if BlanksAreLast(lines) {
      forall i, j | 0 <= i < j < |rest| && rest[i] == [] ensures NoInk(rest[j]) {
        assert lines[i + 1] == [] && NoInk(lines[j + 1]);
      }
      if head == [] {
        forall j | 0 <= j < |rest| ensures NoInk(rest[j]) {
          assert lines[0] == [] && NoInk(lines[j + 1]);
        }
      }
    }
  }

  /** When there is room for all rows that condition is about the lines alone. */
  lemma {:induction false} BlanksStayWithRoomIff(lines: seq<seq<Cell>>, rows: nat, cols: nat)
    requires cols > 0 && |AllChunks(lines, cols)| <= rows
    ensures BlanksStay(lines, rows, cols) <==> BlanksAreLast(lines)
    decreases |lines|
  {
    hide NoInk, NothingShown;
    if rows == 0 {
      NoChunksIffAllEmpty(lines, cols);
      EmptyIsBlank(lines);
    } else if lines != [] {
      var rest := lines[1..];
      BlanksCons(lines[0], rest);
      assert lines == [lines[0]] + rest;
      if lines[0] == [] {
        assert Chunks(lines[0], cols) + AllChunks(rest, cols) == AllChunks(rest, cols);
        ChunksShowNothingIff(rest, rows, cols);
      } else {
        BlanksStayWithRoomIff(rest, rows - |Chunks(lines[0], cols)|, cols);
        if rows == |Chunks(lines[0], cols)| {
          NoChunksIffAllEmpty(rest, cols);
          EmptyIsBlank(rest);
        }
      }
    }
  }

  lemma EmptyIsBlank(rest: seq<seq<Cell>>)
    requires AllEmpty(rest)
    ensures AllNoInk(rest)
  {
  }

  lemma {:induction false} ChunksShowNothingIff(lines: seq<seq<Cell>>, left: nat, cols: nat)
    requires cols > 0 && |AllChunks(lines, cols)| <= left
    ensures NothingShown(AllChunks(lines, cols), left) <==> AllNoInk(lines)
    decreases |lines|
  {
    if lines != [] {
      var chunks, rest := Chunks(lines[0], cols), AllChunks(lines[1..], cols);
      ChunksShowNothingIff(lines[1..], left - |chunks|, cols);
      ChunksInk(lines[0], cols);
      BlanksCons(lines[0], lines[1..]);
      assert lines == [lines[0]] + lines[1..];
      NothingInBoth(chunks, rest, left);
    }
  }

  lemma NothingInBoth(a: seq<seq<Cell>>, b: seq<seq<Cell>>, left: nat)
    requires |a| + |b| <= left
    ensures NothingShown(a + b, left) <==> AllNoInk(a) && NothingShown(b, left - |a|)
  {
    hide NoInk;
    if NothingShown(a + b, left) {
      forall i | 0 <= i < |a| ensures NoInk(a[i]) { assert (a + b)[i] == a[i]; }
      forall i | 0 <= i < |b| ensures NoInk(b[i]) { assert (a + b)[|a| + i] == b[i]; }
    }
  }

  lemma {:induction false} ChunksInk(line: seq<Cell>, n: nat)
    requires n > 0
    ensures AllNoInk(Chunks(line, n)) <==> NoInk(line)
    decreases |line|
  {
    if line != [] {
      var k := Min(n, |line|);
      var rest := Chunks(line[k..], n);
      ChunksInk(line[k..], n);
      assert Chunks(line, n)[0] == line[..k] && Chunks(line, n)[1..] == rest;
      assert line == line[..k] + line[k..];
      assert NoInk(line) <==> NoInk(line[..k]) && NoInk(line[k..]);
      assert AllNoInk([line[..k]] + rest) <==> NoInk(line[..k]) && AllNoInk(rest);
    }
  }

  /** A blank line never takes a row: with or without it every row shows the same. */
  lemma BlankLinesVanish(above: seq<seq<Cell>>, below: seq<seq<Cell>>, rows: nat, cols: nat)
    requires cols > 0
    ensures var r, without := Refill(above + [[]] + below, rows, cols), Refill(above + below, rows, cols);
            forall i :: 0 <= i < rows ==> r.grid[i].cells == without.grid[i].cells
  {
    hide Refill, AllChunks;
    var lines := above + [[]] + below;
    BlankLineHasNoChunk(above, below, cols);
    RefillShowsChunksInOrder(lines, rows, cols);
    RefillShowsChunksInOrder(above + below, rows, cols);
    forall i | 0 <= i < rows
      ensures Refill(lines, rows, cols).grid[i].cells == Refill(above + below, rows, cols).grid[i].cells
    {
      assert RowShows(Refill(lines, rows, cols).grid[i], AllChunks(lines, cols), i, cols);
      assert RowShows(Refill(above + below, rows, cols).grid[i], AllChunks(lines, cols), i, cols);
    }
  }

  lemma {:induction false} BlankLineHasNoChunk(above: seq<seq<Cell>>, below: seq<seq<Cell>>, cols: nat)
    requires cols > 0
    ensures AllChunks(above + [[]] + below, cols) == AllChunks(above + below, cols)
  {
    var lines := above + [[]] + below;
    if above == [] {
      assert lines[1..] == below && above + below == below;
    } else {
      assert lines[1..] == above[1..] + [[]] + below && (above + below)[1..] == above[1..] + below;
      BlankLineHasNoChunk(above[1..], below, cols);
    }
  }

  /** The smallest screen on which the promise fails inside the text: `a`, a blank line
      and `b` come out on adjacent rows. */
  lemma MiddleBlankLineVanishes(a: Cell, b: Cell, cols: nat)
    requires cols > 0 && a != DEFAULT_CELL && b != DEFAULT_CELL
    ensures LinesOf([Row(Padded([a], cols), false), BlankRow(cols, Default), Row(Padded([b], cols), false)])
            == [[a], [], [b]]
    ensures Refill([[a], [], [b]], 3, cols).grid[1].cells == Padded([b], cols)
    ensures Shown(Promised([[a], [], [b]], cols), 1, cols) == Repeat(DEFAULT_CELL, cols)
  {
    hide Refill, Trimmed, Chunks, Padded;
    OneCellLine(a, cols);
    OneCellLine(b, cols);
    assert [[a], [], [b]] == [[a]] + [[]] + [[b]] && [[a]] + [[b]] == [[a], [b]];
    BlankLinesVanish([[a]], [[b]], 3, cols);
    RefillShowsChunksInOrder([[a], [b]], 3, cols);
    FirstChunks([a], [[b]], cols);
    FirstChunks([b], [], cols);
    assert [[a], [b]] == [[a]] + [[b]] && [[b]] == [[b]] + [];
    assert RowShows(Refill([[a], [b]], 3, cols).grid[1], AllChunks([[a], [b]], cols), 1, cols);
    PromisedSecond(a, b, cols);
  }

  lemma FirstChunks(line: seq<Cell>, rest: seq<seq<Cell>>, cols: nat)
    requires cols > 0
    ensures AllChunks([line] + rest, cols) == Chunks(line, cols) + AllChunks(rest, cols)
  {
    assert ([line] + rest)[1..] == rest;
  }

  lemma PromisedSecond(a: Cell, b: Cell, cols: nat)
    requires cols > 0 && Chunks([a], cols) == [[a]]
    ensures Shown(Promised([[a], [], [b]], cols), 1, cols) == Repeat(DEFAULT_CELL, cols)
  {
    hide Chunks;
    var rest := [[a], [], [b]][1..];
    assert Promised(rest, cols) == [[]] + Promised(rest[1..], cols);
    assert Promised([[a], [], [b]], cols) == [[a]] + Promised(rest, cols);
  }

  lemma OneCellLine(c: Cell, cols: nat)
    requires cols > 0 && c != DEFAULT_CELL
    ensures Chunks([c], cols) == [[c]]
    ensures Trimmed(Padded([c], cols)) == [c] && Trimmed(BlankRow(cols, Default).cells) == []
  {
    assert [c][..1] == [c] && [c][1..] == [];
    var cells, blanks := Padded([c], cols), BlankRow(cols, Default).cells;
    assert cells[0] == c && forall i :: 1 <= i < cols ==> cells[i] == DEFAULT_CELL;
    assert forall i :: 0 <= i < cols ==> blanks[i] == DEFAULT_CELL;
  }

  // ---- the whole resize --------------------------------------------------

  function Resize(s: Screen, cols: nat, rows: nat): Screen
    requires cols > 0
  {
    var r := Refill(LinesOf(s.grid), rows, cols);
    s.(rows := rows, cols := cols, grid := r.grid,
       scrollback := s.scrollback + r.overflow, log := s.log + r.overflow,
       scrollTop := 0, scrollBottom := Monus(rows, 1),
       cursorRow := if s.cursorRow >= rows then Monus(rows, 1) else s.cursorRow,
       cursorCol := if s.cursorCol >= cols then cols - 1 else s.cursorCol,
       tabStops := StopsEvery(cols, 8))
  }

  /** The cursor goes to the nearest position of the new size: a coordinate that fits is
      kept, so growing only in height moves nothing but a pending wrap. */
  lemma ResizeMovesCursorToNearest(s: Screen, cols: nat, rows: nat)
    requires Inv(s) && cols > 0 && rows > 0
    ensures var t := Resize(s, cols, rows);
            && Nearest(s.cursorRow, rows, t.cursorRow) && Nearest(s.cursorCol, cols, t.cursorCol)
            && (s.cursorRow < rows ==> t.cursorRow == s.cursorRow)
            && (s.cursorCol < cols ==> t.cursorCol == s.cursorCol)
            && (cols == s.cols && s.rows <= rows ==>
                  t.cursorRow == s.cursorRow && t.cursorCol == Min(s.cursorCol, s.cols - 1))
  {
    hide Refill, LinesOf, StopsEvery;
  }

  /** Apart from grid, history and cursor a resize sets the region to the whole screen
      and the tab stops to every eighth column; old history comes first. */
  lemma ResizeSetsTheRest(s: Screen, cols: nat, rows: nat)
    requires Inv(s) && cols > 0 && rows > 0
    ensures var t := Resize(s, cols, rows);
            && t == s.(rows := rows, cols := cols, grid := t.grid, scrollback := t.scrollback, log := t.log,
                       scrollTop := 0, scrollBottom := rows - 1, cursorRow := t.cursorRow, cursorCol := t.cursorCol,
                       tabStops := t.tabStops)
            && |t.tabStops| == cols && (forall c :: 0 <= c < cols ==> (t.tabStops[c] <==> c % 8 == 0))
            && s.scrollback <= t.scrollback && s.log <= t.log
            && t.scrollback[|s.scrollback|..] == t.log[|s.log|..]
  {
    hide Refill, LinesOf;
  }

  /** Resizing leaves saved cursors and the parked primary screen at the old size and
      does not evict, so it keeps the invariant exactly when those happen to fit: the
      chunks that exceed the new grid beside the history, the saved cursor in it. */
  lemma ResizeKeepsInvariantIff(s: Screen, cols: nat, rows: nat)
    requires Inv(s) && cols > 0 && rows > 0
    ensures var lines := LinesOf(s.grid);
            Inv(Resize(s, cols, rows)) <==>
              && |s.scrollback| + Monus(|AllChunks(lines[..LinesTaken(lines, rows, cols)], cols)|, rows) <= s.capacity
              && SavedOk(s.savedCursor, rows, cols)
              && (s.usingAlt ==> rows == s.rows && cols == s.cols)
  {
    hide Refill, AllChunks, LinesTaken, LinesOf;
    var t := Resize(s, cols, rows);
    var overflow := Refill(LinesOf(s.grid), rows, cols).overflow;
    OverflowSize(LinesOf(s.grid), rows, cols);
    assert t.log[|t.log| - |t.scrollback|..] == s.log[|s.log| - |s.scrollback|..] + overflow;
    if s.usingAlt && GridOk(s.altGrid.value, rows, cols) {
      assert |s.altGrid.value[0].cells| == cols;
    }
  }

  /** A run that gets there: a cursor saved on the last row, and then a row less. */
  lemma ShrinkingStrandsSavedCursor(start: Screen, s: Screen)
    requires start == Fresh(2, 80) && s == Run(start, [OpGoto(1, 0)] + [OpSaveCursor])
    ensures Inv(s) && !Inv(Resize(s, 80, 1))
  {
    hide Inv, Step, Run, Resize, Fresh;
    SizeOfFresh(start);
    RunAppend(start, [OpGoto(1, 0)], [OpSaveCursor]);
    RunOne(start, OpGoto(1, 0));
    RunOne(Step(start, OpGoto(1, 0)), OpSaveCursor);
    SavedOnLastRow(start);
    ResizeKeepsInvariantIff(s, 80, 1);
  }

  /** Another: a full-screen program, and then a row less for it alone. */
  lemma ShrinkingStrandsPrimaryScreen(start: Screen, s: Screen)
    requires start == Fresh(2, 80) && s == Run(start, [OpSetPrivateMode(AltScreen)])
    ensures Inv(s) && !Inv(Resize(s, 80, 1))
  {
    hide Inv, Step, Run, Resize, Fresh;
    SizeOfFresh(start);
    RunOne(start, OpSetPrivateMode(AltScreen));
    InAltScreen(start);
    ResizeKeepsInvariantIff(s, 80, 1);
  }

  lemma SizeOfFresh(start: Screen)
    requires start == Fresh(2, 80)
    ensures Inv(start) && start.rows == 2
  {
  }

  lemma SavedOnLastRow(s: Screen)
    requires Inv(s) && s.rows == 2
    ensures var t := Step(Step(s, OpGoto(1, 0)), OpSaveCursor); t.savedCursor.Some? && t.savedCursor.value.row == 1
  {
    hide Inv;
    assert Step(s, OpGoto(1, 0)) == Goto(s, 1, 0);
    assert Step(Goto(s, 1, 0), OpSaveCursor) == SaveCursor(Goto(s, 1, 0));
  }

  lemma InAltScreen(s: Screen)
    requires Inv(s)
    ensures Step(s, OpSetPrivateMode(AltScreen)).usingAlt
  {
    hide Inv;
  }

  /** The run of the last two: a capacity, then two characters that fill the only row. */
  ghost predicate TwoCharacters(s: Screen, capacity: nat, a: Char, b: Char) {
    && a.width == 1 && a.ch != ' ' && b.width == 1 && b.ch != ' '
    && var start := Fresh(1, 2);
       Inv(start) && s == Run(start, [OpSetCapacity(capacity)] + [OpPrint(a, a)] + [OpPrint(b, b)])
  }

  /** A terminal that keeps no history, narrowed to one column, is left with some. */
  lemma NarrowingOverfillsHistory(s: Screen, a: Char, b: Char)
    requires TwoCharacters(s, 0, a, b)
    ensures Inv(s) && !Inv(Resize(s, 1, 1))
  {
    hide Resize, Inv;
    TwoCharactersNarrowed(s, 0, a, b);
    InvBounds(s);
    if Inv(Resize(s, 1, 1)) { InvBounds(Resize(s, 1, 1)); }
  }

  /** With history kept, the second character is read before the first. */
  lemma NarrowingReversesText(s: Screen, a: Char, b: Char)
    requires TwoCharacters(s, DEFAULT_CAPACITY, a, b)
    ensures CellsOf(s.scrollback + s.grid) == [Glyph(a.ch, 1, DEFAULT_PEN), Glyph(b.ch, 1, DEFAULT_PEN)]
    ensures var t := Resize(s, 1, 1);
            CellsOf(t.scrollback + t.grid) == [Glyph(b.ch, 1, DEFAULT_PEN), Glyph(a.ch, 1, DEFAULT_PEN)]
  {
    hide Resize, Inv;
    TwoCharactersNarrowed(s, DEFAULT_CAPACITY, a, b);
    var t := Resize(s, 1, 1);
    var x, y := Glyph(a.ch, 1, DEFAULT_PEN), Glyph(b.ch, 1, DEFAULT_PEN);
    assert s.scrollback + s.grid == [] + [s.grid[0]];
    CellsOfSnoc([], s.grid[0]);
    assert t.scrollback + t.grid == [t.scrollback[0]] + [t.grid[0]];
    CellsOfSnoc([t.scrollback[0]], t.grid[0]);
    CellsOfSnoc([], t.scrollback[0]);
    assert [] + [t.scrollback[0]] == [t.scrollback[0]];
    assert CellsOf([]) + [y] == [y] && [y] + [x] == [y, x];
  }

  lemma TwoCharactersNarrowed(s: Screen, capacity: nat, a: Char, b: Char)
    requires TwoCharacters(s, capacity, a, b)
    ensures var x, y := Glyph(a.ch, 1, DEFAULT_PEN), Glyph(b.ch, 1, DEFAULT_PEN);
            && Inv(s) && s.scrollback == [] && s.grid == [Row([x, y], false)] && s.capacity == capacity
            && var t := Resize(s, 1, 1);
               && |t.scrollback| == 1 && t.scrollback[0].cells == [y]
               && |t.grid| == 1 && t.grid[0].cells == [x] && t.capacity == capacity
  {
    hide Run, Step, Inv, Fresh, Refill, LinesOf, Print;
    TwoCharactersShow(s, capacity, a, b);
    var x, y := Glyph(a.ch, 1, DEFAULT_PEN), Glyph(b.ch, 1, DEFAULT_PEN);
    FullRowRefill(x, y);
  }

  lemma FullRowRefill(x: Cell, y: Cell)
    requires x != DEFAULT_CELL && y != DEFAULT_CELL
    ensures LinesOf([Row([x, y], false)]) == [[x, y]]
    ensures var r := Refill([[x, y]], 1, 1);
            |r.grid| == 1 && r.grid[0].cells == [x] && |r.overflow| == 1 && r.overflow[0].cells == [y]
  {
    assert [x, y][..1] == [x] && [x, y][1..] == [y] && [y][..1] == [y] && [y][1..] == [];
    assert Chunks([y], 1) == [[y]] + Chunks([], 1);
    assert Chunks([x, y], 1) == [[x]] + Chunks([y], 1);
    assert Padded([x], 1) == [x];
  }

  lemma TwoCharactersShow(s: Screen, capacity: nat, a: Char, b: Char)
    requires TwoCharacters(s, capacity, a, b)
    ensures Inv(s) && s.scrollback == [] && s.rows == 1 && s.cols == 2 && s.capacity == capacity
    ensures s.grid == [Row([Glyph(a.ch, 1, DEFAULT_PEN), Glyph(b.ch, 1, DEFAULT_PEN)], false)]
  {
    hide Run, Step, Inv, Print, Fresh, Glyph;
    var start := Fresh(1, 2);
    RunAppend(start, [OpSetCapacity(capacity)] + [OpPrint(a, a)], [OpPrint(b, b)]);
    RunAppend(start, [OpSetCapacity(capacity)], [OpPrint(a, a)]);
    RunOne(start, OpSetCapacity(capacity));
    var sized := Step(start, OpSetCapacity(capacity));
    RunOne(sized, OpPrint(a, a));
    RunOne(Step(sized, OpPrint(a, a)), OpPrint(b, b));
    OneFreshRow(start);
    StepIsSetCapacity(start, capacity);
    PrintsInRow(sized, a);
    StepIsPrint(sized, a);
    var once := Print(sized, a.ch, 1);
    PrintsInRow(once, b);
    StepIsPrint(once, b);
    var x, y := Glyph(a.ch, 1, DEFAULT_PEN), Glyph(b.ch, 1, DEFAULT_PEN);
    assert [DEFAULT_CELL, DEFAULT_CELL][0 := x] == [x, DEFAULT_CELL] && [x, DEFAULT_CELL][1 := y] == [x, y];
  }

  lemma StepIsSetCapacity(s: Screen, n: nat)
    requires Inv(s) && s.scrollback == []
    ensures Step(s, OpSetCapacity(n)) == s.(capacity := n)
  {
    hide Inv;
    assert Step(s, OpSetCapacity(n)) == SetCapacity(s, n);
  }

  lemma OneFreshRow(start: Screen)
    requires start == Fresh(1, 2)
    ensures start.grid == [Row([DEFAULT_CELL, DEFAULT_CELL], false)] && !start.insertMode && start.scrollback == []
    ensures start.cursorRow == 0 && start.cursorCol == 0 && start.rows == 1 && start.cols == 2
    ensures start.pen == DEFAULT_PEN
  {
    assert BlankRow(2, Default).cells == [DEFAULT_CELL, DEFAULT_CELL];
  }
}
