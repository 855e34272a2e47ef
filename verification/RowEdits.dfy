/** Character edits inside one row: the in-place loops and their closed forms.
    ICH is section 8.3.64 of ECMA-48, DCH section 8.3.26. */
module RowEdits {
  import opened Sequences
  import opened Cells

  /** How many cells an edit of `n` cells at `col` really touches. */
  function Span(len: nat, col: nat, n: nat): nat {
    Min(n, Monus(len, col))
  }

  /** Cells from `col` on move right by `n`; those pushed past the end are lost. */
  function InsertCells(cells: seq<Cell>, col: nat, n: nat, blank: Cell): (r: seq<Cell>)
    ensures |r| == |cells|
  {
    if col >= |cells| then cells else
      var k := Span(|cells|, col, n);
      cells[..col] + Repeat(blank, k) + cells[col..|cells| - k]
  }

  /** `n` cells at `col` are removed, the rest close up, blanks enter at the end. */
  function DeleteCells(cells: seq<Cell>, col: nat, n: nat, blank: Cell): (r: seq<Cell>)
    ensures |r| == |cells|
  {
    if col >= |cells| then cells else
      var k := Span(|cells|, col, n);
      cells[..col] + cells[col + k..] + Repeat(blank, k)
  }

  /** Cells in `[from, to)` become blank; indices past the row are ignored. */
  function EraseCells(cells: seq<Cell>, from: nat, to: nat, blank: Cell): (r: seq<Cell>)
    ensures |r| == |cells|
    ensures forall i :: 0 <= i < |r| ==> r[i] == if from <= i < to then blank else cells[i]
  {
    seq(|cells|, i requires 0 <= i < |cells| => if from <= i < to then blank else cells[i])
  }

  /** Backward shift: each cell from the right end takes the one `n` to its left,
      leaving a default cell behind, then the gap is filled. */
  method ShiftRight(cells: seq<Cell>, col: nat, n: nat, blank: Cell) returns (r: seq<Cell>)
    ensures r == InsertCells(cells, col, n, blank)
  {
    r := cells;
    var i := |cells|;
    while col + n < i
      invariant |r| == |cells|
      invariant i <= |cells|
      invariant forall j :: 0 <= j < |cells| && (j < col || (j < i - n && j < i)) ==> r[j] == cells[j]
      invariant forall j :: 0 <= j < |cells| && i <= j && col + n <= j ==> r[j] == cells[j - n]
    {
      i := i - 1;
      r := r[i - n := DEFAULT_CELL][i := r[i - n]];
    }
    i := col;
    ghost var shifted := r;
    while i < Min(col + n, |cells|)
      invariant |r| == |cells|
      invariant col <= i <= col + n
      invariant forall j :: 0 <= j < |cells| ==> r[j] == if col <= j < i then blank else shifted[j]
    {
      r := r[i := blank];
      i := i + 1;
    }
    ghost var goal := InsertCells(cells, col, n, blank);
    forall j | 0 <= j < |cells| ensures r[j] == goal[j] {
      if col + n <= j {
        assert shifted[j] == cells[j - n];
      }
    }
  }

  /** Forward shift: each cell takes the one `n` to its right, which is blanked;
      cells with nothing to take are blanked. */
  method ShiftLeft(cells: seq<Cell>, col: nat, n: nat, blank: Cell) returns (r: seq<Cell>)
    ensures r == DeleteCells(cells, col, n, blank)
  {
    r := cells;
    var i := col;
    while i < |cells|
      invariant |r| == |cells|
      invariant col <= i
      invariant forall j :: 0 <= j < |cells| && j < col ==> r[j] == cells[j]
      invariant forall j :: col <= j < i && j < |cells| ==> r[j] == if j + n < |cells| then cells[j + n] else blank
      invariant forall j :: i + n <= j < |cells| ==> r[j] == cells[j]
    {
      if i + n < |cells| {
        r := r[i + n := blank][i := r[i + n]];
      } else {
        r := r[i := blank];
      }
      i := i + 1;
    }
  }

  /** Erases `count` cells from `col`, skipping columns past the row. */
  method EraseRun(cells: seq<Cell>, col: nat, count: nat, blank: Cell) returns (r: seq<Cell>)
    ensures r == EraseCells(cells, col, col + count, blank)
  {
    r := cells;
    for i := 0 to count
      invariant |r| == |cells|
      invariant forall j :: 0 <= j < |cells| ==> r[j] == if col <= j < col + i then blank else cells[j]
    {
      if col + i < |r| {
        r := r[col + i := blank];
      }
    }
  }

  /** Neither edit touches a cell left of the cursor, for any column and count. */
  lemma EditsKeepLeftOfCursor(cells: seq<Cell>, col: nat, n: nat, blank: Cell)
    ensures var left := Min(col, |cells|);
            InsertCells(cells, col, n, blank)[..left] == cells[..left] &&
            DeleteCells(cells, col, n, blank)[..left] == cells[..left]
  {
    if col < |cells| {
      assert InsertCells(cells, col, n, blank)[..col] == cells[..col];
      assert DeleteCells(cells, col, n, blank)[..col] == cells[..col];
    }
  }

  /** DCH n undoes ICH n, except that the cells ICH pushed off come back erased. */
  lemma DeleteUndoesInsert(cells: seq<Cell>, col: nat, n: nat, blank: Cell)
    ensures var k := Span(|cells|, col, n);
            DeleteCells(InsertCells(cells, col, n, blank), col, n, blank)
            == cells[..|cells| - k] + Repeat(blank, k)
  {
    var k := Span(|cells|, col, n);
    if col < |cells| {
      var ins := InsertCells(cells, col, n, blank);
      assert ins[..col] == cells[..col];
      assert ins[col + k..] == cells[col..|cells| - k];
      assert cells[..col] + cells[col..|cells| - k] == cells[..|cells| - k];
    }
  }

  /** ICH n undoes DCH n, except that the cells DCH removed come back erased. */
  lemma InsertUndoesDelete(cells: seq<Cell>, col: nat, n: nat, blank: Cell)
    ensures InsertCells(DeleteCells(cells, col, n, blank), col, n, blank)
            == EraseCells(cells, col, col + n, blank)
  {
    var k := Span(|cells|, col, n);
    if col < |cells| {
      var del := DeleteCells(cells, col, n, blank);
      assert del[..col] == cells[..col];
      assert del[col..|cells| - k] == cells[col + k..];
    }
  }

  lemma InsertCellsAt(cells: seq<Cell>, col: nat, n: nat, blank: Cell, j: nat)
    requires col <= j < |cells|
    ensures InsertCells(cells, col, n, blank)[j] == if j < col + n then blank else cells[j - n]
  {
  }

  lemma DeleteCellsAt(cells: seq<Cell>, col: nat, n: nat, blank: Cell, j: nat)
    requires col <= j < |cells|
    ensures DeleteCells(cells, col, n, blank)[j] == if j + n < |cells| then cells[j + n] else blank
  {
  }

  /** One insertion of m + n cells equals one of n followed by one of m. */
  lemma InsertionsAdd(cells: seq<Cell>, col: nat, m: nat, n: nat, blank: Cell)
    ensures InsertCells(InsertCells(cells, col, n, blank), col, m, blank) == InsertCells(cells, col, m + n, blank)
  {
    var once := InsertCells(cells, col, n, blank);
    var twice, whole := InsertCells(once, col, m, blank), InsertCells(cells, col, m + n, blank);
    EditsKeepLeftOfCursor(cells, col, n, blank);
    EditsKeepLeftOfCursor(once, col, m, blank);
    EditsKeepLeftOfCursor(cells, col, m + n, blank);
    hide InsertCells, DeleteCells;
    var left := Min(col, |cells|);
    assert twice[..left] == whole[..left];
    forall j | col <= j < |cells| ensures twice[j] == whole[j] {
      InsertCellsAt(once, col, m, blank, j);
      InsertCellsAt(cells, col, m + n, blank, j);
      if j >= col + m { InsertCellsAt(cells, col, n, blank, j - m); }
    }
    SamePrefixAndRest(twice, whole, left);
  }

  /** One deletion of m + n cells equals one of n followed by one of m. */
  lemma DeletionsAdd(cells: seq<Cell>, col: nat, m: nat, n: nat, blank: Cell)
    ensures DeleteCells(DeleteCells(cells, col, n, blank), col, m, blank) == DeleteCells(cells, col, m + n, blank)
  {
    var once := DeleteCells(cells, col, n, blank);
    var twice, whole := DeleteCells(once, col, m, blank), DeleteCells(cells, col, m + n, blank);
    EditsKeepLeftOfCursor(cells, col, n, blank);
    EditsKeepLeftOfCursor(once, col, m, blank);
    EditsKeepLeftOfCursor(cells, col, m + n, blank);
    hide InsertCells, DeleteCells;
    var left := Min(col, |cells|);
    assert twice[..left] == whole[..left];
    forall j | col <= j < |cells| ensures twice[j] == whole[j] {
      DeleteCellsAt(once, col, m, blank, j);
      DeleteCellsAt(cells, col, m + n, blank, j);
      if j + m < |cells| { DeleteCellsAt(cells, col, n, blank, j + m); }
    }
    SamePrefixAndRest(twice, whole, left);
  }

  lemma SamePrefixAndRest(a: seq<Cell>, b: seq<Cell>, left: nat)
    requires left <= |a| == |b| && a[..left] == b[..left]
    requires forall j :: left <= j < |a| ==> a[j] == b[j]
    ensures a == b
  {
    assert a[left..] == b[left..];
    assert a == a[..left] + a[left..] && b == b[..left] + b[left..];
  }
}
