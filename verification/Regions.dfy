/** Vertical edits of a block of rows: scrolling by swaps, line insertion and
    deletion by remove/insert, and the closed forms they refine.
    SU is section 8.3.147 of ECMA-48, SD 8.3.113, IL 8.3.67, DL 8.3.32. */
module Regions {
  import opened Sequences
  import opened Cells

  /** The rows of the region followed by `n` blanks. */
  function Tape(grid: seq<Row>, top: nat, bottom: nat, n: nat, blank: Row): (t: seq<Row>)
    requires top <= bottom < |grid|
    ensures |t| == bottom + 1 - top + n
  {
    grid[top..bottom + 1] + Repeat(blank, n)
  }

  /** The region shows the tape moved up by `n`; the rest of the grid stays. */
  function RegionUp(grid: seq<Row>, top: nat, bottom: nat, n: nat, blank: Row): (g: seq<Row>)
    requires top <= bottom < |grid|
    ensures |g| == |grid|
  {
    grid[..top] + Tape(grid, top, bottom, n, blank)[n..] + grid[bottom + 1..]
  }

  /** The rows that leave the region at its top when it moves up by `n`. */
  function MovedOut(grid: seq<Row>, top: nat, bottom: nat, n: nat, blank: Row): (rows: seq<Row>)
    requires top <= bottom < |grid|
    ensures |rows| == n
  {
    Tape(grid, top, bottom, n, blank)[..n]
  }

  /** The region moved down by `n`, blanks entering at its top. */
  function RegionDown(grid: seq<Row>, top: nat, bottom: nat, n: nat, blank: Row): (g: seq<Row>)
    requires top <= bottom < |grid|
    ensures |g| == |grid|
  {
    grid[..top] + (Repeat(blank, n) + grid[top..bottom + 1])[..bottom + 1 - top] + grid[bottom + 1..]
  }

  /** Row by row, what moving a region up or down does. */
  lemma RegionsAt(grid: seq<Row>, top: nat, bottom: nat, n: nat, blank: Row, j: nat)
    requires top <= bottom < |grid| && j < |grid|
    ensures RegionUp(grid, top, bottom, n, blank)[j]
            == if top <= j <= bottom then (if j + n <= bottom then grid[j + n] else blank) else grid[j]
    ensures RegionDown(grid, top, bottom, n, blank)[j]
            == if top <= j <= bottom then (if top + n <= j then grid[j - n] else blank) else grid[j]
  {
    if top <= j <= bottom {
      assert RegionUp(grid, top, bottom, n, blank)[j] == Tape(grid, top, bottom, n, blank)[n + j - top];
      assert RegionDown(grid, top, bottom, n, blank)[j] == (Repeat(blank, n) + grid[top..bottom + 1])[j - top];
    }
  }

  lemma RegionsKeepShape(grid: seq<Row>, top: nat, bottom: nat, n: nat, blank: Row, rows: nat, cols: nat)
    requires top <= bottom < |grid| && GridOk(grid, rows, cols) && |blank.cells| == cols
    ensures GridOk(RegionUp(grid, top, bottom, n, blank), rows, cols)
    ensures GridOk(RegionDown(grid, top, bottom, n, blank), rows, cols)
  {
    var u, d := RegionUp(grid, top, bottom, n, blank), RegionDown(grid, top, bottom, n, blank);
    hide RegionUp, RegionDown;
    forall i | 0 <= i < |grid| ensures |u[i].cells| == cols && |d[i].cells| == cols {
      RegionsAt(grid, top, bottom, n, blank, i);
    }
  }

  /** Replaces the top row by `blank` and swaps it down to the bottom, row by row. */
  method BubbleDown(grid: seq<Row>, top: nat, bottom: nat, blank: Row) returns (g: seq<Row>)
    requires top <= bottom < |grid|
    ensures g == RegionUp(grid, top, bottom, 1, blank)
  {
    g := grid[top := blank];
    for i := top to bottom
      invariant |g| == |grid|
      invariant forall j :: top <= j < i ==> g[j] == grid[j + 1]
      invariant g[i] == blank
      invariant forall j :: 0 <= j < |grid| && (j < top || i < j) ==> g[j] == grid[j]
    {
      g := g[i := g[i + 1]][i + 1 := g[i]];
    }
    assert g == RegionUp(grid, top, bottom, 1, blank) by {
      ghost var e := RegionUp(grid, top, bottom, 1, blank);
      forall j | 0 <= j < |grid| ensures g[j] == e[j] { RegionsAt(grid, top, bottom, 1, blank, j); }
    }
  }

  /** Replaces the bottom row by `blank` and swaps it up to the top. */
  method BubbleUp(grid: seq<Row>, top: nat, bottom: nat, blank: Row) returns (g: seq<Row>)
    requires top <= bottom < |grid|
    ensures g == RegionDown(grid, top, bottom, 1, blank)
  {
    g := grid[bottom := blank];
    for i := bottom downto top
      invariant |g| == |grid|
      invariant forall j :: i < j <= bottom ==> g[j] == grid[j - 1]
      invariant g[i] == blank
      invariant forall j :: 0 <= j < |grid| && (j < i || bottom < j) ==> g[j] == grid[j]
    {
      g := g[i + 1 := g[i]][i := g[i + 1]];
    }
    assert g == RegionDown(grid, top, bottom, 1, blank) by {
      ghost var e := RegionDown(grid, top, bottom, 1, blank);
      forall j | 0 <= j < |grid| ensures g[j] == e[j] { RegionsAt(grid, top, bottom, 1, blank, j); }
    }
  }

  /** The element at `i` taken out, as `Vec::remove` does. */
  function RemoveAt<T>(s: seq<T>, i: nat): seq<T>
    requires i < |s|
  {
    s[..i] + s[i + 1..]
  }

  /** `x` put in before position `i`, as `Vec::insert` does. */
  function InsertAt<T>(s: seq<T>, i: nat, x: T): seq<T>
    requires i <= |s|
  {
    s[..i] + [x] + s[i..]
  }

  /** Moving up loses nothing: what left, then the region, is the old region and the blanks. */
  lemma RegionUpConserves(grid: seq<Row>, top: nat, bottom: nat, n: nat, blank: Row)
    requires top <= bottom < |grid|
    ensures var g := RegionUp(grid, top, bottom, n, blank);
            && MovedOut(grid, top, bottom, n, blank) + g[top..bottom + 1] == grid[top..bottom + 1] + Repeat(blank, n)
            && g[..top] == grid[..top] && g[bottom + 1..] == grid[bottom + 1..]
  {
    var tape := Tape(grid, top, bottom, n, blank);
    assert RegionUp(grid, top, bottom, n, blank)[top..bottom + 1] == tape[n..];
    assert tape == tape[..n] + tape[n..];
  }

  lemma {:induction false} RegionUpAdd(grid: seq<Row>, top: nat, bottom: nat, m: nat, n: nat, blank: Row)
    requires top <= bottom < |grid|
    ensures RegionUp(RegionUp(grid, top, bottom, n, blank), top, bottom, m, blank)
            == RegionUp(grid, top, bottom, m + n, blank)
    ensures MovedOut(grid, top, bottom, n, blank)
            + MovedOut(RegionUp(grid, top, bottom, n, blank), top, bottom, m, blank)
            == MovedOut(grid, top, bottom, m + n, blank)
  {
    var g := RegionUp(grid, top, bottom, n, blank);
    assert g[top..bottom + 1] == Tape(grid, top, bottom, n, blank)[n..];
    var t1, t2 := Tape(g, top, bottom, m, blank), Tape(grid, top, bottom, m + n, blank);
    forall j | 0 <= j < |t1| ensures t1[j] == t2[n + j] {}
    assert t1[m..] == t2[m + n..];
    assert t2[..m + n] == t2[..n] + t1[..m];
    assert t2[..n] == Tape(grid, top, bottom, n, blank)[..n];
    assert g[..top] == grid[..top] && g[bottom + 1..] == grid[bottom + 1..];
  }

  lemma RegionDownAdd(grid: seq<Row>, top: nat, bottom: nat, m: nat, n: nat, blank: Row)
    requires top <= bottom < |grid|
    ensures RegionDown(RegionDown(grid, top, bottom, n, blank), top, bottom, m, blank)
            == RegionDown(grid, top, bottom, m + n, blank)
  {
    var g := RegionDown(grid, top, bottom, n, blank);
    var a, b := RegionDown(g, top, bottom, m, blank), RegionDown(grid, top, bottom, m + n, blank);
    hide RegionUp, RegionDown;
    forall j | 0 <= j < |grid| ensures a[j] == b[j] {
      RegionsAt(g, top, bottom, m, blank, j);
      RegionsAt(grid, top, bottom, m + n, blank, j);
      if j >= m { RegionsAt(grid, top, bottom, n, blank, j - m); }
    }
  }

  /** Scrolling up undoes scrolling down, except that the rows pushed past the
      bottom come back blank. */
  lemma UpUndoesDown(grid: seq<Row>, top: nat, bottom: nat, n: nat, blank: Row)
    requires top <= bottom < |grid|
    ensures var k := Min(n, bottom + 1 - top);
            RegionUp(RegionDown(grid, top, bottom, n, blank), top, bottom, n, blank)
            == grid[..bottom + 1 - k] + Repeat(blank, k) + grid[bottom + 1..]
  {
    var k := Min(n, bottom + 1 - top);
    var u := RegionUp(RegionDown(grid, top, bottom, n, blank), top, bottom, n, blank);
    var e := grid[..bottom + 1 - k] + Repeat(blank, k) + grid[bottom + 1..];
    forall j | 0 <= j < |grid| ensures u[j] == e[j] {
      UpAfterDownAt(grid, top, bottom, n, blank, j);
    }
  }

  lemma UpAfterDownAt(grid: seq<Row>, top: nat, bottom: nat, n: nat, blank: Row, j: nat)
    requires top <= bottom < |grid| && j < |grid|
    ensures RegionUp(RegionDown(grid, top, bottom, n, blank), top, bottom, n, blank)[j]
            == if top <= j <= bottom && bottom < j + n then blank else grid[j]
  {
    hide RegionUp, RegionDown;
    RegionsAt(RegionDown(grid, top, bottom, n, blank), top, bottom, n, blank, j);
    RegionsAt(grid, top, bottom, n, blank, j);
    if j + n < |grid| { RegionsAt(grid, top, bottom, n, blank, j + n); }
  }

  /** Delete lines: repeatedly remove the row at `at`, insert a blank at `bottom`. */
  method RemoveThenInsert(grid: seq<Row>, at: nat, bottom: nat, count: nat, blank: Row) returns (g: seq<Row>)
    requires at <= bottom < |grid|
    ensures g == RegionUp(grid, at, bottom, count, blank)
  {
    g := grid;
    for i := 0 to count
      invariant |g| == |grid| && g == RegionUp(grid, at, bottom, i, blank)
    {
      ghost var before := g;
      g := RemoveAt(g, at);
      g := InsertAt(g, bottom, blank);
      assert g == RegionUp(before, at, bottom, 1, blank);
      RegionUpAdd(grid, at, bottom, 1, i, blank);
    }
  }

  /** Insert lines: repeatedly remove the row at `bottom`, insert a blank at `at`,
      but only while `bottom` is not row 0. */
  method RemoveThenInsertAbove(grid: seq<Row>, at: nat, bottom: nat, count: nat, blank: Row) returns (g: seq<Row>)
    requires at <= bottom < |grid|
    ensures g == if bottom > 0 then RegionDown(grid, at, bottom, count, blank) else grid
  {
    g := grid;
    for i := 0 to count
      invariant |g| == |grid|
      invariant g == if bottom > 0 then RegionDown(grid, at, bottom, i, blank) else grid
    {
      if bottom > 0 {
        ghost var before := g;
        g := RemoveAt(g, bottom);
        g := InsertAt(g, at, blank);
        assert g == RegionDown(before, at, bottom, 1, blank);
        RegionDownAdd(grid, at, bottom, 1, i, blank);
      }
    }
  }
}
