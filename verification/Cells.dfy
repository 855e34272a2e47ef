/** Cells and rows of the screen grid. */
module Cells {
  import opened Sequences

  datatype Color = Default | Named(id: nat) | Indexed(index: nat) | Spec(red: nat, green: nat, blue: nat)

  datatype Cell = Cell(
    character: char,
    fg: Color,
    bg: Color,
    flags: bv8,
    wide: bool,      // first cell of a wide character
    wideNext: bool)  // continuation cell of a wide character

  datatype Row = Row(cells: seq<Cell>, wrapped: bool)

  /** An erased cell keeps the background it was erased with and nothing else. */
  function Erased(bg: Color): Cell {
    Cell(' ', Default, bg, 0, false, false)
  }

  const DEFAULT_CELL: Cell := Erased(Default)

  function BlankRow(cols: nat, bg: Color): Row {
    Row(Repeat(Erased(bg), cols), false)
  }

  function BlankGrid(rows: nat, cols: nat): (g: seq<Row>)
    ensures GridOk(g, rows, cols)
  {
    Repeat(BlankRow(cols, Default), rows)
  }

  /** `rows` rows of exactly `cols` cells each. */
  predicate GridOk(grid: seq<Row>, rows: nat, cols: nat) {
    |grid| == rows && forall i :: 0 <= i < |grid| ==> |grid[i].cells| == cols
  }

  /** The cells of a list of rows, in reading order. */
  function CellsOf(rows: seq<Row>): seq<Cell> {
    if rows == [] then [] else rows[0].cells + CellsOf(rows[1..])
  }

  lemma {:induction false} CellsOfAppend(a: seq<Row>, b: seq<Row>)
    ensures CellsOf(a + b) == CellsOf(a) + CellsOf(b)
  {
    if a == [] {
      assert a + b == b;
    } else {
      assert (a + b)[1..] == a[1..] + b;
      CellsOfAppend(a[1..], b);
    }
  }

  lemma CellsOfSnoc(a: seq<Row>, r: Row)
    ensures CellsOf(a + [r]) == CellsOf(a) + r.cells
  {
    CellsOfAppend(a, [r]);
    assert CellsOf([r]) == r.cells + CellsOf([]);
  }
}
