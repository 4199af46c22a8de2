/**
 A worksheet as the transfer script uses it: cells addressed by 1-based
 (row, column), read with `sheet.cell(row, col).value` or a whole row at a
 time with `sheet[row]`, written with `sheet.cell(row, col).value = v`.
 */
module Sheets {
  import opened Cells

  function Max(a: int, b: int): int
  {
    if a < b then b else a
  }

  /** The cells a worksheet holds, keyed by (row, column), and its extent
      (`max_row`, `max_column`). A cell that is not held reads as `None`. */
  datatype Grid = Grid(cells: map<(int, int), Value>, maxRow: nat, maxCol: nat)
  {
    /** Every held cell lies inside the extent, so every row past `maxRow` is empty. */
    predicate Valid()
    {
      forall p :: p in cells ==> 1 <= p.0 <= maxRow && 1 <= p.1 <= maxCol
    }

    /** `sheet.cell(row, col).value`. */
    function Get(row: int, col: int): (v: Value)
      ensures Valid() && v != Empty ==> 1 <= row <= maxRow && 1 <= col <= maxCol
    {
      if (row, col) in cells then cells[(row, col)] else Empty
    }

    /** `sheet.cell(row, col).value = v`: the cell takes the value and the extent
        grows to cover it. */
    function Set(row: int, col: int, v: Value): (g: Grid)
      requires row >= 1 && col >= 1
      ensures g.Get(row, col) == v
      ensures forall r, c :: (r, c) != (row, col) ==> g.Get(r, c) == Get(r, c)
      ensures Valid() ==> g.Valid()
      ensures g.maxRow == Max(maxRow, row) && g.maxCol == Max(maxCol, col)
    {
      Grid(cells[(row, col) := v], Max(maxRow, row), Max(maxCol, col))
    }

    /** `sheet[row]`: the row's cells from column 1 to `max_column`; column `c`
        is at index `c - 1`. The ensures clauses only spell out this interface
        of openpyxl's row access for the loops that index the row. */
    function RowCells(row: int): (r: seq<Value>)
      ensures |r| == maxCol
      ensures forall i :: 0 <= i < maxCol ==> r[i] == Get(row, i + 1)
    {
      seq(maxCol, i requires 0 <= i < maxCol => Get(row, i + 1))
    }
  }

  /** A template worksheet, whose cells the script overwrites in place. */
  class Worksheet {
    var grid: Grid

    constructor (g: Grid)
      ensures grid == g
    {
      grid := g;
    }

    method SetCell(row: int, col: int, v: Value)
      requires row >= 1 && col >= 1
      modifies this
      ensures grid == old(grid).Set(row, col, v)
    {
      grid := grid.Set(row, col, v);
    }
  }
}
