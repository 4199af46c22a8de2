/**
 Locating the header row: the first of rows 1..19 that holds a cell whose
 trimmed text is "Scheme Name" (main.py, the three `for r in range(1, 20)`
 searches).
 */
module HeaderSearch {
  import opened Cells
  import opened Labels
  import opened Sheets
  import opened HeaderText

  /** The last row searched: `range(1, 20)` stops before 20. */
  const SearchLimit: int := 19

  /** A cell that marks the header row. */
  predicate IsAnchorCell(v: Value)
  {
    ReadsAs(v, Anchor)
  }

  /** The anchor cells are exactly the cells with `str(c.value).strip() == "Scheme Name"`. */
  lemma AnchorCellReading(v: Value)
    ensures IsAnchorCell(v) <==> CellText(v) == Anchor
  {
    AnchorMapsToItself();
    LabelReading(v, Anchor);
  }

  /** Row `row` of `g`, as `sheet[row]` yields it, holds an anchor cell. */
  predicate HasAnchor(g: Grid, row: int)
  {
    exists c :: 1 <= c <= g.maxCol && IsAnchorCell(g.Get(row, c))
  }

  /** The search from row `from` on. */
  function HeaderRowFrom(g: Grid, from: int): (r: int)
    requires 1 <= from <= SearchLimit + 1
    ensures r == -1 || from <= r <= SearchLimit
    ensures r != -1 ==> HasAnchor(g, r) && forall q :: from <= q < r ==> !HasAnchor(g, q)
    ensures r == -1 ==> forall q :: from <= q <= SearchLimit ==> !HasAnchor(g, q)
    decreases SearchLimit + 1 - from
  {
    if from > SearchLimit then -1
    else if HasAnchor(g, from) then from
    else HeaderRowFrom(g, from + 1)
  }

  /** The header row of `g`: the smallest row in 1..19 holding an anchor cell,
      or -1 when no such row exists. */
  function HeaderRow(g: Grid): (r: int)
    ensures r == -1 || 1 <= r <= SearchLimit
    ensures r != -1 ==> HasAnchor(g, r) && forall q :: 1 <= q < r ==> !HasAnchor(g, q)
    ensures r == -1 ==> forall q :: 1 <= q <= SearchLimit ==> !HasAnchor(g, q)
  {
    HeaderRowFrom(g, 1)
  }

  /** The header row is a held, non-empty cell's row, so it lies within the extent. */
  lemma HeaderRowWithinSheet(g: Grid)
    requires g.Valid() && HeaderRow(g) != -1
    ensures 1 <= HeaderRow(g) <= g.maxRow
  {
  }

  /** The script's nested search: rows 1..19, and within a row every cell of
      `sheet[row]` until the anchor is seen; -1 when it is never seen. */
  method LocateHeaderRow(g: Grid) returns (header: int)
    ensures header == HeaderRow(g)
  {
    header := -1;
    for row := 1 to SearchLimit + 1
      invariant header == -1
      invariant forall q :: 1 <= q < row ==> !HasAnchor(g, q)
    {
      var cells := g.RowCells(row);
      for i := 0 to |cells|
        invariant header == -1 ==> forall j :: 0 <= j < i ==> !IsAnchorCell(cells[j])
        invariant header != -1 ==> header == row && HasAnchor(g, row)
      {
        if IsAnchorCell(cells[i]) {
          assert IsAnchorCell(g.Get(row, i + 1));
          assert HasAnchor(g, row);
          header := row;
          break;
        }
      }
      if header != -1 {
        assert HeaderRow(g) != -1 ==> HeaderRow(g) >= row;
        break;
      }
      forall c | 1 <= c <= g.maxCol
        ensures !IsAnchorCell(g.Get(row, c))
      {
        assert cells[c - 1] == g.Get(row, c);
      }
    }
  }
}
