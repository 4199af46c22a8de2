/**
 The two column maps of a sheet pair (main.py, lines 133-137 and 146-150):
 from standard field name to the 1-based column of the header row that holds
 its label, plus the reserved field "AUM" for the column dated on the master
 date's calendar day.
 */
module ColumnMaps {
  import opened Optional
  import opened Cells
  import opened Labels
  import opened Sheets
  import opened HeaderText

  /** Column `c` of header row `row` carries a raw label whose standard name is `s`. */
  predicate LabelsColumn(g: Grid, row: int, c: int, s: string)
  {
    IsLabelCell(g.Get(row, c)) && RawToStandard[Strip(g.Get(row, c).s)] == s
  }

  /** In the script's own terms: `str(cell.value).strip()` is a raw label that maps to `s`. */
  lemma LabelsColumnReading(g: Grid, row: int, c: int, s: string)
    ensures LabelsColumn(g, row, c, s) <==>
      CellText(g.Get(row, c)) in RawToStandard && RawToStandard[CellText(g.Get(row, c))] == s
  {
    LabelCellReading(g.Get(row, c));
  }

  // ---------------------------------------------------------------------------
  // raw_col_map

  /** The dict comprehension of lines 133-135 over columns 1..n: every label cell
      maps its standard name to its column, a later column overwriting an earlier one.
      So each name lands on the rightmost column labelled with it. */
  function RawLabelColumnsUpTo(g: Grid, row: int, n: nat): (m: map<string, int>)
    ensures forall s :: s in m ==> 1 <= m[s] <= n && LabelsColumn(g, row, m[s], s)
    ensures forall s, c :: 1 <= c <= n && LabelsColumn(g, row, c, s) ==> s in m && c <= m[s]
  {
    if n == 0 then map[]
    else
      var m := RawLabelColumnsUpTo(g, row, n - 1);
      var v := g.Get(row, n);
      if IsLabelCell(v) then m[RawToStandard[Strip(v.s)] := n] else m
  }

  /** The comprehension over the whole of `sheet[row]`. */
  function RawLabelColumns(g: Grid, row: int): map<string, int>
  {
    RawLabelColumnsUpTo(g, row, g.maxCol)
  }

  /** A header cell holding a timestamp on the master date's calendar day. */
  predicate OnMasterDay(v: Value, master: DateTime)
  {
    v.Date? && v.stamp.date == master.date
  }

  /** The first column from `from` on whose header cell is on the master day. */
  function FirstMasterDayColumnFrom(g: Grid, row: int, master: DateTime, from: int): (r: Option<int>)
    requires from >= 1
    ensures r.Some? ==> from <= r.value <= g.maxCol && OnMasterDay(g.Get(row, r.value), master)
    ensures r.Some? ==> forall c :: from <= c < r.value ==> !OnMasterDay(g.Get(row, c), master)
    ensures r.None? ==> forall c :: from <= c <= g.maxCol ==> !OnMasterDay(g.Get(row, c), master)
    decreases g.maxCol + 1 - from
  {
    if from > g.maxCol then None
    else if OnMasterDay(g.Get(row, from), master) then Some(from)
    else FirstMasterDayColumnFrom(g, row, master, from + 1)
  }

  /** The leftmost header column on the master day, if there is one. */
  function FirstMasterDayColumn(g: Grid, row: int, master: DateTime): Option<int>
  {
    FirstMasterDayColumnFrom(g, row, master, 1)
  }

  /** The `for col, cell in enumerate(...)` loop that stops at the first cell on the master day. */
  method LocateMasterDayColumn(g: Grid, row: int, master: DateTime) returns (col: Option<int>)
    ensures col == FirstMasterDayColumn(g, row, master)
  {
    col := None;
    var cells := g.RowCells(row);
    for i := 0 to |cells|
      invariant forall j :: 0 <= j < i ==> !OnMasterDay(cells[j], master)
    {
      if OnMasterDay(cells[i], master) {
        col := Some(i + 1);
        assert forall c :: 1 <= c < i + 1 ==> cells[c - 1] == g.Get(row, c);
        return;
      }
    }
    assert forall c :: 1 <= c <= g.maxCol ==> cells[c - 1] == g.Get(row, c);
  }

  /** `map` with "AUM" set to the master-day column, when there is one. */
  function WithMasterDay(m: map<string, int>, g: Grid, row: int, master: DateTime): map<string, int>
  {
    match FirstMasterDayColumn(g, row, master)
    case Some(c) => m[Aum := c]
    case None => m
  }

  /** `raw_col_map` for header row `row`. */
  function RawColumnMap(g: Grid, row: int, master: DateTime): map<string, int>
  {
    WithMasterDay(RawLabelColumns(g, row), g, row, master)
  }

  /** A standard field is mapped exactly when some header column is labelled with it,
      and then to the rightmost such column; "AUM" is mapped exactly when some header
      cell is on the master day, and then to the leftmost such column. */
  lemma RawColumnMapSpec(g: Grid, row: int, master: DateTime)
    ensures forall s :: s != Aum ==>
      (s in RawColumnMap(g, row, master) <==> exists c :: 1 <= c <= g.maxCol && LabelsColumn(g, row, c, s))
    ensures forall s :: s in RawColumnMap(g, row, master) && s != Aum ==>
      var c := RawColumnMap(g, row, master)[s];
      1 <= c <= g.maxCol && LabelsColumn(g, row, c, s) &&
      forall c' :: c < c' <= g.maxCol ==> !LabelsColumn(g, row, c', s)
    ensures Aum in RawColumnMap(g, row, master) <==>
      exists c :: 1 <= c <= g.maxCol && OnMasterDay(g.Get(row, c), master)
    ensures Aum in RawColumnMap(g, row, master) ==>
      var c := RawColumnMap(g, row, master)[Aum];
      1 <= c <= g.maxCol && OnMasterDay(g.Get(row, c), master) &&
      forall c' :: 1 <= c' < c ==> !OnMasterDay(g.Get(row, c'), master)
  {
    var m := RawLabelColumns(g, row);
    AumIsNoStandardName();
    assert Aum !in m;
  }

  // ---------------------------------------------------------------------------
  // dest_col_map

  /** The rightmost column in 1..n whose header cell reads `k`. */
  function LastColumnReading(g: Grid, row: int, k: string, n: nat): (r: Option<int>)
    ensures r.Some? ==> 1 <= r.value <= n && ReadsAs(g.Get(row, r.value), k)
    ensures r.Some? ==> forall c :: r.value < c <= n ==> !ReadsAs(g.Get(row, c), k)
    ensures r.None? ==> forall c :: 1 <= c <= n ==> !ReadsAs(g.Get(row, c), k)
  {
    if n == 0 then None
    else if ReadsAs(g.Get(row, n), k) then Some(n)
    else LastColumnReading(g, row, k, n - 1)
  }

  /** The dict comprehension of lines 146-147: for each standard name, every column whose
      text is its template label, the last one kept. */
  function DestLabelColumns(g: Grid, row: int): map<string, int>
  {
    map s | s in StandardToTemplate && LastColumnReading(g, row, StandardToTemplate[s], g.maxCol).Some? ::
      LastColumnReading(g, row, StandardToTemplate[s], g.maxCol).value
  }

  /** `dest_col_map` for header row `row`. */
  function DestColumnMap(g: Grid, row: int, master: DateTime): map<string, int>
  {
    WithMasterDay(DestLabelColumns(g, row), g, row, master)
  }

  /** The template comprehension, though written through the other table, picks the same
      columns as the raw one: the tables are inverse, so a template label of `s` is a
      raw label that maps to `s`. */
  lemma DestLabelsAreRawLabels(g: Grid, row: int)
    ensures DestLabelColumns(g, row) == RawLabelColumns(g, row)
  {
    var d := DestLabelColumns(g, row);
    var m := RawLabelColumns(g, row);
    EveryEntryPaired();
    EveryStandardPaired();
    forall s | s in d
      ensures s in m && m[s] == d[s]
    {
      var c := d[s];
      assert LabelsColumn(g, row, c, s);
      var c' := m[s];
      assert ReadsAs(g.Get(row, c'), StandardToTemplate[s]);
    }
    forall s | s in m
      ensures s in d
    {
      assert ReadsAs(g.Get(row, m[s]), StandardToTemplate[s]);
    }
  }

  /** So both maps of a header row are the same map. */
  lemma DestMapIsRawMap(g: Grid, row: int, master: DateTime)
    ensures DestColumnMap(g, row, master) == RawColumnMap(g, row, master)
  {
    DestLabelsAreRawLabels(g, row);
  }

  /** No two fields of a column map share a column: a label cell names one field,
      and the "AUM" column holds a timestamp, not a label. */
  lemma ColumnMapInjective(g: Grid, row: int, master: DateTime)
    ensures forall s1, s2 :: s1 in RawColumnMap(g, row, master) && s2 in RawColumnMap(g, row, master) && s1 != s2 ==>
      RawColumnMap(g, row, master)[s1] != RawColumnMap(g, row, master)[s2]
  {
  }

  /** Every column of a column map lies inside the sheet. */
  lemma ColumnsInSheet(g: Grid, row: int, master: DateTime)
    ensures forall s :: s in RawColumnMap(g, row, master) ==> 1 <= RawColumnMap(g, row, master)[s] <= g.maxCol
  {
  }

  /** When the header row was found by its anchor cell, the anchor field is mapped:
      `raw_col_map.get("Scheme Name", 1)` never falls back to column 1. */
  lemma AnchorMapped(g: Grid, row: int, master: DateTime, c: int)
    requires 1 <= c <= g.maxCol && ReadsAs(g.Get(row, c), Anchor)
    ensures Anchor in RawColumnMap(g, row, master)
    ensures Anchor in DestColumnMap(g, row, master)
  {
    AnchorMapsToItself();
    RawColumnMapSpec(g, row, master);
    assert LabelsColumn(g, row, c, Anchor);
    DestMapIsRawMap(g, row, master);
  }
}
