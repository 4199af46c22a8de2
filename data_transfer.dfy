/**
 One sheet pair and the whole run (main.py, lines 94-190): after the master
 date is found, every raw sheet that is neither ignored nor missing from the
 template is matched to its template sheet, which is cleared and refilled in
 place; the run counts the rows written.
 */
module DataTransfer {
  import opened Optional
  import opened Cells
  import opened Labels
  import opened Sheets
  import opened HeaderText
  import opened HeaderSearch
  import opened ColumnMaps
  import opened MasterDate
  import opened Transfer

  /** What the script settles for a sheet pair before it writes anything: both header rows
      and both column maps. */
  datatype SheetPlan = SheetPlan(rawHeader: int, tplHeader: int, rawMap: map<string, int>, destMap: map<string, int>)

  /** The plan for a raw sheet and its template sheet; None when either has no header
      row, in which case the pair is skipped (lines 132 and 145). */
  function PlanSheet(raw: Grid, tpl: Grid, master: DateTime): Option<SheetPlan>
  {
    var hr := HeaderRow(raw);
    var ht := HeaderRow(tpl);
    if hr == -1 || ht == -1 then None
    else Some(SheetPlan(hr, ht, RawColumnMap(raw, hr, master), DestColumnMap(tpl, ht, master)))
  }

  /** `rows_on_this_sheet`: the run of truthy key cells under the raw header. */
  function RowsToWrite(raw: Grid, p: SheetPlan): nat
    requires raw.Valid()
  {
    RunLength(raw, p.rawHeader + 1, KeyColumn(p.rawMap))
  }

  /** `end_row_to_clear`: the row before the first falsy template key cell under the header,
      or the header row itself when the template has no key column. */
  function StaleEnd(tpl: Grid, p: SheetPlan): int
    requires tpl.Valid()
  {
    if Anchor in p.destMap then p.tplHeader + RunLength(tpl, p.tplHeader + 1, p.destMap[Anchor])
    else p.tplHeader
  }

  /** Both maps of a plan hold the anchor field, so the key column is never the default
      column 1 and the stale region is always scanned. */
  lemma PlanMapsAnchor(raw: Grid, tpl: Grid, master: DateTime)
    requires PlanSheet(raw, tpl, master).Some?
    ensures var p := PlanSheet(raw, tpl, master).value;
      Anchor in p.rawMap && KeyColumn(p.rawMap) == p.rawMap[Anchor] && Anchor in p.destMap
  {
    var p := PlanSheet(raw, tpl, master).value;
    var cr :| 1 <= cr <= raw.maxCol && IsAnchorCell(raw.Get(p.rawHeader, cr));
    var ct :| 1 <= ct <= tpl.maxCol && IsAnchorCell(tpl.Get(p.tplHeader, ct));
    AnchorMapped(raw, p.rawHeader, master, cr);
    AnchorMapped(tpl, p.tplHeader, master, ct);
  }

  /** The template columns of a plan are distinct and inside the template sheet. */
  lemma PlanColumns(raw: Grid, tpl: Grid, master: DateTime)
    requires PlanSheet(raw, tpl, master).Some?
    ensures var p := PlanSheet(raw, tpl, master).value;
      Injective(p.destMap) && forall s :: s in p.destMap ==> 1 <= p.destMap[s] <= tpl.maxCol
  {
    var ht := HeaderRow(tpl);
    DestMapIsRawMap(tpl, ht, master);
    ColumnMapInjective(tpl, ht, master);
    ColumnsInSheet(tpl, ht, master);
  }

  /** The stale region starts under the header and ends inside the sheet. */
  lemma StaleEndInSheet(tpl: Grid, p: SheetPlan)
    requires tpl.Valid() && p.tplHeader >= 1
    ensures p.tplHeader <= StaleEnd(tpl, p) <= Max(p.tplHeader, tpl.maxRow)
  {
  }

  /** The end state of a template sheet after a planned transfer: each written cell holds
      its raw value; every other cell in a mapped column of the stale rows is None; all
      other cells are as they were. */
  ghost predicate Transferred(raw: Grid, before: Grid, after: Grid, p: SheetPlan)
    requires raw.Valid() && before.Valid()
  {
    var n := RowsToWrite(raw, p);
    var e := StaleEnd(before, p);
    && after.Valid()
    && after.maxCol == before.maxCol
    && after.maxRow == (if n > 0 && SharedFields(p.rawMap, p.destMap) != {}
        then Max(before.maxRow, p.tplHeader + n) else before.maxRow)
    && (forall s, r :: s in SharedFields(p.rawMap, p.destMap) && p.tplHeader < r <= p.tplHeader + n ==>
        after.Get(r, p.destMap[s]) == raw.Get(p.rawHeader + (r - p.tplHeader), p.rawMap[s]))
    && (forall r, c :: !(p.tplHeader < r <= p.tplHeader + n && c in WrittenColumns(p.rawMap, p.destMap)) ==>
        after.Get(r, c) == if p.tplHeader < r <= e && c in p.destMap.Values then Empty else before.Get(r, c))
  }

  /** The outcome for a sheet pair: skipped and untouched without a plan, transferred with one. */
  ghost predicate SheetTransferred(raw: Grid, before: Grid, after: Grid, master: DateTime)
    requires raw.Valid() && before.Valid()
  {
    match PlanSheet(raw, before, master)
    case None => after == before
    case Some(p) => Transferred(raw, before, after, p)
  }

  /** The rows a sheet pair contributes: none when skipped. */
  function SheetRowsWritten(raw: Grid, tpl: Grid, master: DateTime): Option<nat>
    requires raw.Valid()
  {
    match PlanSheet(raw, tpl, master)
    case None => None
    case Some(p) => Some(RowsToWrite(raw, p))
  }

  /** Clearing the stale rows and then copying the raw rows over them ends in the state
      Transferred describes. */
  lemma ClearedThenCopied(raw: Grid, tpl: Grid, cleared: Grid, after: Grid, p: SheetPlan)
    requires raw.Valid() && tpl.Valid()
    requires cleared.maxRow == tpl.maxRow && cleared.maxCol == tpl.maxCol && after.Valid()
    requires forall r, c :: (cleared.Get(r, c) ==
      if p.tplHeader < r <= StaleEnd(tpl, p) && c in p.destMap.Values then Empty else tpl.Get(r, c))
    requires RowsCopied(cleared, after, raw, p.rawHeader, p.tplHeader, p.rawMap, p.destMap, RowsToWrite(raw, p))
    ensures Transferred(raw, tpl, after, p)
  {
  }

  /** A plan the transfer can carry out on template `tpl`: the anchor is mapped on both
      sides, the template columns are distinct and inside the sheet, and the header row
      lies inside the sheet. */
  predicate Workable(tpl: Grid, p: SheetPlan)
  {
    && Anchor in p.rawMap && Anchor in p.destMap
    && Injective(p.destMap)
    && (forall s :: s in p.destMap ==> 1 <= p.destMap[s] <= tpl.maxCol)
    && 1 <= p.tplHeader
  }

  /** Every plan the script makes is workable. */
  lemma PlanWorkable(raw: Grid, tpl: Grid, master: DateTime)
    requires PlanSheet(raw, tpl, master).Some?
    ensures Workable(tpl, PlanSheet(raw, tpl, master).value)
  {
    PlanMapsAnchor(raw, tpl, master);
    PlanColumns(raw, tpl, master);
  }

  /** Lines 127-150: both header searches and both column maps. */
  method MakePlan(raw: Grid, tpl: Grid, master: DateTime) returns (plan: Option<SheetPlan>)
    ensures plan == PlanSheet(raw, tpl, master)
  {
    var hr := LocateHeaderRow(raw);
    if hr == -1 {
      return None;
    }
    var rawMap := RawLabelColumns(raw, hr);
    var rawAum := LocateMasterDayColumn(raw, hr, master);
    if rawAum.Some? {
      rawMap := rawMap[Aum := rawAum.value];
    }
    var ht := LocateHeaderRow(tpl);
    if ht == -1 {
      return None;
    }
    var destMap := DestLabelColumns(tpl, ht);
    var destAum := LocateMasterDayColumn(tpl, ht, master);
    if destAum.Some? {
      destMap := destMap[Aum := destAum.value];
    }
    plan := Some(SheetPlan(hr, ht, rawMap, destMap));
  }

  /** Lines 153-170 for a workable plan: the mapped cells of the stale rows become None. */
  method ClearStale(ws: Worksheet, p: SheetPlan)
    requires ws.grid.Valid() && Workable(ws.grid, p)
    modifies ws
    ensures ws.grid.Valid()
    ensures ws.grid.maxRow == old(ws.grid.maxRow) && ws.grid.maxCol == old(ws.grid.maxCol)
    ensures forall r, c :: (ws.grid.Get(r, c) ==
      if p.tplHeader < r <= StaleEnd(old(ws.grid), p) && c in p.destMap.Values then Empty else old(ws.grid.Get(r, c)))
  {
    StaleEndInSheet(ws.grid, p);
    var start := p.tplHeader + 1;
    var keyCol := if Anchor in p.destMap then Some(p.destMap[Anchor]) else None;
    var end := FindStaleEnd(ws.grid, start, keyCol);
    if end >= start {
      ClearRows(ws, start, end, p.destMap);
    }
  }

  /** Lines 153-187 for a workable plan: clear the stale rows, then copy the raw rows. */
  method ApplyPlan(raw: Grid, ws: Worksheet, p: SheetPlan) returns (count: nat)
    requires raw.Valid() && ws.grid.Valid() && Workable(ws.grid, p)
    modifies ws
    ensures count == RowsToWrite(raw, p)
    ensures Transferred(raw, old(ws.grid), ws.grid, p)
  {
    ghost var tpl := ws.grid;
    ClearStale(ws, p);
    ghost var cleared := ws.grid;
    count := TransferRows(ws, raw, p.rawHeader, p.tplHeader, p.rawMap, p.destMap);
    ClearedThenCopied(raw, tpl, cleared, ws.grid, p);
  }

  /** Lines 120-187 for one sheet pair whose names matched: plan, then clear and copy; the
      result is the number of rows written, or None when the pair is skipped. */
  method ProcessSheet(raw: Grid, ws: Worksheet, master: DateTime) returns (written: Option<nat>)
    requires raw.Valid() && ws.grid.Valid()
    modifies ws
    ensures written == SheetRowsWritten(raw, old(ws.grid), master)
    ensures SheetTransferred(raw, old(ws.grid), ws.grid, master)
    ensures ws.grid.Valid()
  {
    var plan := MakePlan(raw, ws.grid, master);
    if plan.None? {
      return None;
    }
    PlanWorkable(raw, ws.grid, master);
    var n := ApplyPlan(raw, ws, plan.value);
    written := Some(n);
  }

  /** Outside the rows under the header, the cells of a transferred template are as they were. */
  lemma OnlyDataRowsChange(raw: Grid, before: Grid, after: Grid, p: SheetPlan)
    requires raw.Valid() && before.Valid() && Transferred(raw, before, after, p)
    ensures forall r, c :: r <= p.tplHeader || r > Max(StaleEnd(before, p), p.tplHeader + RowsToWrite(raw, p)) ==>
      after.Get(r, c) == before.Get(r, c)
  {
  }

  /** Outside the mapped template columns, the cells of a transferred template are as they were. */
  lemma OnlyMappedColumnsChange(raw: Grid, before: Grid, after: Grid, p: SheetPlan)
    requires raw.Valid() && before.Valid() && Transferred(raw, before, after, p)
    ensures forall r, c :: c !in p.destMap.Values ==> after.Get(r, c) == before.Get(r, c)
  {
  }

  // ---------------------------------------------------------------------------
  // The run

  /** How a run ends: aborted before touching the template when the raw workbook offers no
      date (lines 108-110), or finished with `total_rows_written`. */
  datatype RunResult = Aborted | Finished(totalRows: nat)

  /** The raw workbook as the script sees it: every sheet consistent, no two sheets named alike. */
  predicate WellFormedBook(book: seq<Sheet>)
  {
    && (forall i :: 0 <= i < |book| ==> book[i].grid.Valid())
    && (forall i, j :: 0 <= i < j < |book| ==> book[i].name != book[j].name)
  }

  /** The template workbook by sheet name: no sheet under two names. */
  predicate DistinctSheets(tpls: map<string, Worksheet>)
  {
    forall n1, n2 :: n1 in tpls && n2 in tpls && n1 != n2 ==> tpls[n1] != tpls[n2]
  }

  /** Every template grid is consistent. */
  predicate ValidGrids(grids: map<string, Grid>)
  {
    forall n :: n in grids ==> grids[n].Valid()
  }

  /** The template sheets' grids by name. */
  function Grids(tpls: map<string, Worksheet>): map<string, Grid>
    reads set n | n in tpls :: tpls[n]
  {
    map n | n in tpls :: tpls[n].grid
  }

  /** The names of the raw sheets the processing loop does not skip at once. */
  function ScannedNames(book: seq<Sheet>): set<string>
  {
    set i | 0 <= i < |book| && Scanned(book[i]) :: book[i].name
  }

  /** The rows raw sheet `sheet` adds to the total against template grids `tpls`. */
  function SheetRows(sheet: Sheet, tpls: map<string, Grid>, master: DateTime): nat
    requires sheet.grid.Valid()
  {
    if !Scanned(sheet) || sheet.name !in tpls then 0
    else match SheetRowsWritten(sheet.grid, tpls[sheet.name], master)
      case None => 0
      case Some(n) => n
  }

  /** `total_rows_written`: the rows of every sheet pair, summed in workbook order. */
  function TotalRows(book: seq<Sheet>, tpls: map<string, Grid>, master: DateTime): nat
    requires forall i :: 0 <= i < |book| ==> book[i].grid.Valid()
  {
    if book == [] then 0
    else TotalRows(book[..|book| - 1], tpls, master) + SheetRows(book[|book| - 1], tpls, master)
  }

  /** The total over two runs of sheets is the sum of their totals. */
  lemma {:induction false} TotalRowsSplit(a: seq<Sheet>, b: seq<Sheet>, tpls: map<string, Grid>, master: DateTime)
    requires forall i :: 0 <= i < |a| ==> a[i].grid.Valid()
    requires forall i :: 0 <= i < |b| ==> b[i].grid.Valid()
    ensures forall i :: 0 <= i < |a + b| ==> (a + b)[i].grid.Valid()
    ensures TotalRows(a + b, tpls, master) == TotalRows(a, tpls, master) + TotalRows(b, tpls, master)
    decreases |b|
  {
    if b != [] {
      var b' := b[..|b| - 1];
      assert (a + b)[..|a + b| - 1] == a + b';
      TotalRowsSplit(a, b', tpls, master);
    } else {
      assert a + b == a;
    }
  }

  /** The template grids `now` are what processing the raw sheets `book` in order makes of
      the template grids `before`: every sheet pair is transferred, and a template sheet no
      raw sheet is scanned against is as it was. */
  ghost predicate Processed(book: seq<Sheet>, before: map<string, Grid>, now: map<string, Grid>, master: DateTime)
  {
    && now.Keys == before.Keys
    && (forall j :: (0 <= j < |book| && Scanned(book[j]) && book[j].name in before &&
        book[j].grid.Valid() && before[book[j].name].Valid()) ==>
        SheetTransferred(book[j].grid, before[book[j].name], now[book[j].name], master))
    && (forall n :: n in before && n !in ScannedNames(book) ==> now[n] == before[n])
  }

  /** Processing one more raw sheet, whose name is new, extends what has been processed. */
  lemma ProcessedStep(book: seq<Sheet>, i: nat, before: map<string, Grid>, mid: map<string, Grid>,
                      after: map<string, Grid>, master: DateTime)
    requires i < |book| && WellFormedBook(book)
    requires Processed(book[..i], before, mid, master)
    requires var name := book[i].name;
      if Scanned(book[i]) && name in before then
        && name in after && after == mid[name := after[name]]
        && before[name].Valid()
        && SheetTransferred(book[i].grid, mid[name], after[name], master)
      else after == mid
    ensures Processed(book[..i + 1], before, after, master)
  {
    var name := book[i].name;
    var done, next := book[..i], book[..i + 1];
    assert name !in ScannedNames(done);
    assert after.Keys == before.Keys;
    forall j | (0 <= j < i + 1 && Scanned(next[j]) && next[j].name in before &&
        next[j].grid.Valid() && before[next[j].name].Valid())
      ensures SheetTransferred(next[j].grid, before[next[j].name], after[next[j].name], master)
    {
      if j < i {
        assert next[j] == done[j] == book[j];
        assert book[j].name != name;
        assert after[book[j].name] == mid[book[j].name];
      } else {
        assert next[j] == book[i];
        assert mid[name] == before[name];
      }
    }
    forall n | n in before && n !in ScannedNames(next)
      ensures after[n] == before[n]
    {
      assert forall j :: 0 <= j < i ==> next[j] == done[j];
      if Scanned(book[i]) {
        assert next[i] == book[i];
        assert n != name;
      }
    }
  }

  /** Processing keeps every template grid consistent. */
  lemma ProcessedKeepsValid(book: seq<Sheet>, before: map<string, Grid>, now: map<string, Grid>, master: DateTime)
    requires WellFormedBook(book) && ValidGrids(before) && Processed(book, before, now, master)
    ensures ValidGrids(now)
  {
    forall n | n in now
      ensures now[n].Valid()
    {
      if n in ScannedNames(book) {
        var j :| 0 <= j < |book| && Scanned(book[j]) && book[j].name == n;
        assert SheetTransferred(book[j].grid, before[n], now[n], master);
      }
    }
  }

  /** One pass of the loop at lines 118-187: skip an ignored sheet or one the template
      lacks, else process the pair; the result is what the pass adds to the total. */
  method ProcessBookSheet(sheet: Sheet, tpls: map<string, Worksheet>, master: DateTime) returns (rows: nat)
    requires sheet.grid.Valid() && DistinctSheets(tpls)
    requires sheet.name in tpls ==> tpls[sheet.name].grid.Valid()
    modifies if sheet.name in tpls then {tpls[sheet.name]} else {}
    ensures rows == SheetRows(sheet, old(Grids(tpls)), master)
    ensures if Scanned(sheet) && sheet.name in tpls then
        && Grids(tpls) == old(Grids(tpls))[sheet.name := tpls[sheet.name].grid]
        && SheetTransferred(sheet.grid, old(tpls[sheet.name].grid), tpls[sheet.name].grid, master)
      else Grids(tpls) == old(Grids(tpls))
  {
    if sheet.name in IgnoredSheets {
      return 0;
    }
    if sheet.name !in tpls {
      return 0;
    }
    var written := ProcessSheet(sheet.grid, tpls[sheet.name], master);
    rows := if written.Some? then written.value else 0;
  }

  /** The processing loop of lines 118-187 over the whole raw workbook. */
  method ProcessBook(book: seq<Sheet>, tpls: map<string, Worksheet>, master: DateTime) returns (total: nat)
    requires WellFormedBook(book) && DistinctSheets(tpls) && ValidGrids(Grids(tpls))
    modifies set n | n in tpls :: tpls[n]
    ensures total == TotalRows(book, old(Grids(tpls)), master)
    ensures Processed(book, old(Grids(tpls)), Grids(tpls), master)
    ensures ValidGrids(Grids(tpls))
  {
    ghost var before := Grids(tpls);
    total := 0;
    for i := 0 to |book|
      invariant total == TotalRows(book[..i], before, master)
      invariant Processed(book[..i], before, Grids(tpls), master)
    {
      assert book[..i + 1][..i] == book[..i];
      ghost var mid := Grids(tpls);
      assert book[i].name !in ScannedNames(book[..i]);
      var rows := ProcessBookSheet(book[i], tpls, master);
      ProcessedStep(book, i, before, mid, Grids(tpls), master);
      total := total + rows;
    }
    assert book[..|book|] == book;
    ProcessedKeepsValid(book, before, Grids(tpls), master);
  }

  /** Lines 94-190: find the master date or abort; then, for every raw sheet that is not
      ignored and has a template sheet of the same name, clear and refill that template
      sheet, and count the rows written. */
  method Run(book: seq<Sheet>, tpls: map<string, Worksheet>) returns (result: RunResult)
    requires WellFormedBook(book) && DistinctSheets(tpls) && ValidGrids(Grids(tpls))
    modifies set n | n in tpls :: tpls[n]
    ensures result.Aborted? <==> LatestDate(book).None?
    ensures result.Aborted? ==> Grids(tpls) == old(Grids(tpls))
    ensures result.Finished? ==> result.totalRows == TotalRows(book, old(Grids(tpls)), LatestDate(book).value)
    ensures result.Finished? ==> Processed(book, old(Grids(tpls)), Grids(tpls), LatestDate(book).value)
    ensures ValidGrids(Grids(tpls))
  {
    var latest := FindLatestDate(book);
    if latest.None? {
      return Aborted;
    }
    var total := ProcessBook(book, tpls, latest.value);
    return Finished(total);
  }
}
