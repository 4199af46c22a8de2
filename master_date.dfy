/**
 The master date (main.py, lines 94-111): the latest timestamp in the header
 row of the first raw sheet, outside the ignored ones, whose header row holds
 any timestamp at all.
 */
module MasterDate {
  import opened Optional
  import opened Cells
  import opened Sheets
  import opened HeaderSearch

  /** `SHEETS_TO_IGNORE`: sheets that are neither scanned nor transferred. */
  const IgnoredSheets: seq<string> := ["Home", "Sheet1"]

  /** A named worksheet of the raw workbook, in `sheetnames` order. */
  datatype Sheet = Sheet(name: string, grid: Grid)

  /** `[c.value for c in sheet[row] if isinstance(c.value, datetime)]`, over columns 1..n. */
  function HeaderDatesUpTo(g: Grid, row: int, n: nat): (ds: seq<DateTime>)
    ensures forall d :: d in ds ==> exists c :: 1 <= c <= n && g.Get(row, c) == Date(d)
    ensures forall c :: 1 <= c <= n && g.Get(row, c).Date? ==> g.Get(row, c).stamp in ds
  {
    if n == 0 then []
    else
      var ds := HeaderDatesUpTo(g, row, n - 1);
      var v := g.Get(row, n);
      if v.Date? then ds + [v.stamp] else ds
  }

  /** The timestamps of a whole header row, left to right. */
  function HeaderDates(g: Grid, row: int): seq<DateTime>
  {
    HeaderDatesUpTo(g, row, g.maxCol)
  }

  /** What one sheet contributes: the latest timestamp of its header row, or nothing
      when it has no header row or no timestamp in it. */
  function SheetLatestDate(g: Grid): Option<DateTime>
  {
    var h := HeaderRow(g);
    if h == -1 then None
    else
      var ds := HeaderDates(g, h);
      if |ds| == 0 then None else Some(MaxDate(ds))
  }

  /** A sheet offers a date exactly when its header row holds a timestamp, and the date it
      offers is one of them and no earlier than any of them. */
  lemma SheetLatestDateSpec(g: Grid)
    ensures SheetLatestDate(g).Some? <==>
      HeaderRow(g) != -1 && exists c :: 1 <= c <= g.maxCol && g.Get(HeaderRow(g), c).Date?
    ensures SheetLatestDate(g).Some? ==>
      var h, d := HeaderRow(g), SheetLatestDate(g).value;
      (exists c :: 1 <= c <= g.maxCol && g.Get(h, c) == Date(d)) &&
      forall c :: 1 <= c <= g.maxCol && g.Get(h, c).Date? ==> !Earlier(d, g.Get(h, c).stamp)
  {
  }

  /** A raw sheet the script looks at. */
  predicate Scanned(sheet: Sheet)
  {
    sheet.name !in IgnoredSheets
  }

  /** A raw sheet that the scan would take its date from. */
  predicate Offers(sheet: Sheet)
  {
    Scanned(sheet) && SheetLatestDate(sheet.grid).Some?
  }

  /** The scan of lines 96-106 from sheet `i` on: the first sheet offering a date decides. */
  function LatestDateFrom(book: seq<Sheet>, i: nat): (r: Option<DateTime>)
    requires i <= |book|
    ensures r.None? <==> forall j :: i <= j < |book| ==> !Offers(book[j])
    decreases |book| - i
  {
    if i == |book| then None
    else if Offers(book[i]) then SheetLatestDate(book[i].grid)
    else LatestDateFrom(book, i + 1)
  }

  /** A date found comes from the first sheet that offers one. */
  lemma {:induction false} LatestDateFromFirstOffer(book: seq<Sheet>, i: nat)
    requires i <= |book|
    ensures LatestDateFrom(book, i).Some? ==> exists j :: (i <= j < |book| && Offers(book[j]) &&
      LatestDateFrom(book, i) == SheetLatestDate(book[j].grid) && forall k :: i <= k < j ==> !Offers(book[k]))
    decreases |book| - i
  {
    if i < |book| {
      if Offers(book[i]) {
        assert LatestDateFrom(book, i) == SheetLatestDate(book[i].grid);
      } else if LatestDateFrom(book, i + 1).Some? {
        LatestDateFromFirstOffer(book, i + 1);
        var j :| i + 1 <= j < |book| && Offers(book[j]) &&
          LatestDateFrom(book, i + 1) == SheetLatestDate(book[j].grid) && forall k :: i + 1 <= k < j ==> !Offers(book[k]);
        assert forall k :: i <= k < j ==> !Offers(book[k]);
      }
    }
  }

  /** `latest_date_in_raw_file` after the scan; None makes the run stop (line 108). */
  function LatestDate(book: seq<Sheet>): Option<DateTime>
  {
    LatestDateFrom(book, 0)
  }

  /** The scan as the script runs it: skip ignored sheets and sheets without a header row,
      stop at the first sheet whose header row holds a timestamp. */
  method FindLatestDate(book: seq<Sheet>) returns (latest: Option<DateTime>)
    ensures latest == LatestDate(book)
  {
    latest := None;
    for i := 0 to |book|
      invariant LatestDate(book) == LatestDateFrom(book, i)
    {
      if book[i].name in IgnoredSheets {
        continue;
      }
      var header := LocateHeaderRow(book[i].grid);
      if header == -1 {
        continue;
      }
      var dates := HeaderDates(book[i].grid, header);
      if |dates| > 0 {
        latest := Some(MaxDate(dates));
        return;
      }
    }
  }
}
