# Excel_Automation: the data-transfer script, modelled in Dafny

`main.py` copies the daily fund-performance figures from a raw workbook into a
template workbook, one sheet pair at a time. It works in four steps:

- **Master date.** It first finds the *master date*. This is the latest timestamp among
  the header cells of the first raw sheet that is not ignored and has a header row
  holding at least one timestamp. If no sheet qualifies, the run stops.
- **Header rows and column maps.** For every raw sheet that has a template sheet of the
  same name, it finds the header row in both sheets: the first of rows 1..19 holding a
  cell that reads "Scheme Name". It then maps each standard field name to its column in
  each sheet, through two label tables. "AUM" is mapped to the first header column dated
  on the master day.
- **Clearing.** It blanks the mapped template columns of the old data block. That block
  runs from under the header down to, but not including, the first falsy "Scheme Name"
  cell (None, `""` or 0).
- **Copying.** It copies the raw data rows under the raw header into the template rows
  under the template header. It stops at the first falsy key cell, and counts the rows
  it wrote.

The model keeps this structure:

- `labels.dfy`: the two label tables and how they relate.
- `cells.dfy`: cell values, Python's `str(v).strip()` and truthiness.
- `sheets.dfy`: a sheet is a `Grid` value. A template sheet is a `Worksheet` object whose
  grid the transfer changes in place.
- `header_text.dfy`, `header_search.dfy`: reading header cells, and the header-row search.
- `column_maps.dfy`: `raw_col_map` and `dest_col_map`.
- `master_date.dfy`: the master-date scan.
- `transfer.dfy`: the stale-region scan, the clearing loops and the row-transfer loop.
- `data_transfer.dfy`: one sheet pair, and the whole run.

Each search is a function plus a method with the source's loop, and the method is proved
equal to the function. The clearing and copying loops are methods that change a `Worksheet` in place. Their
contracts give the whole new grid in terms of the old one.

## Model

| member | source | states |
|---|---|---|
| Labels.EveryEntryPaired | main.py:12-84 | for every raw label k, `STANDARD_NAME_TO_TEMPLATE_HEADER[RAW_HEADER_TO_STANDARD_NAME[k]]` is k again |
| Labels.EveryStandardPaired | main.py:12-84 | for every standard name s, `RAW_HEADER_TO_STANDARD_NAME[STANDARD_NAME_TO_TEMPLATE_HEADER[s]]` is s again |
| Labels.TablesShareLabels | main.py:12-84 | the raw labels are exactly the template labels, and both tables have the same standard names |
| Labels.TablesSameSize | main.py:12-84 | the two tables have equally many entries |
| Labels.AnchorMapsToItself | main.py:13 | "Scheme Name" is its own standard name and its own template label |
| Labels.AumIsNoStandardName | main.py:12-84 | "AUM" is no standard name, so the date column never collides with a label column |
| Labels.TemplateLabelsDistinct | main.py:49-84 | no two standard names share a template label |
| Cells.MaxDate | main.py:106 | `max(available_dates)` is one of the dates and no date is later than it |
| Cells.TicksOrderTimestamps | main.py:106 | timestamps are ordered field by field, exactly as by their tick count, and equal tick counts mean equal timestamps |
| Cells.StampText | main.py:101 | `str()` of a datetime is 19 characters long, or 26 with microseconds; it starts and ends with a digit and holds only digits and `-`, `:`, `.`, space |
| Cells.IntText | main.py:101 | `str()` of an integer is non-empty, starts with `-` exactly when the integer is negative, and is otherwise made of digits only |
| Cells.TrimStartSpec | main.py:101 | `lstrip` drops a whitespace prefix and leaves a suffix that is empty or starts with non-whitespace |
| Cells.TrimEndSpec | main.py:101 | `rstrip` drops a whitespace suffix and leaves a prefix that is empty or ends with non-whitespace |
| Cells.StripSpec | main.py:101 | `strip()` yields a string with no whitespace at either end, no longer than its input |
| Cells.StripRemovesPadding | main.py:101 | `strip()` of a trimmed text padded with whitespace on both sides gives back that text |
| Cells.StripIdempotent | main.py:101 | stripping twice is stripping once |
| Cells.NonTextReading | main.py:101 | a cell that holds no text reads as "None" or as a numeral |
| Cells.EmptyText | main.py:101 | an empty cell reads as "None" |
| Sheets.Grid.Get | main.py:161 | on a consistent sheet, a non-empty cell lies within `max_row` and `max_column` |
| Sheets.Grid.Set | main.py:170 | writing a cell changes that cell only, grows the extent to cover it and keeps the sheet consistent |
| Sheets.Worksheet.SetCell | main.py:170 | `sheet.cell(row, column).value = v` changes the sheet in place to its grid with that cell set |
| HeaderText.RawLabelsAreWords | main.py:12-48 | no raw label is "None", and each starts or ends with a character no numeral contains |
| HeaderText.LabelReading | main.py:101 | a cell reads as a raw label exactly when it is a text cell whose stripped text is that label |
| HeaderText.LabelCellReading | main.py:133-135 | a cell's text is a raw label exactly when it is a text cell whose stripped text is one |
| HeaderSearch.AnchorCellReading | main.py:101 | a cell is an anchor cell exactly when its text reads "Scheme Name" |
| HeaderSearch.HeaderRowFrom | main.py:99-103 | the search from row `from` gives the first row up to 19 holding an anchor cell, or -1 when rows `from`..19 hold none |
| HeaderSearch.HeaderRow | main.py:99-103 | the header row is the smallest row in 1..19 holding an anchor cell, or -1 when there is none |
| HeaderSearch.HeaderRowWithinSheet | main.py:99-103 | a header row that was found lies inside the sheet |
| HeaderSearch.LocateHeaderRow | main.py:127-131 | the nested loop with its two breaks returns exactly the header row |
| ColumnMaps.LabelsColumnReading | main.py:133-135 | a column is labelled with field s exactly when its stripped header text is a raw label whose standard name is s |
| ColumnMaps.RawLabelColumnsUpTo | main.py:133-135 | over columns 1..n, every mapped field sits at a column labelled with it, and every labelled column is at or left of its field's column |
| ColumnMaps.FirstMasterDayColumnFrom | main.py:136-137 | the result is the first column from `from` whose header cell is dated on the master day, or None when there is none |
| ColumnMaps.LocateMasterDayColumn | main.py:136-137 | the loop that breaks at the first cell dated on the master day finds exactly that column |
| ColumnMaps.RawColumnMapSpec | main.py:133-137 | a field other than "AUM" is mapped exactly when some column is labelled with it, and then to the rightmost such column; "AUM" is mapped exactly when some header cell is dated on the master day, and then to the leftmost such column |
| ColumnMaps.LastColumnReading | main.py:146-147 | the result is the rightmost column in 1..n whose header reads k, or None when there is none |
| ColumnMaps.DestLabelsAreRawLabels | main.py:146-147 | the template comprehension over `STANDARD_NAME_TO_TEMPLATE_HEADER` picks the same columns as the raw comprehension would |
| ColumnMaps.DestMapIsRawMap | main.py:146-150 | `dest_col_map` is built exactly as `raw_col_map` would be on the same header row, so it has the same rightmost-label and leftmost-date properties |
| ColumnMaps.ColumnMapInjective | main.py:133-150 | no two fields of a column map share a column |
| ColumnMaps.ColumnsInSheet | main.py:133-150 | every mapped column lies in 1..max_column |
| ColumnMaps.AnchorMapped | main.py:133-135 | on a header row found by its anchor cell, "Scheme Name" is mapped in both maps |
| MasterDate.HeaderDatesUpTo | main.py:105 | `available_dates` holds exactly the timestamps among the header cells |
| MasterDate.SheetLatestDateSpec | main.py:99-106 | a sheet offers a date exactly when it has a header row with a dated cell; the date is one of those and none is later |
| MasterDate.LatestDateFrom | main.py:96-106 | the scan finds no date exactly when no remaining non-ignored sheet offers one |
| MasterDate.LatestDateFromFirstOffer | main.py:96-106 | a date that was found comes from the first non-ignored sheet that offers one |
| MasterDate.FindLatestDate | main.py:94-106 | the loop with `continue` and `break` computes exactly the scan's result |
| Transfer.RunLength | main.py:175-177 | the rows from `from` on, up to the count, have truthy key cells; the next row's key cell is falsy; the run ends inside the sheet |
| Transfer.RunLengthUnique | main.py:175-177 | any count with those two properties is the run length |
| Transfer.RunLengthIgnoresRest | main.py:175-177 | the run length depends only on the key cells up to the first falsy one, so data after the first blank is ignored |
| Transfer.FindStaleEnd | main.py:155-165 | `end_row_to_clear` is the row before the first falsy key cell under the header; without a key column it is the row before the start |
| Transfer.ClearRow | main.py:168-170 | exactly the mapped columns of the row become None, nothing else changes, and a consistent sheet stays consistent |
| Transfer.ClearRows | main.py:167-170 | exactly the mapped columns of the rows `first`..`last` become None, nothing else changes, and a consistent sheet stays consistent |
| Transfer.FieldsCopiedStep | main.py:180-184 | writing one more field keeps the copied-fields invariant for the larger set of fields |
| Transfer.CopyFields | main.py:180-184 | each field in both maps gets the raw cell's value in its template column of the target row, every other cell is unchanged, and the sheet stays consistent |
| Transfer.CopyRow | main.py:175-187 | one pass copies raw row hr+1+k to template row ht+1+k, extends the copied block by that row and keeps the sheet consistent |
| Transfer.RowsCopiedStep | main.py:175-187 | copying one more row extends the copied block by that row |
| Transfer.TransferRows | main.py:173-187 | `rows_on_this_sheet` is the run length of truthy key cells under the raw header, with key column 1 when "Scheme Name" is unmapped; raw row hr+1+k went to template row ht+1+k in every shared field; nothing else changed; the sheet stays consistent |
| DataTransfer.PlanMapsAnchor | main.py:133-150 | both maps of a planned pair hold "Scheme Name", so the key column is never the default and the stale region is always scanned |
| DataTransfer.PlanColumns | main.py:146-150 | the template columns of a plan are distinct and inside the template sheet |
| DataTransfer.StaleEndInSheet | main.py:155-165 | the stale region starts under the header and ends inside the sheet |
| DataTransfer.PlanWorkable | main.py:127-150 | every plan the script makes can be carried out |
| DataTransfer.MakePlan | main.py:127-150 | both header searches and both map constructions give the plan for the pair, and None when either sheet has no header |
| DataTransfer.ClearedThenCopied | main.py:153-187 | clearing the stale rows and then copying the raw rows ends in the transferred state, which includes a consistent sheet |
| DataTransfer.ClearStale | main.py:153-170 | exactly the mapped cells of the rows from under the header to the row before the first falsy key cell become None; the extent and every other cell are unchanged and the sheet stays consistent |
| DataTransfer.ApplyPlan | main.py:153-187 | the clearing and copying count the raw run and leave the template in the transferred state |
| DataTransfer.ProcessSheet | main.py:120-187 | a pair with a header in both sheets is transferred and counted; a pair missing either header is skipped and the template is unchanged; either way the template stays consistent |
| DataTransfer.OnlyDataRowsChange | main.py:153-187 | the header row, the rows above it and the rows past the stale and written blocks are untouched |
| DataTransfer.OnlyMappedColumnsChange | main.py:167-184 | columns outside `dest_col_map` are untouched |
| DataTransfer.TotalRowsSplit | main.py:116 | the total over two runs of sheets is the sum of their totals |
| DataTransfer.ProcessedStep | main.py:118-187 | processing one more raw sheet, with a new name, extends what has been processed |
| DataTransfer.ProcessedKeepsValid | main.py:118-187 | processing the raw workbook leaves every template sheet consistent |
| DataTransfer.ProcessBookSheet | main.py:118-187 | one pass skips an ignored sheet or one the template lacks, and otherwise transfers the pair; it adds that sheet's rows to the total and changes only that template sheet |
| DataTransfer.ProcessBook | main.py:116-187 | `total_rows_written` is the sum of the per-sheet counts; every matched template sheet is transferred; a template sheet that no scanned raw sheet names is unchanged; every template sheet stays consistent |
| DataTransfer.Run | main.py:94-187 | the run aborts exactly when no raw sheet offers a date, and then the template is untouched; otherwise every matched pair is transferred against the master date and the total is the sum of the per-sheet counts; every template sheet stays consistent |

## Left out

- Loading and saving the workbooks, the `FileNotFoundError` handling, `sys.exit` and every `print` (main.py:86-92, 108-113, 188-192) are I/O and process control. The abort becomes the `Aborted` result.
- Reading a cell through openpyxl creates it and can raise `max_row`. The model does not track this, because it never changes a value that is read or written.
- Cell values are modelled as none, text, integer or timestamp. Floats, booleans and formulas are not modelled, and neither are the texts `str()` gives for them.
- Merged cells are not modelled. In openpyxl, assigning to a cell of a merged range other than its top-left one raises `AttributeError`. So a clear at main.py:170 or a copy at main.py:184 that hits such a cell ends the run before the save at main.py:191. In the model every write succeeds.
- Timestamps are plain records of their fields. The day of the month is not checked against the month's length.
- The exact count of 34 entries in each table is not proved. Only the equality of the two sizes is proved.
- Transfer.CopyFields: requires the template columns of `dest_col_map` to be distinct. With distinct columns, the dict's iteration order does not matter, so the order is not modelled. DataTransfer.PlanColumns proves that every map the script builds has distinct columns.
- Transfer.ClearRows: requires the cleared rows to lie inside the sheet. The script only ever clears such rows, as DataTransfer.StaleEndInSheet shows.
- Transfer.TransferRows: requires distinct template columns, for the same reason as CopyFields.
- DataTransfer.Run: requires every raw and template grid to be consistent (`Valid`: no stored cell outside its extent), no two raw sheets with one name, and no template sheet under two names, as openpyxl guarantees.
