/**
 The per-sheet transfer (main.py, lines 153-187): the stale data rows under
 the template header are cleared in the mapped columns, then each raw data row
 is copied, field by field, into the template row at the same offset below
 its header, until the raw key cell is blank.
 */
module Transfer {
  import opened Optional
  import opened Cells
  import opened Labels
  import opened Sheets

  /** `raw_col_map.get("Scheme Name", 1)`: the raw column that decides where the data ends. */
  function KeyColumn(rawMap: map<string, int>): int
  {
    if Anchor in rawMap then rawMap[Anchor] else 1
  }

  /** The number of rows from `from` down whose cell in column `col` is truthy,
      up to the first falsy one. A sheet has only empty cells past its extent,
      so the run always ends, at the latest on the row just past `maxRow`. */
  function RunLength(g: Grid, from: int, col: int): (n: nat)
    requires g.Valid()
    ensures forall q :: from <= q < from + n ==> Truthy(g.Get(q, col))
    ensures !Truthy(g.Get(from + n, col))
    ensures n > 0 ==> from + n - 1 <= g.maxRow
    decreases g.maxRow + 1 - from
  {
    if !Truthy(g.Get(from, col)) then 0 else 1 + RunLength(g, from + 1, col)
  }

  /** The two facts above pin the run down: a prefix of truthy cells followed by a falsy one is the run. */
  lemma RunLengthUnique(g: Grid, from: int, col: int, n: nat)
    requires g.Valid()
    requires forall q :: from <= q < from + n ==> Truthy(g.Get(q, col))
    requires !Truthy(g.Get(from + n, col))
    ensures RunLength(g, from, col) == n
  {
  }

  /** Only the key cells of the run and the one ending it matter: raw data after the
      first blank key cell is never looked at. */
  lemma RunLengthIgnoresRest(g: Grid, h: Grid, from: int, col: int)
    requires g.Valid() && h.Valid()
    requires forall q :: from <= q <= from + RunLength(g, from, col) ==> h.Get(q, col) == g.Get(q, col)
    ensures RunLength(h, from, col) == RunLength(g, from, col)
  {
  }

  /** Lines 154-163: the last row of stale template data. The scan walks rows
      `start .. max_row + 1` of the key column and stops at the first falsy cell;
      without a key column nothing is stale. */
  method FindStaleEnd(g: Grid, start: int, keyCol: Option<int>) returns (end: int)
    requires g.Valid()
    ensures end == if keyCol.Some? then start + RunLength(g, start, keyCol.value) - 1 else start - 1
  {
    end := start - 1;
    if keyCol.Some? {
      var col := keyCol.value;
      var row := start;
      while row < g.maxRow + 2
        invariant start <= row
        invariant forall q :: start <= q < row ==> Truthy(g.Get(q, col))
        decreases g.maxRow + 2 - row
      {
        if !Truthy(g.Get(row, col)) {
          end := row - 1;
          RunLengthUnique(g, start, col, row - start);
          return;
        }
        row := row + 1;
      }
    }
  }

  /** Lines 169-170 for one row: the cell of row `row` in every column of `destMap` set to None. */
  method ClearRow(ws: Worksheet, row: int, destMap: map<string, int>)
    requires 1 <= row <= ws.grid.maxRow
    requires forall s :: s in destMap ==> 1 <= destMap[s] <= ws.grid.maxCol
    modifies ws
    ensures ws.grid.maxRow == old(ws.grid.maxRow) && ws.grid.maxCol == old(ws.grid.maxCol)
    ensures forall r, c :: ws.grid.Get(r, c) == if r == row && c in destMap.Values then Empty else old(ws.grid.Get(r, c))
    ensures old(ws.grid.Valid()) ==> ws.grid.Valid()
  {
    var todo := destMap.Keys;
    ghost var cleared: set<int> := {};
    while todo != {}
      invariant todo <= destMap.Keys
      invariant forall s :: s in destMap && s !in todo ==> destMap[s] in cleared
      invariant forall c :: c in cleared ==> c in destMap.Values
      invariant ws.grid.maxRow == old(ws.grid.maxRow) && ws.grid.maxCol == old(ws.grid.maxCol)
      invariant forall r, c :: ws.grid.Get(r, c) == if r == row && c in cleared then Empty else old(ws.grid.Get(r, c))
      invariant old(ws.grid.Valid()) ==> ws.grid.Valid()
      decreases todo
    {
      var s :| s in todo;
      ws.SetCell(row, destMap[s], Empty);
      cleared := cleared + {destMap[s]};
      todo := todo - {s};
    }
    assert forall c :: c in destMap.Values ==> c in cleared;
  }

  /** Lines 166-170: the cell in every column of `destMap` of rows `first..last` set to None.
      The region lies inside the sheet, as the stale rows and the mapped columns do. */
  method ClearRows(ws: Worksheet, first: int, last: int, destMap: map<string, int>)
    requires first >= 1
    requires first <= last ==> last <= ws.grid.maxRow
    requires forall s :: s in destMap ==> 1 <= destMap[s] <= ws.grid.maxCol
    modifies ws
    ensures ws.grid.maxRow == old(ws.grid.maxRow) && ws.grid.maxCol == old(ws.grid.maxCol)
    ensures forall r, c :: (ws.grid.Get(r, c) ==
      if first <= r <= last && c in destMap.Values then Empty else old(ws.grid.Get(r, c)))
    ensures old(ws.grid.Valid()) ==> ws.grid.Valid()
  {
    var row := first;
    while row <= last
      invariant first <= row <= Max(first, last + 1)
      invariant ws.grid.maxRow == old(ws.grid.maxRow) && ws.grid.maxCol == old(ws.grid.maxCol)
      invariant forall r, c :: (ws.grid.Get(r, c) ==
        if first <= r < row && c in destMap.Values then Empty else old(ws.grid.Get(r, c)))
      invariant old(ws.grid.Valid()) ==> ws.grid.Valid()
      decreases last - row
    {
      ClearRow(ws, row, destMap);
      row := row + 1;
    }
  }

  /** The fields that are copied: those both maps know. */
  function SharedFields(rawMap: map<string, int>, destMap: map<string, int>): set<string>
  {
    destMap.Keys * rawMap.Keys
  }

  /** The template columns that receive data. */
  function WrittenColumns(rawMap: map<string, int>, destMap: map<string, int>): set<int>
  {
    set s | s in destMap && s in rawMap :: destMap[s]
  }

  /** No two fields of `m` share a column. */
  predicate Injective(m: map<string, int>)
  {
    forall s1, s2 :: s1 in m && s2 in m && s1 != s2 ==> m[s1] != m[s2]
  }

  /** `after` is `before` with row `tplRow` given raw row `rawRow`'s value in every
      column of a field both maps know, and nothing else changed. */
  ghost predicate FieldsCopied(before: Grid, after: Grid, raw: Grid, rawRow: int, tplRow: int,
                         rawMap: map<string, int>, destMap: map<string, int>)
  {
    && after.maxCol == before.maxCol
    && after.maxRow == (if SharedFields(rawMap, destMap) != {} then Max(before.maxRow, tplRow) else before.maxRow)
    && (forall s :: s in SharedFields(rawMap, destMap) ==> after.Get(tplRow, destMap[s]) == raw.Get(rawRow, rawMap[s]))
    && (forall r, c :: r != tplRow || c !in WrittenColumns(rawMap, destMap) ==> after.Get(r, c) == before.Get(r, c))
  }

  /** The entries of `m` whose keys are in `keys`. */
  function Restrict(m: map<string, int>, keys: set<string>): map<string, int>
  {
    map k | k in m && k in keys :: m[k]
  }

  /** Copying one more field extends the copied fields by that one. */
  lemma FieldsCopiedStep(before: Grid, mid: Grid, after: Grid, raw: Grid, rawRow: int, tplRow: int,
                         rawMap: map<string, int>, destMap: map<string, int>, done: set<string>, s: string)
    requires tplRow >= 1 && Injective(destMap)
    requires s in destMap && s !in done && 1 <= destMap[s] <= mid.maxCol
    requires FieldsCopied(before, mid, raw, rawRow, tplRow, rawMap, Restrict(destMap, done))
    requires after == if s in rawMap then mid.Set(tplRow, destMap[s], raw.Get(rawRow, rawMap[s])) else mid
    ensures FieldsCopied(before, after, raw, rawRow, tplRow, rawMap, Restrict(destMap, done + {s}))
  {
    var d, d' := Restrict(destMap, done), Restrict(destMap, done + {s});
    assert SharedFields(rawMap, d') == SharedFields(rawMap, d) + (if s in rawMap then {s} else {});
    forall s2 | s2 in SharedFields(rawMap, d')
      ensures after.Get(tplRow, d'[s2]) == raw.Get(rawRow, rawMap[s2])
    {
      if s2 != s {
        assert s2 in SharedFields(rawMap, d);
        assert destMap[s2] != destMap[s];
      }
    }
    forall r, c | r != tplRow || c !in WrittenColumns(rawMap, d')
      ensures after.Get(r, c) == before.Get(r, c)
    {
      if r == tplRow {
        assert c !in WrittenColumns(rawMap, d);
        assert s in rawMap ==> c != destMap[s];
      }
    }
  }

  /** Lines 180-184: every field both maps know is copied from raw row `rawRow`
      to template row `tplRow`, in its own template column. */
  method CopyFields(ws: Worksheet, raw: Grid, rawRow: int, tplRow: int, rawMap: map<string, int>, destMap: map<string, int>)
    requires ws.grid.Valid() && tplRow >= 1
    requires Injective(destMap)
    requires forall s :: s in destMap ==> 1 <= destMap[s] <= ws.grid.maxCol
    modifies ws
    ensures FieldsCopied(old(ws.grid), ws.grid, raw, rawRow, tplRow, rawMap, destMap)
    ensures ws.grid.Valid()
  {
    var todo := destMap.Keys;
    ghost var done: set<string> := {};
    assert Restrict(destMap, done) == map[];
    while todo != {}
      invariant todo + done == destMap.Keys && todo !! done
      invariant ws.grid.maxCol == old(ws.grid.maxCol)
      invariant FieldsCopied(old(ws.grid), ws.grid, raw, rawRow, tplRow, rawMap, Restrict(destMap, done))
      invariant ws.grid.Valid()
      decreases todo
    {
      var s :| s in todo;
      ghost var mid := ws.grid;
      if s in rawMap {
        ws.SetCell(tplRow, destMap[s], raw.Get(rawRow, rawMap[s]));
      }
      FieldsCopiedStep(old(ws.grid), mid, ws.grid, raw, rawRow, tplRow, rawMap, destMap, done, s);
      todo := todo - {s};
      done := done + {s};
    }
    assert Restrict(destMap, done) == destMap;
  }

  /** `after` is `before` with raw rows `rawHeader + 1 .. rawHeader + count` copied, field by
      field, to template rows `tplHeader + 1 .. tplHeader + count`, and nothing else changed. */
  ghost predicate RowsCopied(before: Grid, after: Grid, raw: Grid, rawHeader: int, tplHeader: int,
                       rawMap: map<string, int>, destMap: map<string, int>, count: nat)
  {
    && after.maxCol == before.maxCol
    && after.maxRow == (if count > 0 && SharedFields(rawMap, destMap) != {}
        then Max(before.maxRow, tplHeader + count) else before.maxRow)
    && (forall s, r :: s in SharedFields(rawMap, destMap) && tplHeader < r <= tplHeader + count ==>
        after.Get(r, destMap[s]) == raw.Get(rawHeader + (r - tplHeader), rawMap[s]))
    && (forall r, c :: !(tplHeader < r <= tplHeader + count && c in WrittenColumns(rawMap, destMap)) ==>
        after.Get(r, c) == before.Get(r, c))
  }

  /** Copying one more row extends the copied block by that row. */
  lemma RowsCopiedStep(before: Grid, mid: Grid, after: Grid, raw: Grid, rawHeader: int, tplHeader: int,
                       rawMap: map<string, int>, destMap: map<string, int>, count: nat)
    requires tplHeader >= 0
    requires RowsCopied(before, mid, raw, rawHeader, tplHeader, rawMap, destMap, count)
    requires FieldsCopied(mid, after, raw, rawHeader + 1 + count, tplHeader + 1 + count, rawMap, destMap)
    ensures RowsCopied(before, after, raw, rawHeader, tplHeader, rawMap, destMap, count + 1)
  {
    var shared := SharedFields(rawMap, destMap);
    var tplRow := tplHeader + 1 + count;
    forall s, r | s in shared && tplHeader < r <= tplHeader + count + 1
      ensures after.Get(r, destMap[s]) == raw.Get(rawHeader + (r - tplHeader), rawMap[s])
    {
      if r != tplRow {
        assert after.Get(r, destMap[s]) == mid.Get(r, destMap[s]);
      }
    }
  }

  /** One pass of the loop at lines 175-187: raw row `rawHeader + 1 + count` is copied to
      template row `tplHeader + 1 + count`, extending the copied block by that row. */
  method CopyRow(ws: Worksheet, ghost start: Grid, raw: Grid, rawHeader: int, tplHeader: int,
                 rawMap: map<string, int>, destMap: map<string, int>, count: nat)
    requires ws.grid.Valid() && tplHeader >= 0
    requires Injective(destMap)
    requires forall s :: s in destMap ==> 1 <= destMap[s] <= ws.grid.maxCol
    requires RowsCopied(start, ws.grid, raw, rawHeader, tplHeader, rawMap, destMap, count)
    modifies ws
    ensures ws.grid.Valid() && ws.grid.maxCol == old(ws.grid.maxCol)
    ensures RowsCopied(start, ws.grid, raw, rawHeader, tplHeader, rawMap, destMap, count + 1)
  {
    ghost var mid := ws.grid;
    CopyFields(ws, raw, rawHeader + 1 + count, tplHeader + 1 + count, rawMap, destMap);
    RowsCopiedStep(start, mid, ws.grid, raw, rawHeader, tplHeader, rawMap, destMap, count);
  }

  /** Lines 173-187: the raw rows below `rawHeader`, up to the first one whose key cell
      is falsy, copied in order to the template rows below `tplHeader`; the result is
      `rows_on_this_sheet`. Raw row `rawHeader + 1 + k` lands on template row
      `tplHeader + 1 + k`. */
  method TransferRows(ws: Worksheet, raw: Grid, rawHeader: int, tplHeader: int,
                      rawMap: map<string, int>, destMap: map<string, int>) returns (count: nat)
    requires raw.Valid() && ws.grid.Valid()
    requires tplHeader >= 0
    requires Injective(destMap)
    requires forall s :: s in destMap ==> 1 <= destMap[s] <= ws.grid.maxCol
    modifies ws
    ensures count == RunLength(raw, rawHeader + 1, KeyColumn(rawMap))
    ensures RowsCopied(old(ws.grid), ws.grid, raw, rawHeader, tplHeader, rawMap, destMap, count)
    ensures ws.grid.Valid()
  {
    var keyCol := KeyColumn(rawMap);
    ghost var start := ws.grid;
    count := 0;
    var row := rawHeader + 1;
    while row < raw.maxRow + 2
      invariant row == rawHeader + 1 + count
      invariant forall q :: rawHeader + 1 <= q < row ==> Truthy(raw.Get(q, keyCol))
      invariant RowsCopied(start, ws.grid, raw, rawHeader, tplHeader, rawMap, destMap, count)
      invariant ws.grid.Valid()
      decreases raw.maxRow + 2 - row
    {
      if !Truthy(raw.Get(row, keyCol)) {
        RunLengthUnique(raw, rawHeader + 1, keyCol, count);
        return;
      }
      CopyRow(ws, start, raw, rawHeader, tplHeader, rawMap, destMap, count);
      count := count + 1;
      row := row + 1;
    }
    RunLengthUnique(raw, rawHeader + 1, keyCol, count);
  }
}
