/** `sync_table_under_heading`: the first table under a heading keeps its
    header row, is grown or shrunk to one data row per given row, and the
    first (at most three) cells of every data row are overwritten. */
module LegacyTables {
  import opened Wrappers
  import opened Strings
  import opened DocTree
  import opened DocxAnchors
  import opened Seqs
  import opened LegacyLists

  /** The scan after the heading: a table is taken before a heading ends the search. */
  function FirstTableIndex(elems: seq<Element>, j: nat): (r: Option<nat>)
    ensures r.Some? ==> j <= r.value < |elems| && elems[r.value].Tbl?
    ensures r.Some? ==> forall m :: j <= m < r.value ==> !elems[m].Tbl? && !IsHeadingElement(elems[m])
    decreases |elems| - j
  {
    if j >= |elems| then None
    else if elems[j].Tbl? then Some(j)
    else if IsHeadingElement(elems[j]) then None
    else FirstTableIndex(elems, j + 1)
  }

  /** A cell after the overwrite: rewritten only when its text differs. */
  function SyncedCell(c: Cell, t: string): Cell {
    if CellText(c) != t then SetCellText(c, t) else c
  }

  /** `min(3, len(tcs))`: how many leading cells of a row are overwritten. */
  function CellsToSync(tr: Row): nat {
    if |tr| < 3 then |tr| else 3
  }

  /** `row[c]` exists for every cell that is overwritten. */
  predicate RowFits(tr: Row, row: seq<string>) {
    CellsToSync(tr) <= |row|
  }

  /** A data row after its overwrite (left as it is when `row` is too short). */
  function SyncedRow(tr: Row, row: seq<string>): Row {
    if RowFits(tr, row) then Splice(tr, 0, Zipped(tr, 0, row[..CellsToSync(tr)], SyncedCell)) else tr
  }

  /** A cell counts as rewritten when its text differs from its item. */
  function CellChange(c: Cell, t: string): nat {
    if CellText(c) != t then 1 else 0
  }

  /** The cells of one data row that are rewritten. */
  function RowChanges(tr: Row, row: seq<string>): nat {
    if RowFits(tr, row) then ZipSum(tr, 0, row[..CellsToSync(tr)], CellChange) else 0
  }

  /** The cells rewritten over all data rows. */
  function TableChanges(data: seq<Row>, rows: seq<seq<string>>): nat
    requires |rows| <= |data|
  {
    ZipSum(data, 0, rows, RowChanges)
  }

  /** Every data row has an item for each cell it overwrites. */
  predicate AllRowsFit(data: seq<Row>, rows: seq<seq<string>>)
    requires |data| == |rows|
  {
    forall r :: 0 <= r < |rows| ==> RowFits(data[r], rows[r])
  }

  /** The rows after the grow and shrink loops: the header, then the data
      rows cut to `n` or extended by copies of the first data row. */
  function ResizedRows(trs: seq<Row>, n: nat): (r: seq<Row>)
    requires |trs| >= 2
    ensures |r| == 1 + n
  {
    if |trs| - 1 >= n then trs[..1 + n] else trs + Copies(trs[1], n - (|trs| - 1))
  }

  /** The overwrite loop over the data rows: `IndexError` when some row lacks
      an item for a cell it overwrites. */
  function SyncRows(data: seq<Row>, rows: seq<seq<string>>): Result<(seq<Row>, nat), Fault>
    requires |data| == |rows|
  {
    if AllRowsFit(data, rows) then Ok((Zipped(data, 0, rows, SyncedRow), TableChanges(data, rows)))
    else Err(IndexError)
  }

  /** `sync_table_under_heading` once the heading lookup has answered `h`. */
  function SyncTableUnder(elems: seq<Element>, h: nat, rows: seq<seq<string>>): Result<(seq<Element>, nat), Fault> {
    match FirstTableIndex(elems, h + 1)
    case None => Ok((elems, 0))
    case Some(t) =>
      var trs := elems[t].rows;
      if |trs| < 2 then Ok((elems, 0))
      else
        var rs := ResizedRows(trs, |rows|);
        match SyncRows(rs[1..], rows)
        case Err(f) => Err(f)
        case Ok((data, c)) => Ok((elems[t := Tbl([rs[0]] + data)], c))
  }

  /** The whole of `sync_table_under_heading`. */
  function SyncTableSpec(elems: seq<Element>, heading: string, rows: seq<seq<string>>): Result<(seq<Element>, nat), Fault> {
    if |rows| == 0 then Ok((elems, 0))
    else match FindHeadingIndex(elems, heading)
      case None => Ok((elems, 0))
      case Some(h) => SyncTableUnder(elems, h, rows)
  }

  // ---------------------------------------------------------------------------
  // properties

  /** With no rows, no heading, no table under it or a table without a data
      row, nothing changes and 0 is returned. */
  lemma SyncTableNoop(elems: seq<Element>, h: nat, rows: seq<seq<string>>)
    requires FirstTableIndex(elems, h + 1).None? || |elems[FirstTableIndex(elems, h + 1).value].rows| < 2
    ensures SyncTableUnder(elems, h, rows) == Ok((elems, 0))
  {
  }

  /** A synced cell holding at most one paragraph reads its item back. */
  lemma SyncedCellReads(c: Cell, t: string)
    requires |c| <= 1
    ensures CellText(SyncedCell(c, t)) == Strip(t)
  {
    if CellText(c) == t {
      StripIdempotent(CellRawText(c));
    } else {
      SetCellTextSingle(c, t);
    }
  }

  /** A synced row keeps its cell count, overwrites its first (at most
      three) cells with their items and keeps every later cell. */
  lemma SyncedRowCells(tr: Row, row: seq<string>)
    requires RowFits(tr, row)
    ensures |SyncedRow(tr, row)| == |tr|
    ensures forall c :: 0 <= c < CellsToSync(tr) ==> SyncedRow(tr, row)[c] == SyncedCell(tr[c], row[c])
    ensures forall c :: 3 <= c < |tr| ==> SyncedRow(tr, row)[c] == tr[c]
  {
    var m := CellsToSync(tr);
    var x := Zipped(tr, 0, row[..m], SyncedCell);
    forall c | 0 <= c < m
      ensures SyncedRow(tr, row)[c] == SyncedCell(tr[c], row[c])
    {
      assert Splice(tr, 0, x)[0 + c] == x[c];
    }
    forall c | 3 <= c < |tr|
      ensures SyncedRow(tr, row)[c] == tr[c]
    {
      assert Splice(tr, 0, x)[m..][c - m] == tr[m..][c - m];
    }
  }

  /** The overwritten cells of a synced row that hold at most one paragraph
      read their items. */
  lemma SyncedRowReads(tr: Row, row: seq<string>, c: nat)
    requires RowFits(tr, row) && c < CellsToSync(tr) && |tr[c]| <= 1
    ensures CellText(SyncedRow(tr, row)[c]) == Strip(row[c])
  {
    SyncedRowCells(tr, row);
    SyncedCellReads(tr[c], row[c]);
  }

  /** Which row the resize leaves at data position `r`: the old one, or a copy
      of the first data row. */
  lemma ResizedRowsLayout(trs: seq<Row>, n: nat, r: nat)
    requires |trs| >= 2 && r < n
    ensures ResizedRows(trs, n)[1 + r] == if 1 + r < |trs| then trs[1 + r] else trs[1]
  {
    if |trs| - 1 < n && 1 + r >= |trs| {
      var c := Copies(trs[1], n - (|trs| - 1));
      assert (trs + c)[1 + r] == c[1 + r - |trs|];
    }
  }

  /** The sync fails exactly when some resized data row has fewer items than
      cells it overwrites. */
  lemma SyncTableFailsIff(elems: seq<Element>, h: nat, rows: seq<seq<string>>, t: nat)
    requires FirstTableIndex(elems, h + 1) == Some(t) && |elems[t].rows| >= 2
    ensures var rs := ResizedRows(elems[t].rows, |rows|);
      SyncTableUnder(elems, h, rows).Err? <==> exists r :: 0 <= r < |rows| && !RowFits(rs[1 + r], rows[r])
  {
    var rs := ResizedRows(elems[t].rows, |rows|);
    if !AllRowsFit(rs[1..], rows) {
      var r :| 0 <= r < |rows| && !RowFits(rs[1..][r], rows[r]);
      assert rs[1..][r] == rs[1 + r];
    }
    if exists r :: 0 <= r < |rows| && !RowFits(rs[1 + r], rows[r]) {
      var r :| 0 <= r < |rows| && !RowFits(rs[1 + r], rows[r]);
      assert rs[1..][r] == rs[1 + r];
    }
  }

  /** `SyncTableUnder` once the table at `t` with a data row is found. */
  lemma SyncTableUnderFound(elems: seq<Element>, h: nat, rows: seq<seq<string>>, t: nat)
    requires FirstTableIndex(elems, h + 1) == Some(t) && |elems[t].rows| >= 2
    ensures var rs := ResizedRows(elems[t].rows, |rows|);
      SyncTableUnder(elems, h, rows) ==
        if AllRowsFit(rs[1..], rows)
        then Ok((elems[t := Tbl([rs[0]] + Zipped(rs[1..], 0, rows, SyncedRow))], TableChanges(rs[1..], rows)))
        else Err(IndexError)
  {
  }

  /** The rows of the synced table: the old header, then one synced resized
      row per given row. */
  lemma SyncedTableRows(trs: seq<Row>, rows: seq<seq<string>>)
    requires |trs| >= 2
    ensures var rs := ResizedRows(trs, |rows|);
      var d := [rs[0]] + Zipped(rs[1..], 0, rows, SyncedRow);
      |d| == 1 + |rows| && d[0] == trs[0] &&
      forall r :: 0 <= r < |rows| ==> d[1 + r] == SyncedRow(rs[1 + r], rows[r])
  {
    var rs := ResizedRows(trs, |rows|);
    var data := Zipped(rs[1..], 0, rows, SyncedRow);
    forall r | 0 <= r < |rows|
      ensures ([rs[0]] + data)[1 + r] == SyncedRow(rs[1 + r], rows[r])
    {
      assert rs[1..][r] == rs[1 + r];
    }
  }

  /** At most three cells of a data row are rewritten. */
  lemma RowChangesAtMost(tr: Row, row: seq<string>)
    ensures RowChanges(tr, row) <= 3
  {
    if RowFits(tr, row) {
      ZipSumAtMost(tr, 0, row[..CellsToSync(tr)], CellChange, 1);
    }
  }

  /** At most three cells per data row are rewritten in the whole table. */
  lemma TableChangesAtMost(data: seq<Row>, rows: seq<seq<string>>)
    requires |rows| <= |data|
    ensures TableChanges(data, rows) <= 3 * |rows|
  {
    forall tr: Row, row: seq<string>
      ensures RowChanges(tr, row) <= 3
    {
      RowChangesAtMost(tr, row);
    }
    ZipSumAtMost(data, 0, rows, RowChanges, 3);
  }

  /** After a sync that succeeds only the table changes: it keeps its header
      row, has exactly one data row per given row, each the synced resized
      row, and at most three cells per row were rewritten. */
  lemma SyncTableShape(elems: seq<Element>, h: nat, rows: seq<seq<string>>, t: nat)
    requires FirstTableIndex(elems, h + 1) == Some(t) && |elems[t].rows| >= 2
    requires SyncTableUnder(elems, h, rows).Ok?
    ensures var (b, c) := SyncTableUnder(elems, h, rows).value;
      var rs := ResizedRows(elems[t].rows, |rows|);
      |b| == |elems| && b[t].Tbl? && (forall m :: 0 <= m < |elems| && m != t ==> b[m] == elems[m]) &&
      |b[t].rows| == 1 + |rows| && b[t].rows[0] == elems[t].rows[0] && c <= 3 * |rows| &&
      forall r :: 0 <= r < |rows| ==> b[t].rows[1 + r] == SyncedRow(rs[1 + r], rows[r])
  {
    var rs := ResizedRows(elems[t].rows, |rows|);
    SyncTableUnderFound(elems, h, rows, t);
    SyncedTableRows(elems[t].rows, rows);
    TableChangesAtMost(rs[1..], rows);
  }

  // ---------------------------------------------------------------------------
  // the loops

  /** The table scan after the heading. */
  method ScanTable(elems: seq<Element>, idx: nat) returns (t: Option<nat>)
    ensures t == FirstTableIndex(elems, idx + 1)
  {
    var j := idx + 1;
    while j < |elems|
      invariant idx + 1 <= j
      invariant FirstTableIndex(elems, idx + 1) == FirstTableIndex(elems, j)
      decreases |elems| - j
    {
      if elems[j].Tbl? {
        return Some(j);
      }
      if IsHeadingElement(elems[j]) {
        return None;
      }
      j := j + 1;
    }
    return None;
  }

  /** The grow and shrink loops on the table's rows: copies of the first data
      row are appended, surplus rows removed from the end. */
  method ResizeRows(trs: seq<Row>, n: nat) returns (out: seq<Row>)
    requires |trs| >= 2
    ensures out == ResizedRows(trs, n)
  {
    var template := trs[1];
    out := trs;
    while |out| - 1 < n
      invariant |trs| <= |out| && out == trs + Copies(template, |out| - |trs|)
      invariant |trs| - 1 >= n ==> out == trs
      invariant |trs| - 1 < n ==> |out| <= 1 + n
      decreases n - (|out| - 1)
    {
      out := out + [template];
      assert Copies(template, |out| - |trs|) == Copies(template, |out| - 1 - |trs|) + [template];
    }
    while |out| - 1 > n
      invariant |trs| - 1 >= n ==> (1 + n <= |out| <= |trs| && out == trs[..|out|])
      invariant |trs| - 1 < n ==> out == ResizedRows(trs, n)
      decreases |out|
    {
      out := out[..|out| - 1];
    }
  }

  /** The overwrite loops over the data rows and their first cells. A row
      too short for its cells fails before any row is written; the script
      stops on that error, so the rows written before it are never saved. */
  method SyncDataRows(data: seq<Row>, rows: seq<seq<string>>) returns (r: Result<(seq<Row>, nat), Fault>)
    requires |data| == |rows|
    ensures r == SyncRows(data, rows)
  {
    if !AllRowsFit(data, rows) {
      return Err(IndexError);
    }
    var out, changed := ZipInPlace(data, 0, rows, SyncedRow, RowChanges);
    SpliceWhole(data, Zipped(data, 0, rows, SyncedRow));
    return Ok((out, changed));
  }

  /** `sync_table_under_heading` after the heading was found at `h`, on the body in place. */
  method SyncTableAfter(body: Body, h: nat, rows: seq<seq<string>>) returns (r: Result<nat, Fault>)
    modifies body
    ensures match SyncTableUnder(old(body.elems), h, rows)
      case Ok((b, c)) => r == Ok(c) && body.elems == b
      case Err(f) => r == Err(f)
  {
    var t := ScanTable(body.elems, h);
    if t.None? {
      return Ok(0);
    }
    var trs := body.elems[t.value].rows;
    if |trs| < 2 {
      return Ok(0);
    }
    var rs := ResizeRows(trs, |rows|);
    var synced := SyncDataRows(rs[1..], rows);
    if synced.Err? {
      return Err(synced.error);
    }
    body.Replace(t.value, Tbl([rs[0]] + synced.value.0));
    return Ok(synced.value.1);
  }

  /** `sync_table_under_heading`, run on the body in place. */
  method SyncTableUnderHeading(body: Body, heading: string, rows: seq<seq<string>>) returns (r: Result<nat, Fault>)
    modifies body
    ensures match SyncTableSpec(old(body.elems), heading, rows)
      case Ok((b, c)) => r == Ok(c) && body.elems == b
      case Err(f) => r == Err(f)
  {
    if |rows| == 0 {
      return Ok(0);
    }
    var found := FindHeadingIndex(body.elems, heading);
    if found.None? {
      return Ok(0);
    }
    r := SyncTableAfter(body, found.value, rows);
  }
}
