/**
  The table extractor inside `processExcelFile` (app/dashboard/page.tsx):
  from the raw grid the workbook reader delivers, the header list, the
  retained data rows, one record per row, and the column analysis.
*/
module Extraction {
  import opened Wrappers
  import opened JsValues
  import opened Coercion
  import opened Profiler

  /** What the extractor hands back besides the records (the sheet range is not modelled). */
  datatype DebugInfo = DebugInfo(
    totalRawRows: nat,
    totalProcessedRows: nat,
    headers: seq<string>,
    columnAnalysis: seq<ColumnAnalysis>,
    sampleProcessedData: seq<Record>)

  datatype Processed = Processed(data: seq<Record>, columns: seq<string>, debugInfo: DebugInfo)

  const EmptySheetMessage := "Empty Excel file"

  /**
    The name of the header cell at original column `index`: a blank cell is
    named "Column_" followed by the 1-based position in decimal; any other
    cell is its displayed text, trimmed.
  */
  function HeaderName(rt: JsRuntime, cell: Cell, index: nat): (r: string)
    ensures IsBlank(cell) ==>
      && |r| > 7 && r[..7] == "Column_" && r[7] != '0'
      && (forall k :: 7 <= k < |r| ==> '0' <= r[k] <= '9')
      && DecimalValue(r[7..]) == index + 1
    ensures !IsBlank(cell) ==>
      && r == Trim(Display(rt, cell))
      && |r| <= |Display(rt, cell)|
      && (r == [] <==> AllWhitespace(Display(rt, cell)))
      && HasCleanEnds(r)
  {
    if IsBlank(cell) then
      var digits := DecimalString(index + 1);
      DecimalStringRoundTrip(index + 1);
      assert ("Column_" + digits)[7..] == digits;
      "Column_" + digits
    else Trim(Display(rt, cell))
  }

  /** A blank header cell is named after its 1-based position, so two blank columns never share a name. */
  lemma PlaceholderNames(rt: JsRuntime, c1: Cell, i: nat, c2: Cell, j: nat)
    requires IsBlank(c1) && IsBlank(c2)
    ensures HeaderName(rt, c1, i) != ""
    ensures HeaderName(rt, c1, i) == HeaderName(rt, c2, j) <==> i == j
  {
    var prefix, a, b := "Column_", DecimalString(i + 1), DecimalString(j + 1);
    assert HeaderName(rt, c1, i) == prefix + a && HeaderName(rt, c2, j) == prefix + b;
    if i != j {
      DecimalStringDistinct(i + 1, j + 1);
      assert (prefix + a)[|prefix|..] == a && (prefix + b)[|prefix|..] == b;
    }
  }

  /**
    The blank test comes before the trim: a header cell holding only
    whitespace is not blank and becomes the empty name.
  */
  lemma WhitespaceHeaderIsEmpty(rt: JsRuntime, s: string, index: nat)
    requires s != "" && AllWhitespace(s)
    ensures HeaderName(rt, Str(s), index) == ""
  {
  }

  /** A header text with no surrounding whitespace is used as it is. */
  lemma TrimmedTextHeader(rt: JsRuntime, s: string, index: nat)
    requires s != "" && HasCleanEnds(s)
    ensures HeaderName(rt, Str(s), index) == s
  {
    TrimKeepsTrimmed(s);
  }

  /** Some row below the header holds a non-blank value at original column `index`. */
  function HasData(grid: Grid, index: nat): (b: bool)
    ensures |grid| <= 1 ==> !b
    ensures b ==> exists r :: 1 <= r < |grid| && index < |grid[r]| && !IsBlank(grid[r][index])
    ensures !b ==> forall r :: 1 <= r < |grid| && index < |grid[r]| ==> IsBlank(grid[r][index])
  {
    exists r :: 1 <= r < |grid| && !IsBlank(At(grid[r], index))
  }

  /** The original indices below `n` of the columns the header filter keeps, in increasing order. */
  function KeptColumns(grid: Grid, n: nat): (r: seq<nat>)
    ensures |r| <= n
    ensures forall k :: 0 <= k < |r| ==> r[k] < n && HasData(grid, r[k])
    ensures forall i :: 0 <= i < n && HasData(grid, i) ==> i in r
    ensures forall a, b :: 0 <= a < b < |r| ==> r[a] < r[b]
  {
    if n == 0 then [] else KeptColumns(grid, n - 1) + (if HasData(grid, n - 1) then [n - 1] else [])
  }

  /** When no column below `n` is dropped, the kept indices are exactly 0, 1, ..., n-1. */
  lemma {:induction false} NothingDroppedIsIdentity(grid: Grid, n: nat)
    requires |KeptColumns(grid, n)| == n
    ensures forall k :: 0 <= k < n ==> KeptColumns(grid, n)[k] == k
  {
    if n > 0 {
      var kept, prev := KeptColumns(grid, n), KeptColumns(grid, n - 1);
      var last := if HasData(grid, n - 1) then [n - 1] else [];
      assert kept == prev + last;
      assert |prev| <= n - 1;
      assert last == [n - 1];
      NothingDroppedIsIdentity(grid, n - 1);
      forall k | 0 <= k < n
        ensures kept[k] == k
      {
        if k < n - 1 {
          assert kept[k] == prev[k];
        }
      }
    }
  }

  /**
    `rawData[0].map(name).filter(hasData)`: the names of the kept columns, in
    column order. The filter tests each name at its original index.
  */
  function Headers(rt: JsRuntime, grid: Grid): (h: seq<string>)
    requires |grid| > 0
    ensures |h| == |KeptColumns(grid, |grid[0]|)| <= |grid[0]|
    ensures forall k :: 0 <= k < |h| ==>
      var i := KeptColumns(grid, |grid[0]|)[k]; h[k] == HeaderName(rt, grid[0][i], i)
  {
    var kept := KeptColumns(grid, |grid[0]|);
    seq(|kept|, k requires 0 <= k < |kept| => HeaderName(rt, grid[0][kept[k]], kept[k]))
  }

  /** A grid with only a header row has no column with data, hence no headers. */
  lemma HeaderOnlyGridHasNoHeaders(rt: JsRuntime, grid: Grid)
    requires |grid| > 0
    ensures |grid| == 1 ==> Headers(rt, grid) == []
  {
    var kept := KeptColumns(grid, |grid[0]|);
    assert kept != [] ==> HasData(grid, kept[0]);
  }

  /** `row.some(cell => cell !== null && cell !== undefined && cell !== "")`. */
  function RowHasContent(row: seq<Cell>): (b: bool)
    ensures row == [] ==> !b
    ensures !b <==> forall j :: 0 <= j < |row| ==> IsBlank(row[j])
  {
    exists j :: 0 <= j < |row| && !IsBlank(row[j])
  }

  /** The rows that are not fully blank, in their original order. */
  function ContentRows(rows: seq<seq<Cell>>): (r: seq<seq<Cell>>)
    ensures |r| <= |rows|
    ensures forall k :: 0 <= k < |r| ==> RowHasContent(r[k])
    ensures forall row :: row in rows && RowHasContent(row) <==> row in r
  {
    if rows == [] then []
    else
      assert forall i :: 1 <= i < |rows| ==> rows[i] == rows[1..][i - 1];
      (if RowHasContent(rows[0]) then [rows[0]] else []) + ContentRows(rows[1..])
  }

  /** Row filtering keeps the order of the rows: it distributes over concatenation. */
  lemma {:induction false} ContentRowsConcat(a: seq<seq<Cell>>, b: seq<seq<Cell>>)
    ensures ContentRows(a + b) == ContentRows(a) + ContentRows(b)
  {
    if a == [] {
      assert a + b == b;
    } else {
      assert (a + b)[1..] == a[1..] + b;
      ContentRowsConcat(a[1..], b);
    }
  }

  /** The data rows: every row after the header row that has some non-blank cell. */
  function DataRows(grid: Grid): (r: seq<seq<Cell>>)
    requires |grid| > 0
    ensures |r| <= |grid| - 1
    ensures forall row :: row in r <==> row in grid[1..] && RowHasContent(row)
  {
    ContentRows(grid[1..])
  }

  /** `headers[k]` is the last header with its name: a later write never overwrites it. */
  predicate LastOccurrence(headers: seq<string>, k: nat)
    requires k < |headers|
  {
    forall j :: k < j < |headers| ==> headers[j] != headers[k]
  }

  /**
    The object a sequence of writes `obj[names[k]] = values[k]` (k ascending)
    leaves behind: a key for every name, and under each name the value of
    its last write.
  */
  function Assign(names: seq<string>, values: seq<Cell>): (r: Record)
    requires |names| == |values|
    ensures r.Keys == set h | h in names
    ensures forall k :: 0 <= k < |names| && LastOccurrence(names, k) ==> r[names[k]] == values[k]
  {
    if names == [] then map[]
    else
      var n := |names| - 1;
      var prefix := names[..n];
      var before := Assign(prefix, values[..n]);
      var r := before[names[n] := values[n]];
      assert r.Keys == set h | h in names by {
        assert names == prefix + [names[n]];
      }
      forall k | 0 <= k < |names| && LastOccurrence(names, k) ensures r[names[k]] == values[k] {
        if k < n {
          assert prefix[k] == names[k] && names[n] != names[k];
          assert LastOccurrence(prefix, k);
        }
      }
      r
  }

  /** The coerced cells at positions 0 .. count-1 of a row. */
  function CoercedCells(rt: JsRuntime, count: nat, row: seq<Cell>): (r: seq<Cell>)
    ensures |r| == count
    ensures forall k :: 0 <= k < count ==> r[k] == Coerce(rt, At(row, k))
  {
    seq(count, k requires 0 <= k < count => Coerce(rt, At(row, k)))
  }

  /**
    The record `headers.forEach((header, colIndex) => obj[header] = coerce(row[colIndex]))`
    builds: a key for every header, and under each name the coerced cell at
    the position, in the header list, of the last header with that name.
  */
  function RecordOf(rt: JsRuntime, headers: seq<string>, row: seq<Cell>): (r: Record)
    ensures r.Keys == set h | h in headers
    ensures forall k :: 0 <= k < |headers| && LastOccurrence(headers, k) ==>
      r[headers[k]] == Coerce(rt, At(row, k))
  {
    Assign(headers, CoercedCells(rt, |headers|, row))
  }

  /** Record construction: the loop over the headers that fills one record. */
  method BuildRecord(rt: JsRuntime, headers: seq<string>, row: seq<Cell>) returns (obj: Record)
    ensures obj == RecordOf(rt, headers, row)
    ensures forall h :: h in headers <==> h in obj
  {
    ghost var cells := CoercedCells(rt, |headers|, row);
    obj := map[];
    for k := 0 to |headers|
      invariant obj == Assign(headers[..k], cells[..k])
    {
      AssignStep(headers, cells, k);
      obj := obj[headers[k] := Coerce(rt, At(row, k))];
    }
    assert headers[..|headers|] == headers;
    assert cells[..|headers|] == cells;
  }

  /** One more write on top of the writes for the first `k` names. */
  lemma AssignStep(names: seq<string>, values: seq<Cell>, k: nat)
    requires |names| == |values| && k < |names|
    ensures Assign(names[..k + 1], values[..k + 1]) == Assign(names[..k], values[..k])[names[k] := values[k]]
  {
    assert names[..k + 1][..k] == names[..k];
    assert values[..k + 1][..k] == values[..k];
  }

  /** One record per data row, in row order. */
  function Records(rt: JsRuntime, headers: seq<string>, rows: seq<seq<Cell>>): (r: seq<Record>)
    ensures |r| == |rows|
    ensures forall i :: 0 <= i < |rows| ==> r[i] == RecordOf(rt, headers, rows[i])
  {
    seq(|rows|, i requires 0 <= i < |rows| => RecordOf(rt, headers, rows[i]))
  }

  /**
    The outcome of the extraction: an empty grid is rejected; otherwise the
    headers, the records of the data rows and the per-column analysis.
  */
  function Extracted(rt: JsRuntime, grid: Grid): (r: Result<Processed, string>)
    ensures r.Failure? <==> |grid| == 0
    ensures r.Failure? ==> r.error == EmptySheetMessage
    ensures r.Success? ==>
      && r.value.columns == Headers(rt, grid)
      && r.value.data == Records(rt, r.value.columns, DataRows(grid))
      && r.value.debugInfo.columnAnalysis == AnalyzeColumns(r.value.columns, r.value.data)
    ensures r.Success? ==>
      && |r.value.columns| <= |grid[0]|
      && |r.value.data| <= |grid| - 1
      && |r.value.debugInfo.columnAnalysis| == |r.value.columns|
      && r.value.debugInfo.totalRawRows == |grid|
      && r.value.debugInfo.totalProcessedRows == |r.value.data|
      && r.value.debugInfo.headers == r.value.columns
      && r.value.debugInfo.sampleProcessedData <= r.value.data
      && |r.value.debugInfo.sampleProcessedData| == Min(3, |r.value.data|)
      && (|grid| == 1 ==> r.value.columns == [] && r.value.data == [])
      && (forall i :: 0 <= i < |r.value.data| ==>
            forall h :: h in r.value.columns ==> h in r.value.data[i])
  {
    if |grid| == 0 then Failure(EmptySheetMessage)
    else
      var headers := Headers(rt, grid);
      var data := Records(rt, headers, DataRows(grid));
      var analysis := AnalyzeColumns(headers, data);
      HeaderOnlyGridHasNoHeaders(rt, grid);
      Success(Processed(data, headers, DebugInfo(|grid|, |data|, headers, analysis, data[..Min(3, |data|)])))
  }

  /** The extraction as the page runs it: filter, then fill the records one by one, then analyse. */
  method ProcessGrid(rt: JsRuntime, grid: Grid) returns (r: Result<Processed, string>)
    ensures r == Extracted(rt, grid)
  {
    if |grid| == 0 {
      return Failure(EmptySheetMessage);
    }
    var headers := Headers(rt, grid);
    var rows := DataRows(grid);
    var data: seq<Record> := [];
    for i := 0 to |rows|
      invariant |data| == i
      invariant forall j :: 0 <= j < i ==> data[j] == RecordOf(rt, headers, rows[j])
    {
      var obj := BuildRecord(rt, headers, rows[i]);
      data := data + [obj];
    }
    assert data == Records(rt, headers, rows);
    var analysis := AnalyzeColumns(headers, data);
    r := Success(Processed(data, headers, DebugInfo(|grid|, |data|, headers, analysis, data[..Min(3, |data|)])));
  }

  /**
    `processExcelFile`: a reader failure is passed on; a grid the reader
    delivered goes through the extraction.
  */
  method ProcessExcelFile(rt: JsRuntime, read: Result<Grid, string>) returns (r: Result<Processed, string>)
    ensures read.Failure? ==> r == Failure(read.error)
    ensures read.Success? ==> r == Extracted(rt, read.value)
  {
    match read
    case Failure(message) => r := Failure(message);
    case Success(grid) => r := ProcessGrid(rt, grid);
  }

  // ---------------------------------------------------------------------------
  // Record values read the cell at the header's position in the FILTERED list.

  /**
    The record the header filter evidently intends: the value under the k-th
    kept header is the cell at that column's original index `kept[k]`.
  */
  function AlignedRecordOf(rt: JsRuntime, headers: seq<string>, kept: seq<nat>, row: seq<Cell>): (r: Record)
    requires |kept| == |headers|
    ensures r.Keys == set h | h in headers
    ensures forall k :: 0 <= k < |headers| && LastOccurrence(headers, k) ==>
      r[headers[k]] == Coerce(rt, At(row, kept[k]))
  {
    Assign(headers, seq(|kept|, k requires 0 <= k < |kept| => Coerce(rt, At(row, kept[k]))))
  }

  /** When the header filter drops no column, the record as built equals the intended one. */
  lemma RecordsAgreeWhenNothingDropped(rt: JsRuntime, grid: Grid, row: seq<Cell>)
    requires |grid| > 0
    requires |KeptColumns(grid, |grid[0]|)| == |grid[0]|
    ensures var headers := Headers(rt, grid);
      RecordOf(rt, headers, row) == AlignedRecordOf(rt, headers, KeptColumns(grid, |grid[0]|), row)
  {
    var headers := Headers(rt, grid);
    var kept := KeptColumns(grid, |grid[0]|);
    NothingDroppedIsIdentity(grid, |grid[0]|);
    assert CoercedCells(rt, |headers|, row)
        == seq(|kept|, k requires 0 <= k < |kept| => Coerce(rt, At(row, kept[k])));
  }

  /**
    Every value of a record is the coerced cell of some position that
    carries its key: the last header with that name.
  */
  lemma RecordValueIsCoercedCell(rt: JsRuntime, headers: seq<string>, row: seq<Cell>, h: string)
    requires h in headers
    ensures h in RecordOf(rt, headers, row)
    ensures exists k :: 0 <= k < |headers| && headers[k] == h && RecordOf(rt, headers, row)[h] == Coerce(rt, At(row, k))
  {
    LastIndexExists(headers, h);
  }

  /** A name that occurs in the list has a last occurrence. */
  lemma LastIndexExists(headers: seq<string>, h: string)
    requires h in headers
    ensures exists k :: 0 <= k < |headers| && headers[k] == h && LastOccurrence(headers, k)
  {
    var i :| 0 <= i < |headers| && headers[i] == h;
    LastIndexFrom(headers, i);
  }

  /** From any occurrence, a later-or-equal last occurrence of the same name. */
  lemma {:induction false} LastIndexFrom(headers: seq<string>, i: nat)
    requires i < |headers|
    ensures exists k :: i <= k < |headers| && headers[k] == headers[i] && LastOccurrence(headers, k)
    decreases |headers| - i
  {
    if !LastOccurrence(headers, i) {
      var j :| i < j < |headers| && headers[j] == headers[i];
      LastIndexFrom(headers, j);
    }
  }

  /** A header row "Name", "", "Sales" over two rows whose middle cell is empty. */
  function SalesGrid(): Grid {
    [[Str("Name"), Str(""), Str("Sales")],
     [Str("A"), Null, Num(Finite(100.0))],
     [Str("B"), Null, Str("200")]]
  }

  /** Only the middle column of the sales grid has no data below the header. */
  lemma SalesGridData()
    ensures HasData(SalesGrid(), 0) && !HasData(SalesGrid(), 1) && HasData(SalesGrid(), 2)
  {
    var g := SalesGrid();
    assert !IsBlank(At(g[1], 0)) && !IsBlank(At(g[1], 2));
    assert IsBlank(At(g[1], 1)) && IsBlank(At(g[2], 1));
  }

  /** Of three columns, only the middle one lacks data: the first and the last are kept. */
  lemma KeptFirstAndLast(g: Grid)
    requires HasData(g, 0) && !HasData(g, 1) && HasData(g, 2)
    ensures KeptColumns(g, 3) == [0, 2]
  {
    assert KeptColumns(g, 1) == KeptColumns(g, 0) + [0];
    assert KeptColumns(g, 2) == KeptColumns(g, 1);
  }

  /**
    When the middle of three columns has no data, the last header sits at
    position 1 and every record reads it from the dropped middle column, so
    every record holds null under the last header.
  */
  lemma MisalignedLastColumn(rt: JsRuntime, g: Grid)
    requires |g| > 0 && |g[0]| == 3
    requires HasData(g, 0) && !HasData(g, 1) && HasData(g, 2)
    ensures Extracted(rt, g).Success?
    ensures var p := Extracted(rt, g).value;
      && |p.columns| == 2
      && forall i :: 0 <= i < |p.data| ==> p.data[i][p.columns[1]] == Null
  {
    KeptFirstAndLast(g);
    var h := Headers(rt, g);
    var rows := DataRows(g);
    var data := Records(rt, h, rows);
    assert Extracted(rt, g).value.columns == h;
    assert Extracted(rt, g).value.data == data;
    assert LastOccurrence(h, 1);
    forall i | 0 <= i < |data|
      ensures data[i][h[1]] == Null
    {
      assert rows[i] in rows;
      var j :| 0 <= j < |g[1..]| && g[1..][j] == rows[i];
      assert IsBlank(At(g[j + 1], 1));
      assert data[i][h[1]] == Coerce(rt, At(rows[i], 1));
    }
  }

  lemma SalesGridRows()
    ensures DataRows(SalesGrid()) == SalesGrid()[1..]
  {
    var g := SalesGrid();
    assert RowHasContent(g[1]) by { assert !IsBlank(g[1][0]); }
    assert RowHasContent(g[2]) by { assert !IsBlank(g[2][0]); }
    assert g[1..][1..] == [g[2]];
    assert ContentRows(g[1..][1..]) == [g[2]];
  }

  /**
    In the sales grid the empty middle column is dropped, so both records
    hold null under the last header ("Sales") although both rows have a
    sales value.
  */
  lemma MisalignedSalesColumn(rt: JsRuntime)
    ensures Extracted(rt, SalesGrid()).Success?
    ensures var p := Extracted(rt, SalesGrid()).value;
      && |p.columns| == 2
      && |p.data| == 2
      && p.columns[1] in p.data[0] && p.data[0][p.columns[1]] == Null
      && p.columns[1] in p.data[1] && p.data[1][p.columns[1]] == Null
  {
    SalesGridData();
    MisalignedLastColumn(rt, SalesGrid());
    SalesGridRows();
  }

  /** Reading each kept column at its original index gives the first row its sales value, 100. */
  lemma AlignedSalesColumn(rt: JsRuntime)
    ensures AlignedRecordOf(rt, ["Name", "Sales"], [0, 2], SalesGrid()[1])["Sales"] == Num(Finite(100.0))
  {
    var headers := ["Name", "Sales"];
    assert LastOccurrence(headers, 1);
    assert At(SalesGrid()[1], 2) == Num(Finite(100.0));
  }
}
