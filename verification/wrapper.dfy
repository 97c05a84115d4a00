/** The pure parts of the spreadsheet transport
    (src/google/sheets/wrapper.ts): cutting the JSON object out of the
    visualization endpoint's response, turning the decoded response into
    typed rows, and shaping batch-update requests. */
module Wrapper {
  import opened Wrappers
  import opened Strings
  import opened Values
  import opened SheetModels

  // ------------------------------------------------------ query response

  /** The response body is JSON wrapped in a function call: the text from
      the first `{` through the last `}`, taken with `substring`. A body
      with no `{`, or with no `}`, is an error. */
  function ExtractJson(body: string): (r: Result<string>)
    ensures r.Ok? <==> '{' in body && '}' in body
    ensures '{' !in body ==> r == Err(NoOpeningBrace)
    ensures '{' in body && '}' !in body ==> r == Err(NoClosingBrace)
  {
    var first := IndexOf(body, '{');
    if first == -1 then Err(NoOpeningBrace)
    else
      var last := LastIndexOf(body, '}');
      if last == -1 then
        assert body[first] == '{';
        Err(NoClosingBrace)
      else Ok(Substring(body, first, last + 1))
  }

  lemma {:induction false} SplitThree(s: string, a: nat, b: nat)
    requires a <= b <= |s|
    ensures s == s[..a] + s[a..b] + s[b..]
  {
  }

  /** When the first `{` comes before the last `}`, the extracted text runs
      from that `{` to that `}`: it starts with `{`, ends with `}`, and
      nothing of the body outside it is a `{` before or a `}` after. */
  lemma {:induction false} ExtractJsonWraps(body: string)
    requires '{' in body && '}' in body && IndexOf(body, '{') < LastIndexOf(body, '}')
    ensures ExtractJson(body).Ok?
    ensures ExtractJson(body).value == body[IndexOf(body, '{')..LastIndexOf(body, '}') + 1]
    ensures ExtractJson(body).value[0] == '{'
    ensures ExtractJson(body).value[|ExtractJson(body).value| - 1] == '}'
    ensures body == body[..IndexOf(body, '{')] + ExtractJson(body).value + body[LastIndexOf(body, '}') + 1..]
    ensures '{' !in body[..IndexOf(body, '{')] && '}' !in body[LastIndexOf(body, '}') + 1..]
  {
    var first := IndexOf(body, '{');
    var last := LastIndexOf(body, '}');
    ExtractJsonOrdered(body, first, last);
    var mid := body[first..last + 1];
    assert |mid| == last + 1 - first;
    assert mid[0] == body[first] && mid[|mid| - 1] == body[last];
    SplitThree(body, first, last + 1);
    TailAfterLast(body, '}');
  }

  lemma {:induction false} ExtractJsonOrdered(body: string, first: int, last: int)
    requires first == IndexOf(body, '{') && last == LastIndexOf(body, '}')
    requires 0 <= first < last
    ensures ExtractJson(body) == Ok(body[first..last + 1])
  {
  }

  /** Nothing after the last occurrence of a character is that character. */
  lemma {:induction false} TailAfterLast(s: string, c: char)
    requires c in s
    ensures 0 <= LastIndexOf(s, c) && c !in s[LastIndexOf(s, c) + 1..]
  {
    var last := LastIndexOf(s, c);
    assert s[IndexOf(s, c)] == c;
    var tail := s[last + 1..];
    forall j | 0 <= j < |tail| ensures tail[j] != c {
      assert tail[j] == s[last + 1 + j];
    }
  }

  /** When the last `}` comes before the first `{`, `substring` swaps its
      bounds: the text after that `}` up to, not including, the `{`. It is
      never a JSON object, since it cannot start with `{`. */
  lemma {:induction false} ExtractJsonSwapped(body: string)
    requires '{' in body && '}' in body && LastIndexOf(body, '}') < IndexOf(body, '{')
    ensures ExtractJson(body) == Ok(body[LastIndexOf(body, '}') + 1..IndexOf(body, '{')])
    ensures '{' !in ExtractJson(body).value
  {
    var first := IndexOf(body, '{');
    var last := LastIndexOf(body, '}');
    var r := body[last + 1..first];
    assert forall j :: 0 <= j < |r| ==> r[j] == body[..first][last + 1 + j];
  }

  /** `execQueryRows` before parsing: a status other than 200 is an error,
      otherwise the JSON part of the body. */
  function QueryResponseJson(status: int, body: string): (r: Result<string>)
    ensures status != 200 ==> r.Err? && r.error.Transport?
    ensures status == 200 ==> r == ExtractJson(body)
  {
    if status != 200 then Err(Transport("Failed to query rows, status: " + IntToString(status)))
    else ExtractJson(body)
  }

  // ------------------------------------------------------ raw result rows

  /** `RawQueryRowsResultCell`: the value and its formatted text. */
  datatype RawCell = RawCell(v: Value, f: Value)

  /** `RawQueryRowsResultColumn` */
  datatype RawColumn = RawColumn(id: string, colType: string)

  /** `RawQueryRowsResultRow`: a cell is `None` where the response has
      `null`. */
  datatype RawRow = RawRow(c: seq<Option<RawCell>>)

  /** `RawQueryRowsResultTable`: `rows` is `None` where it is missing. */
  datatype RawTable = RawTable(cols: seq<RawColumn>, rows: Option<seq<RawRow>>)

  /** `RawQueryRowsResult`: `table` is `None` where it is missing. */
  datatype RawResult = RawResult(table: Option<RawTable>)

  /** Column types whose cells are read from the value. */
  predicate IsValueType(t: string) {
    t == "boolean" || t == "number" || t == "string"
  }

  /** Column types whose cells are read from the formatted text. */
  predicate IsFormattedType(t: string) {
    t == "date" || t == "datetime" || t == "timeofday"
  }

  /** `convertRawValue(colType, cell)`: a missing cell is `null`, whatever
      the type; otherwise the type picks the value or the formatted text,
      and any other type is an error. */
  function ConvertRawValue(colType: string, cell: Option<RawCell>): (r: Result<Value>)
    ensures cell.None? ==> r == Ok(Null)
    ensures r.Ok? <==> cell.None? || IsValueType(colType) || IsFormattedType(colType)
    ensures cell.Some? && IsValueType(colType) ==> r == Ok(cell.value.v)
    ensures cell.Some? && IsFormattedType(colType) ==> r == Ok(cell.value.f)
    ensures r.Err? ==> r.error == UnsupportedCellType(colType)
  {
    match cell
    case None => Ok(Null)
    case Some(c) =>
      if IsValueType(colType) then Ok(c.v)
      else if IsFormattedType(colType) then Ok(c.f)
      else Err(UnsupportedCellType(colType))
  }

  /** The value and the formatted types are disjoint, so every supported
      type reads exactly one of the two fields. */
  lemma {:induction false} CellTypesDisjoint(t: string)
    ensures !(IsValueType(t) && IsFormattedType(t))
  {
    if IsValueType(t) {
      assert t[0] in {'b', 'n', 's'};
    }
  }

  /** Cell `i` of a row: `cols[i]!.type` is read before the cell is looked
      at, so a cell beyond the column metadata is an error even when it is
      `null`. */
  function ConvertCellAt(cols: seq<RawColumn>, cells: seq<Option<RawCell>>, i: nat): (r: Result<Value>)
    requires i < |cells|
    ensures i >= |cols| ==> r == Err(MissingColumnMetadata)
    ensures i < |cols| ==> r == ConvertRawValue(cols[i].colType, cells[i])
  {
    if i >= |cols| then Err(MissingColumnMetadata)
    else ConvertRawValue(cols[i].colType, cells[i])
  }

  /** The first cell of the row that fails. */
  predicate FirstBadCell(cols: seq<RawColumn>, cells: seq<Option<RawCell>>, i: int) {
    && 0 <= i < |cells|
    && ConvertCellAt(cols, cells, i).Err?
    && forall j :: 0 <= j < i ==> ConvertCellAt(cols, cells, j).Ok?
  }

  /** `row.c.map((cell, cellIdx) => convertRawValue(...))`: every cell
      converted by the type of its column, in order; the first cell that
      fails decides the error. */
  function ConvertRawRow(cols: seq<RawColumn>, cells: seq<Option<RawCell>>): (r: Result<seq<Value>>)
    ensures r.Ok? <==> forall i :: 0 <= i < |cells| ==> ConvertCellAt(cols, cells, i).Ok?
    ensures r.Ok? ==> |r.value| == |cells|
    ensures r.Ok? ==> forall i :: 0 <= i < |cells| ==> Ok(r.value[i]) == ConvertCellAt(cols, cells, i)
    ensures r.Err? ==> exists i :: FirstBadCell(cols, cells, i) && r.error == ConvertCellAt(cols, cells, i).error
    decreases |cells|
  {
    if |cells| == 0 then Ok([])
    else
      var n := |cells| - 1;
      var init := cells[..n];
      assert forall i :: 0 <= i < n ==> ConvertCellAt(cols, init, i) == ConvertCellAt(cols, cells, i);
      match ConvertRawRow(cols, init)
      case Err(err) =>
        var i :| FirstBadCell(cols, init, i) && err == ConvertCellAt(cols, init, i).error;
        assert FirstBadCell(cols, cells, i);
        Err(err)
      case Ok(prefix) =>
        match ConvertCellAt(cols, cells, n)
        case Err(err) =>
          assert FirstBadCell(cols, cells, n);
          Err(err)
        case Ok(v) => Ok(prefix + [v])
  }

  /** The first row that fails. */
  predicate FirstBadRow(cols: seq<RawColumn>, rows: seq<RawRow>, i: int) {
    && 0 <= i < |rows|
    && ConvertRawRow(cols, rows[i].c).Err?
    && forall j :: 0 <= j < i ==> ConvertRawRow(cols, rows[j].c).Ok?
  }

  /** Every row converted, in order; the first row that fails decides the
      error. */
  function ConvertRawRows(cols: seq<RawColumn>, rows: seq<RawRow>): (r: Result<seq<seq<Value>>>)
    ensures r.Ok? <==> forall i :: 0 <= i < |rows| ==> ConvertRawRow(cols, rows[i].c).Ok?
    ensures r.Ok? ==> |r.value| == |rows|
    ensures r.Ok? ==> forall i :: 0 <= i < |rows| ==> Ok(r.value[i]) == ConvertRawRow(cols, rows[i].c)
    ensures r.Err? ==> exists i :: FirstBadRow(cols, rows, i) && r.error == ConvertRawRow(cols, rows[i].c).error
    decreases |rows|
  {
    if |rows| == 0 then Ok([])
    else
      var head :- ConvertRawRow(cols, rows[0].c);
      var tail := ConvertRawRows(cols, rows[1..]);
      if tail.Err? then
        var j :| FirstBadRow(cols, rows[1..], j) && tail.error == ConvertRawRow(cols, rows[1..][j].c).error;
        assert FirstBadRow(cols, rows, j + 1);
        Err(tail.error)
      else
        assert forall i :: 1 <= i < |rows| ==> rows[i] == rows[1..][i - 1];
        Ok([head] + tail.value)
  }

  /** `toQueryRowsResult(raw)`: no table, or a table without rows, gives
      no rows; otherwise the rows converted by the column types. */
  function ToQueryRowsResult(raw: RawResult): (r: Result<seq<seq<Value>>>)
    ensures raw.table.None? || raw.table.value.rows.None? ==> r == Ok([])
    ensures raw.table.Some? && raw.table.value.rows.Some? ==>
      r == ConvertRawRows(raw.table.value.cols, raw.table.value.rows.value)
  {
    match raw.table
    case None => Ok([])
    case Some(t) =>
      match t.rows
      case None => Ok([])
      case Some(rows) => ConvertRawRows(t.cols, rows)
  }

  /** A response whose columns all have supported types, and whose rows
      are no wider than the column metadata, always converts; rows and
      cells keep their order and each cell is the value or the formatted
      text its column type selects, or `null` where it is missing. */
  lemma {:induction false} WellTypedResultConverts(cols: seq<RawColumn>, rows: seq<RawRow>)
    requires forall j :: 0 <= j < |cols| ==> IsValueType(cols[j].colType) || IsFormattedType(cols[j].colType)
    requires forall i :: 0 <= i < |rows| ==> |rows[i].c| <= |cols|
    ensures ToQueryRowsResult(RawResult(Some(RawTable(cols, Some(rows))))).Ok?
    ensures forall i, j :: 0 <= i < |rows| && 0 <= j < |rows[i].c| ==>
      |ToQueryRowsResult(RawResult(Some(RawTable(cols, Some(rows))))).value[i]| == |rows[i].c| &&
      ToQueryRowsResult(RawResult(Some(RawTable(cols, Some(rows))))).value[i][j]
        == match rows[i].c[j]
           case None => Null
           case Some(cell) => if IsValueType(cols[j].colType) then cell.v else cell.f
  {
    forall i | 0 <= i < |rows| ensures ConvertRawRow(cols, rows[i].c).Ok? {
      forall j | 0 <= j < |rows[i].c| ensures ConvertCellAt(cols, rows[i].c, j).Ok? {
      }
    }
    var r := ConvertRawRows(cols, rows).value;
    forall i, j | 0 <= i < |rows| && 0 <= j < |rows[i].c|
      ensures |r[i]| == |rows[i].c|
      ensures r[i][j] == match rows[i].c[j]
                         case None => Null
                         case Some(cell) => if IsValueType(cols[j].colType) then cell.v else cell.f
    {
      assert Ok(r[i]) == ConvertRawRow(cols, rows[i].c);
      assert Ok(r[i][j]) == ConvertCellAt(cols, rows[i].c, j);
      CellTypesDisjoint(cols[j].colType);
    }
  }

  /** One unsupported column type fails the whole result, but only
      through a cell that is present: a `null` cell of that column is
      still read as `null`. */
  lemma {:induction false} UnsupportedTypeFailsOnlyPresentCells(cols: seq<RawColumn>, cells: seq<Option<RawCell>>, j: nat)
    requires j < |cols| && j < |cells|
    requires !IsValueType(cols[j].colType) && !IsFormattedType(cols[j].colType)
    ensures cells[j].Some? ==> ConvertRawRow(cols, cells).Err?
    ensures cells[j].None? ==> ConvertCellAt(cols, cells, j) == Ok(Null)
  {
    if cells[j].Some? {
      assert ConvertCellAt(cols, cells, j).Err?;
      assert !(forall i :: 0 <= i < |cells| ==> ConvertCellAt(cols, cells, i).Ok?);
    }
  }

  // ------------------------------------------------------ batch updates

  /** One entry of the batch-update request body. */
  datatype ValueRange = ValueRange(majorDimension: string, range: string, values: seq<seq<Value>>)

  /** `MAJOR_DIMENSION_ROWS` */
  const MajorDimensionRows: string := "ROWS"

  /** The request body `batchUpdateRows` builds: one entry per request,
      in order, laid out by rows. */
  function BatchUpdateData(requests: seq<BatchUpdateRowsRequest>): (data: seq<ValueRange>)
    ensures |data| == |requests|
    ensures forall i :: 0 <= i < |data| ==> data[i].majorDimension == MajorDimensionRows
  {
    seq(|requests|, i requires 0 <= i < |requests| =>
      ValueRange(MajorDimensionRows, requests[i].a1Range, requests[i].values))
  }

  /** The body loses nothing: reading each entry's range and values back
      gives the requests. */
  lemma {:induction false} BatchUpdateDataRoundTrip(requests: seq<BatchUpdateRowsRequest>)
    ensures forall i :: 0 <= i < |requests| ==>
      BatchUpdateRowsRequest(BatchUpdateData(requests)[i].range, BatchUpdateData(requests)[i].values) == requests[i]
  {
  }
}
