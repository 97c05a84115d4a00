/** The statements of the row store (src/google/store/stmt.ts). Each
    `exec` is a pure function of the statement and of the answer the
    transport gives to its row query; it returns the transport calls the
    statement issues, in order, and its outcome. */
module Stmt {
  import opened Wrappers
  import opened Strings
  import opened Values
  import opened OrderedMap
  import opened Columns
  import opened SheetModels
  import opened StoreModels
  import opened Query

  /** What a statement reads from its store: the spreadsheet and sheet,
      the configured columns (with `_rid` in front), the column mapping and
      the columns that hold formulas. */
  datatype RowStore = RowStore(
    spreadsheetId: string,
    sheetName: string,
    columns: seq<string>,
    mapping: ColsMapping,
    formulaCols: set<string>)

  /** A call on the spreadsheet transport. */
  datatype Call =
    | CreateSheet(spreadsheetId: string, sheetName: string)
    | QueryRows(spreadsheetId: string, sheetName: string, query: string, skipHeader: bool)
    | OverwriteRows(spreadsheetId: string, a1Range: string, values: seq<seq<Value>>)
    | UpdateRows(spreadsheetId: string, a1Range: string, values: seq<seq<Value>>)
    | BatchUpdateRows(spreadsheetId: string, requests: seq<BatchUpdateRowsRequest>)
    | Clear(spreadsheetId: string, ranges: seq<string>)

  /** The calls an execution issues and what it returns or raises. */
  datatype Exec<T> = Exec(calls: seq<Call>, outcome: Result<T>)

  /** `ridWhereClauseInterceptor(where)`: every condition is guarded by
      `_rid is not null`, so rows never written are never matched; the
      guard adds no placeholder. */
  function RidWhereClauseInterceptor(where: string): (r: string)
    ensures StartsWith(r, WhereEmptyCondition)
    ensures |where| == 0 ==> r == WhereEmptyCondition
    ensures |where| > 0 ==> r[|WhereEmptyCondition|..] == " AND " + where
    ensures CountChar(r, '?') == CountChar(where, '?')
  {
    if |where| > 0 then
      var r := WhereNonEmptyCondition(where);
      CountCharAppend(WhereEmptyCondition + " AND ", where, '?');
      CountCharAbsent(WhereEmptyCondition + " AND ", '?');
      r
    else
      CountCharAbsent(WhereEmptyCondition, '?');
      WhereEmptyCondition
  }

  /** The query builder every statement starts from: the store's name
      map as replacer and the row-identity guard as interceptor. */
  function StoreQuery(store: RowStore, columns: seq<string>): QueryBuilder
  {
    NewQueryBuilder(GetNameMap(store.mapping), Some(RidWhereClauseInterceptor), columns)
  }

  /** Whatever condition a statement is given, the text that is bound is
      guarded, and it has the same placeholders as the condition. */
  lemma {:induction false} GuardOnEveryQuery(store: RowStore, columns: seq<string>, cond: string, args: seq<Value>)
    ensures StartsWith(InterceptedWhere(Where(StoreQuery(store, columns), cond, args)), WhereEmptyCondition)
    ensures WhereText(Where(StoreQuery(store, columns), cond, args)).Err?
              && WhereText(Where(StoreQuery(store, columns), cond, args)).error.ArityMismatch?
            <==> CountChar(cond, '?') != |args|
  {
  }

  // ---------------------------------------------------------------- select

  type Record = seq<(string, Value)>

  datatype SelectStmt = SelectStmt(store: RowStore, columns: seq<string>, query: QueryBuilder)

  /** `new GoogleSheetSelectStmt(store, columns)`: no columns means all
      the configured ones. */
  function NewSelect(store: RowStore, columns: seq<string>): (s: SelectStmt)
    ensures s.columns == if |columns| == 0 then store.columns else columns
    ensures s.query == StoreQuery(store, s.columns)
  {
    var cols := if |columns| == 0 then store.columns else columns;
    SelectStmt(store, cols, StoreQuery(store, cols))
  }

  function SelectWhere(s: SelectStmt, cond: string, args: seq<Value>): SelectStmt
  {
    s.(query := Where(s.query, cond, args))
  }

  function SelectOrderBy(s: SelectStmt, ordering: seq<ColumnOrderBy>): SelectStmt
  {
    s.(query := OrderBy(s.query, ordering))
  }

  function SelectLimit(s: SelectStmt, limit: real): SelectStmt
  {
    s.(query := Limit(s.query, limit))
  }

  function SelectOffset(s: SelectStmt, offset: real): SelectStmt
  {
    s.(query := Offset(s.query, offset))
  }

  /** `row[idx]`: reading past the end gives `undefined`. */
  function Cell(row: seq<Value>, i: nat): Value
  {
    if i < |row| then row[i] else Undef
  }

  /** The record of one row built from all selected columns. */
  function BuildRecord(columns: seq<string>, row: seq<Value>): (r: Record)
    ensures DistinctKeys(r)
    ensures forall k :: Has(r, k) <==> k in columns && k != RowIdxCol
    ensures forall k, j :: IsLastIndex(columns, k, j) && k != RowIdxCol ==> Get(r, k) == Some(Cell(row, j))
    decreases |columns|
  {
    if |columns| == 0 then []
    else
      var init := columns[..|columns| - 1];
      var last := |columns| - 1;
      var r0 := BuildRecord(init, row);
      assert forall k :: k in columns <==> k in init || k == columns[last] by {
        assert columns == init + [columns[last]];
      }
      assert forall k, j :: IsLastIndex(columns, k, j) && k != columns[last] ==> IsLastIndex(init, k, j);
      if columns[last] == RowIdxCol then r0
      else
        var r := Put(r0, columns[last], Cell(row, last));
        assert forall k :: Has(r, k) <==> Has(r0, k) || k == columns[last] by {
          forall k ensures Has(r, k) <==> Has(r0, k) || k == columns[last] {
            if k != columns[last] {
              assert Get(r, k) == Get(r0, k);
            }
          }
        }
        r
  }

  /** `buildQueryResultMap`: one record per row, in order; each selected
      column other than `_rid` maps to the cell at its position, so
      skipping `_rid` does not shift the other cells. */
  function BuildQueryResultMap(columns: seq<string>, rows: seq<seq<Value>>): (r: seq<Record>)
    ensures |r| == |rows|
    ensures forall i :: 0 <= i < |rows| ==> r[i] == BuildRecord(columns, rows[i])
  {
    seq(|rows|, i requires 0 <= i < |rows| => BuildRecord(columns, rows[i]))
  }

  /** `GoogleSheetSelectStmt.exec`: a query that cannot be generated
      raises before any call; otherwise one `queryRows` call with the
      generated text, then the rows become records. */
  function SelectExec(s: SelectStmt, answer: Result<seq<seq<Value>>>): (e: Exec<seq<Record>>)
    ensures Generate(s.query).Err? ==> e == Exec([], Err(Generate(s.query).error))
    ensures Generate(s.query).Ok? ==>
      e.calls == [QueryRows(s.store.spreadsheetId, s.store.sheetName, Generate(s.query).value, true)]
    ensures Generate(s.query).Ok? && answer.Err? ==> e.outcome == Err(answer.error)
    ensures Generate(s.query).Ok? && answer.Ok? ==> e.outcome == Ok(BuildQueryResultMap(s.columns, answer.value))
    ensures Generate(s.query).Ok? && answer.Ok? ==> e.outcome.Ok? && |e.outcome.value| == |answer.value|
    ensures Generate(s.query).Ok? && answer.Ok? ==> forall i, k, j ::
      0 <= i < |answer.value| && IsLastIndex(s.columns, k, j) && k != RowIdxCol ==>
        Get(e.outcome.value[i], k) == Some(Cell(answer.value[i], j))
    ensures e.outcome.Ok? ==> forall i :: 0 <= i < |e.outcome.value| ==>
      forall k :: Has(e.outcome.value[i], k) <==> k in s.columns && k != RowIdxCol
  {
    match Generate(s.query)
    case Err(err) => Exec([], Err(err))
    case Ok(q) =>
      var call := QueryRows(s.store.spreadsheetId, s.store.sheetName, q, true);
      match answer
      case Err(err) => Exec([call], Err(err))
      case Ok(rows) => Exec([call], Ok(BuildQueryResultMap(s.columns, rows)))
  }

  // ------------------------------------------------------------ escaping

  /** `escapeValue(col, value, colsWithFormula)`: an ordinary column gets
      the common escape; a formula column must hold a string, which is
      written verbatim so that the backend evaluates it. */
  function EscapeCell(col: string, v: Value, formulaCols: set<string>): (r: Result<Value>)
    ensures col !in formulaCols ==> r == Ok(EscapeValue(v))
    ensures col in formulaCols ==> (r.Ok? <==> v.Str?)
    ensures col in formulaCols && v.Str? ==> r == Ok(v)
    ensures r.Err? ==> r.error == FormulaNotString(col)
  {
    if col !in formulaCols then Ok(EscapeValue(v))
    else if !v.Str? then Err(FormulaNotString(col))
    else Ok(v)
  }

  /** An escaped cell is unsafe exactly when the value was an unsafe
      number, whatever the column; and a string is always kept as text:
      verbatim in a formula column, behind the apostrophe otherwise. */
  lemma {:induction false} EscapeCellSafety(col: string, v: Value, formulaCols: set<string>)
    requires EscapeCell(col, v, formulaCols).Ok?
    ensures CheckSafeInteger(EscapeCell(col, v, formulaCols).value).Ok? <==> CheckSafeInteger(v).Ok?
    ensures v.Str? && col !in formulaCols ==> StoredText(EscapeCell(col, v, formulaCols).value) == v
  {
  }

  // ------------------------------------------------------------- insert

  /** Property names for which `name in m` holds on a `Map` object `m`
      whatever its entries: the members of `Map.prototype` and of
      `Object.prototype`. */
  const MapObjectProperties: set<string> := {
    "size", "get", "set", "has", "delete", "clear", "entries", "forEach", "keys", "values",
    "constructor", "toString", "toLocaleString", "valueOf", "hasOwnProperty", "isPrototypeOf",
    "propertyIsEnumerable", "__proto__", "__defineGetter__", "__defineSetter__",
    "__lookupGetter__", "__lookupSetter__"}

  /** `convertObjectToFieldMap` as written: own non-function fields in
      order, except that `!(key in fieldMap)` asks the `Map` object, not its
      entries, so a field named like a property of a `Map` is dropped. */
  function FieldMapAsWritten(fields: seq<(string, Value)>): (m: seq<(string, Value)>)
    ensures DistinctKeys(m)
    decreases |fields|
  {
    if |fields| == 0 then []
    else
      var m0 := FieldMapAsWritten(fields[..|fields| - 1]);
      var f := fields[|fields| - 1];
      if f.1.Fn? || f.0 in MapObjectProperties then m0 else Put(m0, f.0, f.1)
  }

  /** Field `p` is a data field and no earlier data field has its name. */
  predicate IsFirstField(fields: seq<(string, Value)>, p: int) {
    && 0 <= p < |fields|
    && !fields[p].1.Fn?
    && forall q :: 0 <= q < p ==> fields[q].0 != fields[p].0 || fields[q].1.Fn?
  }

  /** `convertObjectToFieldMap` as intended: own non-function fields in
      order, a field already present (found in a more specific scope) not
      being replaced. */
  function FieldMap(fields: seq<(string, Value)>): (m: seq<(string, Value)>)
    ensures DistinctKeys(m)
    decreases |fields|
  {
    if |fields| == 0 then []
    else
      var m0 := FieldMap(fields[..|fields| - 1]);
      var f := fields[|fields| - 1];
      if f.1.Fn? || Has(m0, f.0) then m0 else Put(m0, f.0, f.1)
  }

  /** The intended field map holds exactly the data fields, each with the
      value of its first occurrence. */
  lemma {:induction false} FieldMapContents(fields: seq<(string, Value)>)
    ensures forall k :: Has(FieldMap(fields), k) <==> exists p :: 0 <= p < |fields| && fields[p].0 == k && !fields[p].1.Fn?
    ensures forall p :: IsFirstField(fields, p) ==> Get(FieldMap(fields), fields[p].0) == Some(fields[p].1)
  {
    FieldMapKeys(fields);
    FieldMapFirstValues(fields);
  }

  /** `k` names a data (non-function) field of `fields`. */
  predicate IsDataKey(fields: seq<(string, Value)>, k: string) {
    exists p :: 0 <= p < |fields| && fields[p].0 == k && !fields[p].1.Fn?
  }

  /** The keys of the field map are the names of the data fields. */
  lemma {:induction false} FieldMapKeys(fields: seq<(string, Value)>)
    ensures forall k :: Has(FieldMap(fields), k) <==> IsDataKey(fields, k)
    decreases |fields|
  {
    if |fields| > 0 {
      var init := fields[..|fields| - 1];
      FieldMapKeys(init);
      forall k ensures Has(FieldMap(fields), k) <==> IsDataKey(fields, k) {
        FieldMapKeysStep(fields, init, k);
      }
    }
  }

  /** One field more: a key is in the map exactly when it was before or the
      new field is a data field of that name. */
  lemma {:induction false} FieldMapKeysStep(fields: seq<(string, Value)>, init: seq<(string, Value)>, k: string)
    requires |fields| > 0 && init == fields[..|fields| - 1]
    requires Has(FieldMap(init), k) <==> IsDataKey(init, k)
    ensures Has(FieldMap(fields), k) <==> IsDataKey(fields, k)
  {
    var m0 := FieldMap(init);
    var m := FieldMap(fields);
    var f := fields[|fields| - 1];
    var last := |fields| - 1;
    assert m == if f.1.Fn? || Has(m0, f.0) then m0 else Put(m0, f.0, f.1);
    assert Has(m, k) <==> Get(m, k).Some?;
    assert Has(m0, k) <==> Get(m0, k).Some?;
    if Has(m, k) {
      if Has(m0, k) {
        var p :| 0 <= p < |init| && init[p].0 == k && !init[p].1.Fn?;
        assert fields[p] == init[p];
      } else {
        assert k == f.0 && !f.1.Fn?;
        assert fields[last].0 == k;
      }
    }
    if IsDataKey(fields, k) {
      var p :| 0 <= p < |fields| && fields[p].0 == k && !fields[p].1.Fn?;
      if p < last {
        assert init[p] == fields[p];
        assert IsDataKey(init, k);
      } else {
        assert k == f.0 && !f.1.Fn?;
      }
    }
  }

  /** Each data field's first occurrence gives its value in the field map. */
  lemma {:induction false} FieldMapFirstValues(fields: seq<(string, Value)>)
    ensures forall p :: IsFirstField(fields, p) ==> Get(FieldMap(fields), fields[p].0) == Some(fields[p].1)
    decreases |fields|
  {
    if |fields| > 0 {
      var init := fields[..|fields| - 1];
      FieldMapFirstValues(init);
      FieldMapKeys(init);
      forall p | IsFirstField(fields, p)
        ensures Get(FieldMap(fields), fields[p].0) == Some(fields[p].1)
      {
        FieldMapFirstValueStep(fields, init, p);
      }
    }
  }

  /** One field more: a first occurrence keeps its value, and a new data
      field is added with its own. */
  lemma {:induction false} FieldMapFirstValueStep(fields: seq<(string, Value)>, init: seq<(string, Value)>, p: int)
    requires |fields| > 0 && init == fields[..|fields| - 1] && IsFirstField(fields, p)
    requires forall q :: IsFirstField(init, q) ==> Get(FieldMap(init), init[q].0) == Some(init[q].1)
    requires forall k :: Has(FieldMap(init), k) <==> IsDataKey(init, k)
    ensures Get(FieldMap(fields), fields[p].0) == Some(fields[p].1)
  {
    var m0 := FieldMap(init);
    var m := FieldMap(fields);
    var f := fields[|fields| - 1];
    var last := |fields| - 1;
    assert m == if f.1.Fn? || Has(m0, f.0) then m0 else Put(m0, f.0, f.1);
    if p < last {
      assert init[p] == fields[p];
      assert IsFirstField(init, p);
      if fields[p].0 == f.0 {
        assert Has(m0, f.0);
      }
    } else {
      forall q | 0 <= q < |init| && init[q].0 == f.0 ensures init[q].1.Fn? {
        assert fields[q] == init[q];
      }
      assert !IsDataKey(init, f.0);
    }
  }

  /** Field `p` is the last data field of its name. */
  predicate IsLastField(fields: seq<(string, Value)>, p: int) {
    && 0 <= p < |fields|
    && !fields[p].1.Fn?
    && forall q :: p < q < |fields| ==> fields[q].0 != fields[p].0 || fields[q].1.Fn?
  }

  /** The field map as written holds the data fields whose names are not
      `Map` properties, each with the value of its last occurrence: a later
      field of the same name passes the filter and replaces the value. */
  lemma {:induction false} FieldMapAsWrittenContents(fields: seq<(string, Value)>)
    ensures forall k :: Has(FieldMapAsWritten(fields), k) <==> IsDataKey(fields, k) && k !in MapObjectProperties
    ensures forall p :: IsLastField(fields, p) && fields[p].0 !in MapObjectProperties ==>
      Get(FieldMapAsWritten(fields), fields[p].0) == Some(fields[p].1)
    decreases |fields|
  {
    if |fields| > 0 {
      var init := fields[..|fields| - 1];
      FieldMapAsWrittenContents(init);
      forall k ensures Has(FieldMapAsWritten(fields), k) <==> IsDataKey(fields, k) && k !in MapObjectProperties {
        FieldMapAsWrittenKeysStep(fields, init, k);
      }
      forall p | IsLastField(fields, p) && fields[p].0 !in MapObjectProperties
        ensures Get(FieldMapAsWritten(fields), fields[p].0) == Some(fields[p].1)
      {
        FieldMapAsWrittenValueStep(fields, init, p);
      }
    }
  }

  lemma {:induction false} FieldMapAsWrittenKeysStep(fields: seq<(string, Value)>, init: seq<(string, Value)>, k: string)
    requires |fields| > 0 && init == fields[..|fields| - 1]
    requires Has(FieldMapAsWritten(init), k) <==> IsDataKey(init, k) && k !in MapObjectProperties
    ensures Has(FieldMapAsWritten(fields), k) <==> IsDataKey(fields, k) && k !in MapObjectProperties
  {
    var m0 := FieldMapAsWritten(init);
    var m := FieldMapAsWritten(fields);
    var f := fields[|fields| - 1];
    var last := |fields| - 1;
    assert m == if f.1.Fn? || f.0 in MapObjectProperties then m0 else Put(m0, f.0, f.1);
    assert Has(m, k) <==> Get(m, k).Some?;
    assert Has(m0, k) <==> Get(m0, k).Some?;
    if Has(m, k) {
      if Has(m0, k) {
        var p :| 0 <= p < |init| && init[p].0 == k && !init[p].1.Fn?;
        assert fields[p] == init[p];
      } else {
        assert k == f.0 && !f.1.Fn?;
        assert fields[last].0 == k;
      }
    }
    if IsDataKey(fields, k) && k !in MapObjectProperties {
      var p :| 0 <= p < |fields| && fields[p].0 == k && !fields[p].1.Fn?;
      if p < last {
        assert init[p] == fields[p];
        assert IsDataKey(init, k);
      } else {
        assert k == f.0 && !f.1.Fn?;
      }
    }
  }

  lemma {:induction false} FieldMapAsWrittenValueStep(fields: seq<(string, Value)>, init: seq<(string, Value)>, p: int)
    requires |fields| > 0 && init == fields[..|fields| - 1]
    requires IsLastField(fields, p) && fields[p].0 !in MapObjectProperties
    requires forall q :: IsLastField(init, q) && init[q].0 !in MapObjectProperties ==>
      Get(FieldMapAsWritten(init), init[q].0) == Some(init[q].1)
    ensures Get(FieldMapAsWritten(fields), fields[p].0) == Some(fields[p].1)
  {
    var m0 := FieldMapAsWritten(init);
    var m := FieldMapAsWritten(fields);
    var f := fields[|fields| - 1];
    var last := |fields| - 1;
    assert m == if f.1.Fn? || f.0 in MapObjectProperties then m0 else Put(m0, f.0, f.1);
    if p < last {
      assert init[p] == fields[p];
      assert IsLastField(init, p);
      assert f.0 != fields[p].0 || f.1.Fn?;
    }
  }

  /** The finding, concretely: a record with a `size` field keeps it in
      the intended field map and loses it as written. */
  lemma {:induction false} FieldMapAsWrittenDropsMapPropertyNames()
    ensures FieldMapAsWritten([("size", Num(3.0))]) == []
    ensures FieldMap([("size", Num(3.0))]) == [("size", Num(3.0))]
  {
    assert [("size", Num(3.0))][..0] == [];
  }

  /** `result[i] = v`: assigning past the end of an array extends it with
      `undefined`. */
  function SetSlot(arr: seq<Value>, i: nat, v: Value): (r: seq<Value>)
    ensures |r| == if i < |arr| then |arr| else i + 1
    ensures r[i] == v
    ensures forall j :: 0 <= j < |r| && j != i ==> r[j] == (if j < |arr| then arr[j] else Undef)
  {
    if i < |arr| then arr[i := v] else arr + seq(i - |arr|, _ => Undef) + [v]
  }

  /** `new Array(size).fill(undefined)` with `=ROW()` put in slot 0. */
  function BlankRow(size: nat): (r: seq<Value>)
  {
    SetSlot(seq(size, _ => Undef), 0, Str(RowIdxFormula))
  }

  /** The loop over the field map: fields of unknown columns are ignored;
      the others are escaped, checked and written into their slot. */
  function FillRow(store: RowStore, fm: seq<(string, Value)>, acc: seq<Value>): (r: Result<seq<Value>>)
    decreases |fm|
  {
    if |fm| == 0 then Ok(acc)
    else
      var prev :- FillRow(store, fm[..|fm| - 1], acc);
      var col := fm[|fm| - 1].0;
      if !HasCol(store.mapping, col) then Ok(prev)
      else
        var e :- EscapeCell(col, fm[|fm| - 1].1, store.formulaCols);
        var _ :- CheckSafeInteger(e);
        Ok(SetSlot(prev, GetColIdx(store.mapping, col).idx, e))
  }

  /** The part of `convertRowToArray` that every field map goes through. */
  function RowFromFieldMap(store: RowStore, fm: seq<(string, Value)>): Result<seq<Value>>
  {
    FillRow(store, fm, BlankRow(|GetNameMap(store.mapping)|))
  }

  /** `convertRowToArray(row)`: `null` and anything but a plain record are
      rejected (a byte array is not an array, but fails while its getters
      are read in `convertObjectToFieldMap`); a record becomes a row with
      one slot per mapped column, filled from the field map as written. */
  function ConvertRowToArray(store: RowStore, row: Value): (r: Result<seq<Value>>)
    ensures row.Null? ==> r == Err(RowIsNull)
    ensures row.Bytes? ==> r == Err(RowReflection)
    ensures !row.Null? && !row.Bytes? && !row.Obj? ==> r == Err(RowNotObject)
  {
    match row
    case Null => Err(RowIsNull)
    case Obj(fields) => RowFromFieldMap(store, FieldMapAsWritten(fields))
    case Bytes(_) => Err(RowReflection)
    case _ => Err(RowNotObject)
  }

  /** `convertRowToArray(row)` with the intended field map. */
  function ConvertRowToArrayIntended(store: RowStore, row: Value): (r: Result<seq<Value>>)
    ensures !row.Obj? ==> r == ConvertRowToArray(store, row)
  {
    match row
    case Obj(fields) => RowFromFieldMap(store, FieldMap(fields))
    case _ => ConvertRowToArray(store, row)
  }

  /** The fields of a plain record: no name twice, and none named like a
      property of a `Map` object. */
  predicate PlainFields(fields: seq<(string, Value)>) {
    && (forall i, j :: 0 <= i < j < |fields| ==> fields[i].0 != fields[j].0)
    && (forall i :: 0 <= i < |fields| ==> fields[i].0 !in MapObjectProperties)
  }

  /** On a plain record the field map as written is the intended one. */
  lemma {:induction false} FieldMapAgreement(fields: seq<(string, Value)>)
    requires PlainFields(fields)
    ensures FieldMapAsWritten(fields) == FieldMap(fields)
    decreases |fields|
  {
    if |fields| > 0 {
      var init := fields[..|fields| - 1];
      var f := fields[|fields| - 1];
      assert PlainFields(init);
      FieldMapAgreement(init);
      FieldMapKeys(init);
      if !f.1.Fn? {
        forall p | 0 <= p < |init| ensures init[p].0 != f.0 {
          assert init[p] == fields[p];
        }
        assert !IsDataKey(init, f.0);
      }
    }
  }

  /** So the program converts a plain record as intended. */
  lemma {:induction false} ConvertRowToArrayAgreement(store: RowStore, fields: seq<(string, Value)>)
    requires PlainFields(fields)
    ensures ConvertRowToArray(store, Obj(fields)) == ConvertRowToArrayIntended(store, Obj(fields))
  {
    FieldMapAgreement(fields);
  }

  /** A field for a mapped column passes the escape and the safe-integer
      check. */
  predicate Writable(store: RowStore, col: string, v: Value) {
    && EscapeCell(col, v, store.formulaCols).Ok?
    && CheckSafeInteger(EscapeCell(col, v, store.formulaCols).value).Ok?
  }

  /** Distinct keys of the mapping own distinct slots. */
  predicate SlotsDistinct(mapping: ColsMapping) {
    forall a, b :: 0 <= a < b < |mapping| ==> mapping[a].1.idx != mapping[b].1.idx
  }

  predicate SlotsBelow(mapping: ColsMapping, n: nat) {
    forall a :: 0 <= a < |mapping| ==> mapping[a].1.idx < n
  }

  /** Some field of the map writes slot `j`. */
  predicate Written(store: RowStore, fm: seq<(string, Value)>, j: nat) {
    exists i :: 0 <= i < |fm| && HasCol(store.mapping, fm[i].0) && GetColIdx(store.mapping, fm[i].0).idx == j
  }

  /** The loop fails exactly when a field of a mapped column fails its
      escape or its safe-integer check; fields of other columns are never
      looked at. */
  lemma {:induction false} FillRowOk(store: RowStore, fm: seq<(string, Value)>, acc: seq<Value>)
    ensures FillRow(store, fm, acc).Ok? <==>
      forall i :: 0 <= i < |fm| && HasCol(store.mapping, fm[i].0) ==> Writable(store, fm[i].0, fm[i].1)
    decreases |fm|
  {
    if |fm| > 0 {
      var init := fm[..|fm| - 1];
      FillRowOk(store, init, acc);
      assert forall i :: 0 <= i < |init| ==> init[i] == fm[i];
    }
  }

  lemma {:induction false} SlotOfKey(mapping: ColsMapping, k1: string, k2: string)
    requires DistinctKeys(mapping) && SlotsDistinct(mapping)
    requires HasCol(mapping, k1) && HasCol(mapping, k2) && k1 != k2
    ensures GetColIdx(mapping, k1).idx != GetColIdx(mapping, k2).idx
  {
    var a := Find(mapping, k1);
    var b := Find(mapping, k2);
    assert a != b;
  }

  lemma {:induction false} SlotBelow(mapping: ColsMapping, n: nat, k: string)
    requires SlotsBelow(mapping, n) && HasCol(mapping, k)
    ensures GetColIdx(mapping, k).idx < n
  {
    var a := Find(mapping, k);
  }

  /** A successful loop keeps the row length and writes each mapped field,
      escaped, into its column's slot; slots no field writes keep their
      initial value. */
  lemma {:induction false} FillRowSlots(store: RowStore, fm: seq<(string, Value)>, acc: seq<Value>)
    requires DistinctKeys(fm)
    requires DistinctKeys(store.mapping) && SlotsDistinct(store.mapping) && SlotsBelow(store.mapping, |acc|)
    requires FillRow(store, fm, acc).Ok?
    ensures |FillRow(store, fm, acc).value| == |acc|
    ensures forall i :: 0 <= i < |fm| && HasCol(store.mapping, fm[i].0) ==>
      && Writable(store, fm[i].0, fm[i].1)
      && FillRow(store, fm, acc).value[GetColIdx(store.mapping, fm[i].0).idx]
           == EscapeCell(fm[i].0, fm[i].1, store.formulaCols).value
    ensures forall j :: 0 <= j < |acc| && !Written(store, fm, j) ==> FillRow(store, fm, acc).value[j] == acc[j]
    decreases |fm|
  {
    if |fm| > 0 {
      var init := fm[..|fm| - 1];
      var last := |fm| - 1;
      var col := fm[last].0;
      assert forall i :: 0 <= i < |init| ==> init[i] == fm[i];
      assert FillRow(store, init, acc).Ok?;
      FillRowSlots(store, init, acc);
      var prev := FillRow(store, init, acc).value;
      var r := FillRow(store, fm, acc).value;
      if HasCol(store.mapping, col) {
        var idx := GetColIdx(store.mapping, col).idx;
        var e := EscapeCell(col, fm[last].1, store.formulaCols).value;
        assert r == SetSlot(prev, idx, e);
        SlotBelow(store.mapping, |acc|, col);
        forall i | 0 <= i < last && HasCol(store.mapping, fm[i].0)
          ensures Writable(store, fm[i].0, fm[i].1)
          ensures r[GetColIdx(store.mapping, fm[i].0).idx] == EscapeCell(fm[i].0, fm[i].1, store.formulaCols).value
        {
          SlotOfKey(store.mapping, fm[i].0, col);
        }
        forall j | 0 <= j < |acc| && !Written(store, fm, j)
          ensures r[j] == acc[j]
        {
          assert j != idx;
        }
      } else {
        assert r == prev;
        assert forall j :: 0 <= j < |acc| && !Written(store, fm, j) ==> r[j] == acc[j];
      }
    }
  }

  /** A store whose mapping was generated from its columns, with no column
      configured twice. */
  predicate PlainStore(store: RowStore) {
    && 0 < |store.columns|
    && (forall i, j :: 0 <= i < j < |store.columns| ==> store.columns[i] != store.columns[j])
    && store.mapping == GenerateColumnMapping(store.columns)
  }

  /** A store whose mapping lists each distinct column with its generated
      letter, in column order, is plain. */
  lemma {:induction false} PlainStoreOfGeneratedMapping(store: RowStore)
    requires 0 < |store.columns| && |store.mapping| == |store.columns|
    requires forall i, j :: 0 <= i < j < |store.columns| ==> store.columns[i] != store.columns[j]
    requires forall j :: 0 <= j < |store.columns| ==> store.mapping[j] == (store.columns[j], ColIdx(ColumnName(j), j))
    ensures PlainStore(store)
  {
    GenerateColumnMappingDistinct(store.columns);
    var g := GenerateColumnMapping(store.columns);
    assert forall j :: 0 <= j < |g| ==> g[j] == store.mapping[j];
  }

  lemma {:induction false} PlainStoreSlots(store: RowStore)
    requires PlainStore(store)
    ensures |store.mapping| == |store.columns|
    ensures DistinctKeys(store.mapping) && SlotsDistinct(store.mapping)
    ensures SlotsBelow(store.mapping, |store.columns|)
    ensures forall j :: 0 <= j < |store.columns| ==>
      HasCol(store.mapping, store.columns[j]) && GetColIdx(store.mapping, store.columns[j]) == ColIdx(ColumnName(j), j)
  {
    GenerateColumnMappingDistinct(store.columns);
    forall j | 0 <= j < |store.columns|
      ensures HasCol(store.mapping, store.columns[j]) && GetColIdx(store.mapping, store.columns[j]) == ColIdx(ColumnName(j), j)
    {
      PlainStoreSlotAt(store, j);
    }
  }

  /** Column `j` of a plain store is found at entry `j` of its mapping. */
  lemma {:induction false} PlainStoreSlotAt(store: RowStore, j: int)
    requires 0 <= j < |store.columns| && |store.mapping| == |store.columns|
    requires forall i, j :: 0 <= i < j < |store.columns| ==> store.columns[i] != store.columns[j]
    requires forall i :: 0 <= i < |store.columns| ==> store.mapping[i] == (store.columns[i], ColIdx(ColumnName(i), i))
    ensures HasCol(store.mapping, store.columns[j]) && GetColIdx(store.mapping, store.columns[j]) == ColIdx(ColumnName(j), j)
  {
    var m := store.mapping;
    var k := Find(m, store.columns[j]);
    assert m[j].0 == store.columns[j];
    assert 0 <= k <= j;
    assert m[k].0 == store.columns[k];
    assert k == j;
  }

  /** The row a record starts from on a plain store. */
  lemma {:induction false} BlankRowOfStore(store: RowStore)
    requires PlainStore(store)
    ensures |BlankRow(|GetNameMap(store.mapping)|)| == |store.columns|
    ensures forall j :: 0 <= j < |store.columns| ==>
      BlankRow(|GetNameMap(store.mapping)|)[j] == if j == 0 then Str(RowIdxFormula) else Undef
  {
    PlainStoreSlots(store);
    assert |Keys(GetNameMap(store.mapping))| == |Keys(store.mapping)|;
  }

  /** A property of every mapped field of a field map is a property of
      the field of every configured column present, when the mapped
      names are the configured columns. */
  lemma {:induction false} MappedFieldsAreColumnFields(mapping: ColsMapping, cols: seq<string>, fm: seq<(string, Value)>, P: (string, Value) -> bool)
    requires DistinctKeys(fm)
    requires forall k :: HasCol(mapping, k) <==> k in cols
    ensures (forall i :: 0 <= i < |fm| && HasCol(mapping, fm[i].0) ==> P(fm[i].0, fm[i].1))
        <==> (forall j :: 0 <= j < |cols| && Has(fm, cols[j]) ==> P(cols[j], Get(fm, cols[j]).value))
  {
    if forall i :: 0 <= i < |fm| && HasCol(mapping, fm[i].0) ==> P(fm[i].0, fm[i].1) {
      forall j | 0 <= j < |cols| && Has(fm, cols[j])
        ensures P(cols[j], Get(fm, cols[j]).value)
      {
        var i := Find(fm, cols[j]);
        assert HasCol(mapping, cols[j]);
        assert fm[i] == (cols[j], Get(fm, cols[j]).value);
      }
    }
    if forall j :: 0 <= j < |cols| && Has(fm, cols[j]) ==> P(cols[j], Get(fm, cols[j]).value) {
      forall i | 0 <= i < |fm| && HasCol(mapping, fm[i].0)
        ensures P(fm[i].0, fm[i].1)
      {
        var k := fm[i].0;
        assert k in cols;
        var j :| 0 <= j < |cols| && cols[j] == k;
        assert Find(fm, k) == i;
        assert Has(fm, cols[j]);
      }
    }
  }

  /** `convertRowToArray` on a record succeeds exactly when every
      configured column present in the field map passes its escape and its
      safe-integer check. */
  lemma {:induction false} ConvertRowToArrayOk(store: RowStore, fields: seq<(string, Value)>)
    requires PlainStore(store)
    ensures ConvertRowToArray(store, Obj(fields)).Ok? <==>
      forall j :: 0 <= j < |store.columns| && Has(FieldMapAsWritten(fields), store.columns[j]) ==>
        Writable(store, store.columns[j], Get(FieldMapAsWritten(fields), store.columns[j]).value)
  {
    var fm := FieldMapAsWritten(fields);
    var acc := BlankRow(|GetNameMap(store.mapping)|);
    assert ConvertRowToArray(store, Obj(fields)) == FillRow(store, fm, acc);
    FillRowOk(store, fm, acc);
    MappedFieldsAreColumnFields(store.mapping, store.columns, fm, (k, v) => Writable(store, k, v));
  }

  /** A converted record has one slot per configured column, holding the
      escaped field, or `=ROW()` in the row-identity slot and `undefined`
      elsewhere when the record has no such field. */
  lemma {:induction false} ConvertRowToArraySlots(store: RowStore, fields: seq<(string, Value)>)
    requires PlainStore(store)
    requires ConvertRowToArray(store, Obj(fields)).Ok?
    ensures |ConvertRowToArray(store, Obj(fields)).value| == |store.columns|
    ensures forall j :: 0 <= j < |store.columns| && Has(FieldMapAsWritten(fields), store.columns[j]) ==>
      EscapeCell(store.columns[j], Get(FieldMapAsWritten(fields), store.columns[j]).value, store.formulaCols)
        == Ok(ConvertRowToArray(store, Obj(fields)).value[j])
    ensures forall j :: 0 <= j < |store.columns| && !Has(FieldMapAsWritten(fields), store.columns[j]) ==>
      ConvertRowToArray(store, Obj(fields)).value[j] == if j == 0 then Str(RowIdxFormula) else Undef
  {
    assert ConvertRowToArray(store, Obj(fields)) == RowFromFieldMap(store, FieldMapAsWritten(fields));
    RowFromFieldMapSlots(store, FieldMapAsWritten(fields));
  }

  /** The same, for any field map without repeated keys. */
  lemma {:induction false} RowFromFieldMapSlots(store: RowStore, fm: seq<(string, Value)>)
    requires PlainStore(store) && DistinctKeys(fm)
    requires RowFromFieldMap(store, fm).Ok?
    ensures |RowFromFieldMap(store, fm).value| == |store.columns|
    ensures forall j :: 0 <= j < |store.columns| && Has(fm, store.columns[j]) ==>
      EscapeCell(store.columns[j], Get(fm, store.columns[j]).value, store.formulaCols) == Ok(RowFromFieldMap(store, fm).value[j])
    ensures forall j :: 0 <= j < |store.columns| && !Has(fm, store.columns[j]) ==>
      RowFromFieldMap(store, fm).value[j] == if j == 0 then Str(RowIdxFormula) else Undef
  {
    var cols := store.columns;
    var acc := BlankRow(|GetNameMap(store.mapping)|);
    PlainStoreSlots(store);
    BlankRowOfStore(store);
    FillRowSlots(store, fm, acc);
    var r := FillRow(store, fm, acc).value;
    forall j | 0 <= j < |cols| && Has(fm, cols[j])
      ensures EscapeCell(cols[j], Get(fm, cols[j]).value, store.formulaCols) == Ok(r[j])
    {
      var i := Find(fm, cols[j]);
      assert fm[i].0 == cols[j];
    }
    forall j | 0 <= j < |cols| && !Has(fm, cols[j])
      ensures r[j] == acc[j]
    {
      UnwrittenSlot(store, fm, j);
    }
  }

  /** On a plain store, a column without a field leaves its slot unwritten. */
  lemma {:induction false} UnwrittenSlot(store: RowStore, fm: seq<(string, Value)>, j: int)
    requires PlainStore(store) && 0 <= j < |store.columns| && !Has(fm, store.columns[j])
    ensures !Written(store, fm, j)
  {
    PlainStoreSlots(store);
    forall i | 0 <= i < |fm| && HasCol(store.mapping, fm[i].0)
      ensures GetColIdx(store.mapping, fm[i].0).idx != j
    {
      assert fm[i].0 != store.columns[j];
      SlotOfKey(store.mapping, fm[i].0, store.columns[j]);
    }
  }

  /** One turn of the loop over the field map, for a mapped field that
      passes its checks. */
  lemma {:induction false} FillRowStep(store: RowStore, fm: seq<(string, Value)>, acc: seq<Value>, prev: seq<Value>)
    requires |fm| > 0 && FillRow(store, fm[..|fm| - 1], acc) == Ok(prev)
    requires HasCol(store.mapping, fm[|fm| - 1].0) && Writable(store, fm[|fm| - 1].0, fm[|fm| - 1].1)
    ensures FillRow(store, fm, acc)
      == Ok(SetSlot(prev, GetColIdx(store.mapping, fm[|fm| - 1].0).idx, EscapeCell(fm[|fm| - 1].0, fm[|fm| - 1].1, store.formulaCols).value))
  {
  }

  /** `rows.map(row => convertRowToArray(row))`: every row converted, in
      order; the first row that fails decides the error. */
  function ConvertRows(store: RowStore, rows: seq<Value>): (r: Result<seq<seq<Value>>>)
    ensures r.Ok? <==> forall i :: 0 <= i < |rows| ==> ConvertRowToArray(store, rows[i]).Ok?
    ensures r.Ok? ==> |r.value| == |rows|
    ensures r.Ok? ==> forall i :: 0 <= i < |rows| ==> Ok(r.value[i]) == ConvertRowToArray(store, rows[i])
    ensures r.Err? ==> exists i :: 0 <= i < |rows| && FirstFailure(store, rows, i) && r.error == ConvertRowToArray(store, rows[i]).error
    decreases |rows|
  {
    if |rows| == 0 then Ok([])
    else
      var head := ConvertRowToArray(store, rows[0]);
      if head.Err? then
        assert FirstFailure(store, rows, 0);
        Err(head.error)
      else
        var tail := ConvertRows(store, rows[1..]);
        assert forall i :: 1 <= i < |rows| ==> rows[i] == rows[1..][i - 1];
        if tail.Err? then
          FirstFailureAfterHead(store, rows, tail.error);
          Err(tail.error)
        else
          Ok([head.value] + tail.value)
  }

  /** A first failure after a head row that converts is a first failure of
      the whole list, one position further on. */
  lemma {:induction false} FirstFailureAfterHead(store: RowStore, rows: seq<Value>, e: Error)
    requires |rows| > 0 && ConvertRowToArray(store, rows[0]).Ok?
    requires exists j :: 0 <= j < |rows[1..]| && FirstFailure(store, rows[1..], j) && e == ConvertRowToArray(store, rows[1..][j]).error
    ensures exists i :: 0 <= i < |rows| && FirstFailure(store, rows, i) && e == ConvertRowToArray(store, rows[i]).error
  {
    var j :| 0 <= j < |rows[1..]| && FirstFailure(store, rows[1..], j) && e == ConvertRowToArray(store, rows[1..][j]).error;
    assert rows[1..][j] == rows[j + 1];
    assert forall k :: 1 <= k <= j ==> rows[k] == rows[1..][k - 1];
    assert FirstFailure(store, rows, j + 1);
  }

  /** Row `i` is the first row that fails to convert. */
  predicate FirstFailure(store: RowStore, rows: seq<Value>, i: int) {
    && 0 <= i < |rows|
    && ConvertRowToArray(store, rows[i]).Err?
    && forall j :: 0 <= j < i ==> ConvertRowToArray(store, rows[j]).Ok?
  }

  /** `GoogleSheetInsertStmt.exec`: nothing to insert issues no call; a row
      that cannot be converted raises before any call; otherwise one
      `overwriteRows` call appends all converted rows to the data range of
      the sheet, and its answer (`written`) is the outcome. */
  function InsertExec(store: RowStore, rows: seq<Value>, written: Result<()>): (e: Exec<()>)
    ensures |rows| == 0 ==> e == Exec([], Ok(()))
    ensures |rows| > 0 && ConvertRows(store, rows).Err? ==> e == Exec([], Err(ConvertRows(store, rows).error))
    ensures |rows| > 0 && ConvertRows(store, rows).Ok? ==>
      && e.calls == [OverwriteRows(store.spreadsheetId, GetA1Range(store.sheetName, FullTableRange()), ConvertRows(store, rows).value)]
      && e.outcome == written
  {
    if |rows| == 0 then Exec([], Ok(()))
    else
      match ConvertRows(store, rows)
      case Err(err) => Exec([], Err(err))
      case Ok(converted) =>
        Exec([OverwriteRows(store.spreadsheetId, GetA1Range(store.sheetName, FullTableRange()), converted)], written)
  }

  // ----------------------------------------------------------- row indices

  /** A row of a row-index query: exactly one cell, holding a number. */
  predicate IndexRow(row: seq<Value>) {
    |row| == 1 && row[0].Num?
  }

  /** The error `getRowIndices` raises on a row that is not an index row. */
  function IndexRowError(row: seq<Value>): Error
  {
    if |row| != 1 then RowIndexShape else RowIndexType
  }

  /** The loop of `getRowIndices`: each row must hold exactly one number,
      whose truncation is the row index; the first bad row decides the
      error. */
  function RowIndices(rows: seq<seq<Value>>): (r: Result<seq<int>>)
    ensures r.Ok? <==> forall i :: 0 <= i < |rows| ==> IndexRow(rows[i])
    ensures r.Ok? ==> |r.value| == |rows|
    ensures r.Ok? ==> forall i :: 0 <= i < |rows| ==> r.value[i] == Trunc(rows[i][0].n)
    ensures r.Err? ==> exists i :: FirstBadIndexRow(rows, i) && r.error == IndexRowError(rows[i])
    decreases |rows|
  {
    if |rows| == 0 then Ok([])
    else if !IndexRow(rows[0]) then
      assert FirstBadIndexRow(rows, 0);
      Err(IndexRowError(rows[0]))
    else
      var tail := RowIndices(rows[1..]);
      if tail.Err? then
        var j :| FirstBadIndexRow(rows[1..], j) && tail.error == IndexRowError(rows[1..][j]);
        assert FirstBadIndexRow(rows, j + 1);
        Err(tail.error)
      else
        assert forall i :: 1 <= i < |rows| ==> rows[i] == rows[1..][i - 1];
        Ok([Trunc(rows[0][0].n)] + tail.value)
  }

  predicate FirstBadIndexRow(rows: seq<seq<Value>>, i: int) {
    && 0 <= i < |rows|
    && !IndexRow(rows[i])
    && forall j :: 0 <= j < i ==> IndexRow(rows[j])
  }

  /** `getRowIndices(store, selectSql)` once the transport has answered
      the query: a transport error is raised as it is. */
  function GetRowIndices(answer: Result<seq<seq<Value>>>): (r: Result<seq<int>>)
    ensures answer.Err? ==> r == Err(answer.error)
    ensures answer.Ok? ==> r == RowIndices(answer.value)
  {
    var rows :- answer;
    RowIndices(rows)
  }

  /** The query every row-index lookup sends. */
  function IndexQueryCall(store: RowStore, q: string): Call
  {
    QueryRows(store.spreadsheetId, store.sheetName, q, true)
  }

  // ----------------------------------------------------------------- update

  /** An update statement. `colToValue` stands for `Object.entries` of the
      caller's record, in its enumeration order (integer-like names first,
      then the others in insertion order); a record has no name twice,
      which the sequence does not enforce. */
  datatype UpdateStmt = UpdateStmt(store: RowStore, colToValue: seq<(string, Value)>, query: QueryBuilder)

  /** `new GoogleSheetUpdateStmt(store, colToValue)`: the rows to update
      are found by selecting their row identity. */
  function NewUpdate(store: RowStore, colToValue: seq<(string, Value)>): (u: UpdateStmt)
    ensures u.query.columns == [RowIdxCol]
    ensures u.query == StoreQuery(store, [RowIdxCol])
  {
    UpdateStmt(store, colToValue, StoreQuery(store, [RowIdxCol]))
  }

  function UpdateWhere(u: UpdateStmt, cond: string, args: seq<Value>): UpdateStmt
  {
    u.(query := Where(u.query, cond, args))
  }

  /** The range of one cell: column letter followed by the row number. */
  function CellRange(store: RowStore, name: string, rowIdx: int): string
  {
    GetA1Range(store.sheetName, name + IntToString(rowIdx))
  }

  /** The requests for one column: the escaped value written into that
      column of every row, in the order of the row indices. */
  function ColumnRequests(store: RowStore, name: string, escaped: Value, indices: seq<int>): (r: seq<BatchUpdateRowsRequest>)
    ensures |r| == |indices|
    ensures forall k :: 0 <= k < |indices| ==> r[k] == BatchUpdateRowsRequest(CellRange(store, name, indices[k]), [[escaped]])
  {
    seq(|indices|, k requires 0 <= k < |indices| => BatchUpdateRowsRequest(CellRange(store, name, indices[k]), [[escaped]]))
  }

  /** A request's range reads back as the one cell it was made for, on
      the statement's sheet. */
  lemma {:induction false} CellRangeParses(store: RowStore, name: string, rowIdx: int)
    requires '!' !in store.sheetName && ':' !in store.sheetName && ':' !in name
    ensures ParseA1Range(CellRange(store, name, rowIdx)).sheetName == store.sheetName
    ensures ParseA1Range(CellRange(store, name, rowIdx)).fromCell == name + IntToString(rowIdx)
    ensures ParseA1Range(CellRange(store, name, rowIdx)).toCell == name + IntToString(rowIdx)
  {
    IntToStringHasNoSeparator(rowIdx);
    var cell := name + IntToString(rowIdx);
    assert ':' !in cell;
    QualifiedCellRoundTrip(store.sheetName, cell);
  }

  /** An entry of `colToValue` that can be written: a known column whose
      value passes its escape and the safe-integer check. */
  predicate Updatable(store: RowStore, cv: (string, Value)) {
    HasCol(store.mapping, cv.0) && Writable(store, cv.0, cv.1)
  }

  function UpdatableError(store: RowStore, cv: (string, Value)): Error
  {
    if !HasCol(store.mapping, cv.0) then UnknownColumn(cv.0)
    else if EscapeCell(cv.0, cv.1, store.formulaCols).Err? then EscapeCell(cv.0, cv.1, store.formulaCols).error
    else UnsafeInteger
  }

  /** The request for entry `cv` at row index `rowIdx`. */
  function UpdateRequest(store: RowStore, cv: (string, Value), rowIdx: int): BatchUpdateRowsRequest
    requires Updatable(store, cv)
  {
    BatchUpdateRowsRequest(
      CellRange(store, GetColIdx(store.mapping, cv.0).name, rowIdx),
      [[EscapeCell(cv.0, cv.1, store.formulaCols).value]])
  }

  /** `generateBatchUpdateRequests(rowIndices)`: column by column, in the
      order of `colToValue`, one single-cell request per row index; the
      first entry that cannot be written decides the error. */
  function BatchUpdateRequests(store: RowStore, cvs: seq<(string, Value)>, indices: seq<int>): (r: Result<seq<BatchUpdateRowsRequest>>)
    ensures r.Ok? <==> forall c :: 0 <= c < |cvs| ==> Updatable(store, cvs[c])
    ensures r.Err? ==> exists c :: FirstNotUpdatable(store, cvs, c) && r.error == UpdatableError(store, cvs[c])
    decreases |cvs|
  {
    if |cvs| == 0 then Ok([])
    else if !Updatable(store, cvs[0]) then
      assert FirstNotUpdatable(store, cvs, 0);
      Err(UpdatableError(store, cvs[0]))
    else
      var tail := BatchUpdateRequests(store, cvs[1..], indices);
      if tail.Err? then
        var j :| FirstNotUpdatable(store, cvs[1..], j) && tail.error == UpdatableError(store, cvs[1..][j]);
        assert FirstNotUpdatable(store, cvs, j + 1);
        Err(tail.error)
      else
        assert forall c :: 1 <= c < |cvs| ==> cvs[c] == cvs[1..][c - 1];
        var colIdx := GetColIdx(store.mapping, cvs[0].0);
        Ok(ColumnRequests(store, colIdx.name, EscapeCell(cvs[0].0, cvs[0].1, store.formulaCols).value, indices) + tail.value)
  }

  /** One request per pair of an entry and a row index. */
  lemma {:induction false} BatchUpdateRequestsLength(store: RowStore, cvs: seq<(string, Value)>, indices: seq<int>)
    requires BatchUpdateRequests(store, cvs, indices).Ok?
    ensures |BatchUpdateRequests(store, cvs, indices).value| == |cvs| * |indices|
    decreases |cvs|
  {
    if |cvs| > 0 {
      assert BatchUpdateRequests(store, cvs[1..], indices).Ok?;
      BatchUpdateRequestsLength(store, cvs[1..], indices);
      MulStep(|cvs|, |indices|);
    }
  }

  lemma {:induction false} MulStep(c: nat, n: nat)
    requires c > 0
    ensures c * n == n + (c - 1) * n
  {
  }

  /** The requests of the first entry come first, then the others'. */
  lemma {:induction false} BatchUpdateRequestsCons(store: RowStore, cvs: seq<(string, Value)>, indices: seq<int>)
    requires BatchUpdateRequests(store, cvs, indices).Ok? && |cvs| > 0
    ensures Updatable(store, cvs[0])
    ensures BatchUpdateRequests(store, cvs[1..], indices).Ok?
    ensures BatchUpdateRequests(store, cvs, indices).value
      == ColumnRequests(store, GetColIdx(store.mapping, cvs[0].0).name, EscapeCell(cvs[0].0, cvs[0].1, store.formulaCols).value, indices)
         + BatchUpdateRequests(store, cvs[1..], indices).value
  {
  }

  /** The requests are laid out column-major: entry `c` of `colToValue` at
      row index `k` is request `c * |indices| + k`. */
  lemma {:induction false} BatchUpdateRequestAt(store: RowStore, cvs: seq<(string, Value)>, indices: seq<int>, c: nat, k: nat)
    requires BatchUpdateRequests(store, cvs, indices).Ok?
    requires c < |cvs| && k < |indices|
    ensures c * |indices| + k < |BatchUpdateRequests(store, cvs, indices).value|
    ensures BatchUpdateRequests(store, cvs, indices).value[c * |indices| + k] == UpdateRequest(store, cvs[c], indices[k])
  {
    var blocks := RequestBlocks(store, cvs, indices);
    BatchUpdateRequestsFlat(store, cvs, indices);
    FlattenAt(blocks, |indices|, c, k);
    OffsetIsProduct(c, |indices|);
    assert blocks[c][k] == UpdateRequest(store, cvs[c], indices[k]);
  }

  /** Blocks laid end to end. */
  function Flatten<T>(blocks: seq<seq<T>>): (r: seq<T>)
  {
    if |blocks| == 0 then [] else blocks[0] + Flatten(blocks[1..])
  }

  /** In blocks of `n` elements each, element `k` of block `c` comes after
      `c` whole blocks. */
  lemma {:induction false} FlattenAt<T>(blocks: seq<seq<T>>, n: nat, c: nat, k: nat)
    requires forall i :: 0 <= i < |blocks| ==> |blocks[i]| == n
    requires c < |blocks| && k < n
    ensures BlockOffset(c, n) + k < |Flatten(blocks)|
    ensures Flatten(blocks)[BlockOffset(c, n) + k] == blocks[c][k]
    decreases c
  {
    var rest := blocks[1..];
    assert Flatten(blocks) == blocks[0] + Flatten(rest);
    if c > 0 {
      FlattenAt(rest, n, c - 1, k);
      assert rest[c - 1] == blocks[c];
    }
  }

  /** `c` blocks of `n` elements, counted without multiplying. */
  function BlockOffset(c: nat, n: nat): nat
  {
    if c == 0 then 0 else n + BlockOffset(c - 1, n)
  }

  lemma {:induction false} OffsetIsProduct(c: nat, n: nat)
    ensures BlockOffset(c, n) == c * n
  {
    if c > 0 {
      OffsetIsProduct(c - 1, n);
      MulStep(c, n);
    }
  }

  /** The requests of each entry, one block per entry. */
  function RequestBlocks(store: RowStore, cvs: seq<(string, Value)>, indices: seq<int>): (blocks: seq<seq<BatchUpdateRowsRequest>>)
    requires forall c :: 0 <= c < |cvs| ==> Updatable(store, cvs[c])
    ensures |blocks| == |cvs|
    ensures forall c :: 0 <= c < |cvs| ==> |blocks[c]| == |indices|
  {
    seq(|cvs|, c requires 0 <= c < |cvs| && Updatable(store, cvs[c]) =>
      ColumnRequests(store, GetColIdx(store.mapping, cvs[c].0).name, EscapeCell(cvs[c].0, cvs[c].1, store.formulaCols).value, indices))
  }

  /** The batch is the entries' blocks laid end to end. */
  lemma {:induction false} BatchUpdateRequestsFlat(store: RowStore, cvs: seq<(string, Value)>, indices: seq<int>)
    requires BatchUpdateRequests(store, cvs, indices).Ok?
    ensures BatchUpdateRequests(store, cvs, indices).value == Flatten(RequestBlocks(store, cvs, indices))
    decreases |cvs|
  {
    if |cvs| > 0 {
      var rest := cvs[1..];
      BatchUpdateRequestsCons(store, cvs, indices);
      BatchUpdateRequestsFlat(store, rest, indices);
      var blocks := RequestBlocks(store, cvs, indices);
      assert blocks[1..] == RequestBlocks(store, rest, indices);
    }
  }

  predicate FirstNotUpdatable(store: RowStore, cvs: seq<(string, Value)>, c: int) {
    && 0 <= c < |cvs|
    && !Updatable(store, cvs[c])
    && forall j :: 0 <= j < c ==> Updatable(store, cvs[j])
  }

  /** `GoogleSheetUpdateStmt.exec`: an empty update raises first; then the
      row-index query is generated and sent; no matching row means no
      write, and an unknown column is only noticed when some row matches;
      otherwise one batch update carries every request. */
  function UpdateExec(u: UpdateStmt, answer: Result<seq<seq<Value>>>, written: Result<()>): (e: Exec<()>)
    ensures |u.colToValue| == 0 ==> e == Exec([], Err(EmptyColToValue))
    ensures |u.colToValue| > 0 && Generate(u.query).Err? ==> e == Exec([], Err(Generate(u.query).error))
    ensures |u.colToValue| > 0 && Generate(u.query).Ok? ==>
      && |e.calls| >= 1
      && e.calls[0] == IndexQueryCall(u.store, Generate(u.query).value)
      && (GetRowIndices(answer).Err? ==> e == Exec([e.calls[0]], Err(GetRowIndices(answer).error)))
      && (GetRowIndices(answer) == Ok([]) ==> e == Exec([e.calls[0]], Ok(())))
    ensures e.calls == [] || e.calls[0].QueryRows?
    ensures |e.calls| == 2 <==>
      && |u.colToValue| > 0 && Generate(u.query).Ok? && GetRowIndices(answer).Ok? && |GetRowIndices(answer).value| > 0
      && BatchUpdateRequests(u.store, u.colToValue, GetRowIndices(answer).value).Ok?
    ensures |e.calls| == 2 ==>
      && e.calls[1] == BatchUpdateRows(u.store.spreadsheetId, BatchUpdateRequests(u.store, u.colToValue, GetRowIndices(answer).value).value)
      && e.outcome == written
  {
    if |u.colToValue| == 0 then Exec([], Err(EmptyColToValue))
    else
      match Generate(u.query)
      case Err(err) => Exec([], Err(err))
      case Ok(q) =>
        var call := IndexQueryCall(u.store, q);
        match GetRowIndices(answer)
        case Err(err) => Exec([call], Err(err))
        case Ok(indices) =>
          if |indices| == 0 then Exec([call], Ok(()))
          else
            match BatchUpdateRequests(u.store, u.colToValue, indices)
            case Err(err) => Exec([call], Err(err))
            case Ok(reqs) => Exec([call, BatchUpdateRows(u.store.spreadsheetId, reqs)], written)
  }

  // ----------------------------------------------------------------- delete

  datatype DeleteStmt = DeleteStmt(store: RowStore, query: QueryBuilder)

  /** `new GoogleSheetDeleteStmt(store)`: rows are found by their identity. */
  function NewDelete(store: RowStore): (d: DeleteStmt)
    ensures d.query == StoreQuery(store, [RowIdxCol])
  {
    DeleteStmt(store, StoreQuery(store, [RowIdxCol]))
  }

  function DeleteWhere(d: DeleteStmt, cond: string, args: seq<Value>): DeleteStmt
  {
    d.(query := Where(d.query, cond, args))
  }

  /** `generateRowA1Ranges(sheetName, indices)`: one whole-row range per
      index, in order. */
  function GenerateRowA1Ranges(sheetName: string, indices: seq<int>): (r: seq<string>)
    ensures |r| == |indices|
    ensures forall i :: 0 <= i < |indices| ==> r[i] == GetA1Range(sheetName, DeleteRange(indices[i], indices[i]))
  {
    seq(|indices|, i requires 0 <= i < |indices| => GetA1Range(sheetName, DeleteRange(indices[i], indices[i])))
  }

  /** Each cleared range reads back as exactly the row it was made for,
      from column A to column Z of the statement's sheet. */
  lemma {:induction false} RowRangesCoverTheirRows(sheetName: string, indices: seq<int>)
    requires '!' !in sheetName && ':' !in sheetName
    ensures forall i :: 0 <= i < |indices| ==>
      && ParseA1Range(GenerateRowA1Ranges(sheetName, indices)[i]).sheetName == sheetName
      && ParseA1Range(GenerateRowA1Ranges(sheetName, indices)[i]).fromCell == "A" + IntToString(indices[i])
      && ParseA1Range(GenerateRowA1Ranges(sheetName, indices)[i]).toCell == "Z" + IntToString(indices[i])
  {
    forall i | 0 <= i < |indices|
      ensures ParseA1Range(GenerateRowA1Ranges(sheetName, indices)[i]).sheetName == sheetName
      ensures ParseA1Range(GenerateRowA1Ranges(sheetName, indices)[i]).fromCell == "A" + IntToString(indices[i])
      ensures ParseA1Range(GenerateRowA1Ranges(sheetName, indices)[i]).toCell == "Z" + IntToString(indices[i])
    {
      DeleteRangeParses(sheetName, indices[i], indices[i]);
    }
  }

  /** `GoogleSheetDeleteStmt.exec`: the row-index query, then one `clear`
      of all matched rows, or nothing when no row matches. Rows are
      cleared, not removed. */
  function DeleteExec(d: DeleteStmt, answer: Result<seq<seq<Value>>>, written: Result<()>): (e: Exec<()>)
    ensures Generate(d.query).Err? ==> e == Exec([], Err(Generate(d.query).error))
    ensures Generate(d.query).Ok? ==>
      && |e.calls| >= 1
      && e.calls[0] == IndexQueryCall(d.store, Generate(d.query).value)
      && (GetRowIndices(answer).Err? ==> e == Exec([e.calls[0]], Err(GetRowIndices(answer).error)))
      && (GetRowIndices(answer) == Ok([]) ==> e == Exec([e.calls[0]], Ok(())))
    ensures |e.calls| == 2 <==> Generate(d.query).Ok? && GetRowIndices(answer).Ok? && |GetRowIndices(answer).value| > 0
    ensures |e.calls| == 2 ==>
      && e.calls[1] == Clear(d.store.spreadsheetId, GenerateRowA1Ranges(d.store.sheetName, GetRowIndices(answer).value))
      && e.outcome == written
  {
    match Generate(d.query)
    case Err(err) => Exec([], Err(err))
    case Ok(q) =>
      var call := IndexQueryCall(d.store, q);
      match GetRowIndices(answer)
      case Err(err) => Exec([call], Err(err))
      case Ok(indices) =>
        if |indices| == 0 then Exec([call], Ok(()))
        else Exec([call, Clear(d.store.spreadsheetId, GenerateRowA1Ranges(d.store.sheetName, indices))], written)
  }

  // ------------------------------------------------------------------ count

  datatype CountStmt = CountStmt(store: RowStore, query: QueryBuilder)

  /** `COUNT(_rid)`: the aggregate the count query selects. */
  const CountExpr: string := "COUNT(" + RowIdxCol + ")"

  /** `new GoogleSheetCountStmt(store)` */
  function NewCount(store: RowStore): (c: CountStmt)
    ensures c.query == StoreQuery(store, [CountExpr])
  {
    CountStmt(store, StoreQuery(store, [CountExpr]))
  }

  /** The aggregate as the backend receives it when `_rid` is the first
      column: the name replaced by its letter. */
  const CountOfFirstColumn: string := "COUNT(A)"

  lemma {:induction false} CountExprReplaced()
    ensures ReplaceAll(CountExpr, RowIdxCol, "A") == CountOfFirstColumn
  {
    ReplaceAllSingle("COUNT(", RowIdxCol, "A", ")");
  }

  /** Only the first name of the replacer rewrites the aggregate when no
      later name occurs in its rewritten form. */
  lemma {:induction false} ReplaceColumnOfCount(rep: seq<(string, string)>)
    requires |rep| > 0 && rep[0] == (RowIdxCol, "A")
    requires forall j :: 1 <= j < |rep| ==> |rep[j].0| > 0
    requires forall j, i :: 1 <= j < |rep| && 0 <= i <= |CountOfFirstColumn| ==> !OccursAt(CountOfFirstColumn, rep[j].0, i)
    ensures ReplaceColumn(rep, CountExpr) == CountOfFirstColumn
  {
    CountExprReplaced();
    var tail := rep[1..];
    assert forall j :: 0 <= j < |tail| ==> tail[j] == rep[j + 1];
    ReplaceColumnAbsent(tail, CountOfFirstColumn);
  }

  /** The count statement projects `COUNT(A)` on a store whose first
      column is `_rid`, provided no other column name occurs inside
      `COUNT(A)` (the replacement is textual, so a column named `A` or `C`
      would rewrite the aggregate again). */
  lemma {:induction false} CountProjectsRowIdLetter(store: RowStore)
    requires PlainStore(store) && store.columns[0] == RowIdxCol
    requires forall j :: 1 <= j < |store.columns| ==> |store.columns[j]| > 0
    requires forall j, i :: 1 <= j < |store.columns| && 0 <= i <= |CountOfFirstColumn| ==> !OccursAt(CountOfFirstColumn, store.columns[j], i)
    ensures SelectList(NewCount(store).query) == CountOfFirstColumn
  {
    var rep := GetNameMap(store.mapping);
    NameMapOfPlainStore(store);
    ReplaceColumnOfCount(rep);
    SelectListOfOne(NewCount(store).query);
  }

  /** The replacer of a plain store pairs each column with its letter, in
      column order. */
  lemma {:induction false} NameMapOfPlainStore(store: RowStore)
    requires PlainStore(store)
    ensures |GetNameMap(store.mapping)| == |store.columns|
    ensures forall j :: 0 <= j < |store.columns| ==> GetNameMap(store.mapping)[j] == (store.columns[j], ColumnName(j))
  {
    GenerateColumnMappingDistinct(store.columns);
  }

  lemma {:induction false} SelectListOfOne(qb: QueryBuilder)
    requires |qb.columns| == 1
    ensures SelectList(qb) == ReplaceColumn(qb.replacer, qb.columns[0])
  {
    var items := seq(|qb.columns|, i requires 0 <= i < |qb.columns| => ReplaceColumn(qb.replacer, qb.columns[i]));
    assert items == [ReplaceColumn(qb.replacer, qb.columns[0])];
  }

  function CountWhere(c: CountStmt, cond: string, args: seq<Value>): CountStmt
  {
    c.(query := Where(c.query, cond, args))
  }

  /** The count read off the query result: no row, or an empty first row,
      counts as zero; otherwise the result must be exactly one numeric
      cell, which is truncated. */
  function CountResult(rows: seq<seq<Value>>): (r: Result<int>)
    ensures (|rows| == 0 || |rows[0]| == 0) ==> r == Ok(0)
    ensures |rows| == 1 && |rows[0]| == 1 && rows[0][0].Num? ==> r == Ok(Trunc(rows[0][0].n))
    ensures r.Ok? <==> |rows| == 0 || |rows[0]| == 0 || (|rows| == 1 && |rows[0]| == 1 && rows[0][0].Num?)
    ensures r.Err? ==> r.error == if |rows| == 1 && |rows[0]| == 1 then CountType else CountShape
  {
    if |rows| < 1 || |rows[0]| < 1 then Ok(0)
    else if |rows| != 1 || |rows[0]| != 1 then Err(CountShape)
    else if !rows[0][0].Num? then Err(CountType)
    else Ok(Trunc(rows[0][0].n))
  }

  /** `GoogleSheetCountStmt.exec` */
  function CountExec(c: CountStmt, answer: Result<seq<seq<Value>>>): (e: Exec<int>)
    ensures Generate(c.query).Err? ==> e == Exec([], Err(Generate(c.query).error))
    ensures Generate(c.query).Ok? ==> e.calls == [QueryRows(c.store.spreadsheetId, c.store.sheetName, Generate(c.query).value, true)]
    ensures Generate(c.query).Ok? && answer.Err? ==> e.outcome == Err(answer.error)
    ensures Generate(c.query).Ok? && answer.Ok? ==> e.outcome == CountResult(answer.value)
  {
    match Generate(c.query)
    case Err(err) => Exec([], Err(err))
    case Ok(q) =>
      var call := QueryRows(c.store.spreadsheetId, c.store.sheetName, q, true);
      match answer
      case Err(err) => Exec([call], Err(err))
      case Ok(rows) => Exec([call], CountResult(rows))
  }
}
