/** The key-value store on top of the row store (src/google/store/kv.ts):
    the statements `get`, `set` and `delete` issue in each mode, how `get`
    reads its answer, and `create`. */
module Kv {
  import opened Wrappers
  import opened Values
  import opened OrderedMap
  import opened Columns
  import opened Query
  import opened StoreModels
  import opened Stmt
  import opened Row
  import opened Codec
  import Strings
  import Json

  /** `KVMode` (src/google/utils/kv.ts) */
  datatype Mode = Default | AppendOnly

  /** `GoogleSheetKVStore`: the row store underneath and the mode; the
      codec is always `BasicCodec`. */
  datatype KvStore = KvStore(rowStore: RowStore, mode: Mode)

  /** The row-store configuration `create` uses: two columns, no formulas. */
  function KvConfig(): (c: Config)
    ensures c.columns == ["key", "value"] && c.columnsWithFormula == []
  {
    Config(["key", "value"], [])
  }

  /** `GoogleSheetKVStore.create`: a row store over `key` and `value`
      (with `_rid` in front), wrapped with the mode; the row store's own
      creation decides the calls and any error. */
  function Create(spreadsheetId: string, sheetName: string, mode: Mode,
                  created: Result<()>, cleared: Result<()>, headerWritten: Result<()>): (e: Exec<KvStore>)
    ensures e.calls == Row.Create(spreadsheetId, sheetName, KvConfig(), created, cleared, headerWritten).calls
    ensures e.outcome.Ok? <==> created.Ok? && cleared.Ok? && headerWritten.Ok?
    ensures e.outcome.Ok? ==> e.outcome.value.mode == mode
    ensures e.outcome.Ok? ==> e.outcome.value.rowStore.columns == [RowIdxCol, "key", "value"]
    ensures e.outcome.Ok? ==> e.outcome.value.rowStore.formulaCols == {}
  {
    var r := Row.Create(spreadsheetId, sheetName, KvConfig(), created, cleared, headerWritten);
    match r.outcome
    case Err(err) => Exec(r.calls, Err(err))
    case Ok(store) => Exec(r.calls, Ok(KvStore(store, mode)))
  }

  /** The row store a key-value store is created over. */
  predicate KvRowStore(store: RowStore) {
    && store.columns == [RowIdxCol, "key", "value"]
    && store.mapping == GenerateColumnMapping(store.columns)
    && store.formulaCols == {}
  }

  /** A key-value store made by `create` stands on such a row store. */
  lemma {:induction false} CreateMakesKvRowStore(spreadsheetId: string, sheetName: string, mode: Mode,
                              created: Result<()>, cleared: Result<()>, headerWritten: Result<()>)
    requires Create(spreadsheetId, sheetName, mode, created, cleared, headerWritten).outcome.Ok?
    ensures KvRowStore(Create(spreadsheetId, sheetName, mode, created, cleared, headerWritten).outcome.value.rowStore)
  {
  }

  /** The condition `get` and Default-mode `delete` use. */
  const KeyCondition: string := "key = ?"

  /** The condition Default-mode `set` uses for its delete; it lacks the
      space before `?`, which the builder's trimming of the text around
      each placeholder makes immaterial. */
  const KeyConditionOfSet: string := "key =?"

  /** The select `get` issues: the `value` column of the rows whose key
      matches, at most one; AppendOnly mode takes the most recent one by
      ordering on `_rid` descending. */
  function GetStmt(kv: KvStore, key: string): (s: SelectStmt)
    ensures s.store == kv.rowStore && s.columns == ["value"]
    ensures s.query.where == KeyCondition && s.query.whereArgs == [Str(key)]
    ensures s.query.limit == 1.0 && s.query.offset == 0.0
    ensures kv.mode.Default? ==> s.query.orderBy == []
    ensures kv.mode.AppendOnly? ==> s.query.orderBy == [RowIdxCol + " DESC"]
  {
    var s := SelectWhere(NewSelect(kv.rowStore, ["value"]), KeyCondition, [Str(key)]);
    match kv.mode
    case Default => SelectLimit(s, 1.0)
    case AppendOnly =>
      var o := SelectOrderBy(s, [ColumnOrderBy(RowIdxCol, Desc)]);
      var item := o.query.orderBy[0];
      assert item == item[..|RowIdxCol|] + item[|RowIdxCol|..];
      SelectLimit(o, 1.0)
  }

  /** Reading a property of a record: `undefined` when it is absent. */
  function Field(r: Record, k: string): (v: Value)
    ensures Has(r, k) ==> Some(v) == Get(r, k)
    ensures !Has(r, k) ==> v == Undef
  {
    match Get(r, k)
    case None => Undef
    case Some(v) => v
  }

  /** JavaScript falsiness of a value that is none of `''`, `null` and
      `undefined`. */
  predicate OtherFalsy(v: Value) {
    v == Num(0.0) || v == Bool(false)
  }

  /** What `get` makes of its records: no record, or a value of `''`,
      `null` or `undefined`, means the key is absent (an empty value is
      AppendOnly mode's tombstone); another falsy value fails `decode`'s
      emptiness test; a non-string has no `startsWith`; a string is
      decoded. */
  function GetResult(records: seq<Record>): (r: Result<string>)
    ensures |records| == 0 ==> r == Err(KeyNotFound)
    ensures |records| > 0 && Field(records[0], "value") in {Str(""), Null, Undef} ==> r == Err(KeyNotFound)
    ensures |records| > 0 && Field(records[0], "value").Str? && Field(records[0], "value") != Str("") ==>
      r == Decode(Field(records[0], "value").s)
    ensures r.Ok? <==> |records| > 0 && Field(records[0], "value").Str? && Decode(Field(records[0], "value").s).Ok?
    ensures r.Ok? ==> Field(records[0], "value") == Str(Encode(r.value))
  {
    if |records| == 0 then Err(KeyNotFound)
    else
      var v := Field(records[0], "value");
      if v == Str("") || v.Null? || v.Undef? then Err(KeyNotFound)
      else if OtherFalsy(v) then Err(EmptyData)
      else if !v.Str? then Err(NotAString)
      else Decode(v.s)
  }

  /** `get(key)`: the select, then the reading of its records. */
  function GetExec(kv: KvStore, key: string, answer: Result<seq<seq<Value>>>): (e: Exec<string>)
    ensures e.calls == SelectExec(GetStmt(kv, key), answer).calls
    ensures SelectExec(GetStmt(kv, key), answer).outcome.Err? ==> e.outcome == Err(SelectExec(GetStmt(kv, key), answer).outcome.error)
    ensures SelectExec(GetStmt(kv, key), answer).outcome.Ok? ==> e.outcome == GetResult(SelectExec(GetStmt(kv, key), answer).outcome.value)
  {
    var s := SelectExec(GetStmt(kv, key), answer);
    match s.outcome
    case Err(err) => Exec(s.calls, Err(err))
    case Ok(records) => Exec(s.calls, GetResult(records))
  }

  /** The key `get` looks up reaches the query text as a JSON string
      literal that decodes back to the key, unless its trimmed lower-case
      form starts with a date or time keyword, in which case it is spliced
      in as it is. A key that needs no JSON escape appears verbatim between
      the quotes, which is the text the backend compares with the cells. */
  lemma {:induction false} GetKeyArgument(kv: KvStore, key: string)
    ensures ConvertArgs(GetStmt(kv, key).query.whereArgs).Ok?
    ensures !IsKeyword(Strings.Trim(Strings.AsciiLower(key))) ==>
      Json.Unquote(ConvertArgs(GetStmt(kv, key).query.whereArgs).value[0]) == Some(key)
    ensures IsKeyword(Strings.Trim(Strings.AsciiLower(key))) ==>
      ConvertArgs(GetStmt(kv, key).query.whereArgs).value[0] == key
    ensures !IsKeyword(Strings.Trim(Strings.AsciiLower(key))) && Json.NeedsNoEscape(key) ==>
      ConvertArgs(GetStmt(kv, key).query.whereArgs).value[0] == "\"" + key + "\""
  {
    var args := GetStmt(kv, key).query.whereArgs;
    ConvertArgsValues(args);
    ConvertArgMeaning(args[0]);
    if Json.NeedsNoEscape(key) {
      Json.EscapeBodyPlain(key);
    }
  }

  /** A stored value comes back as the payload it encodes: a one-cell
      answer holding an encoded string yields that payload. */
  lemma {:induction false} GetDecodesStoredValue(kv: KvStore, key: string, payload: string)
    requires Generate(GetStmt(kv, key).query).Ok?
    ensures GetExec(kv, key, Ok([[Str(Encode(payload))]])).outcome == Ok(payload)
  {
    var rec := BuildRecord(["value"], [Str(Encode(payload))]);
    assert IsLastIndex(["value"], "value", 0);
    assert Get(rec, "value") == Some(Str(Encode(payload)));
  }

  /** The row `set` inserts: the key and the encoded payload. */
  function KvRow(key: string, stored: string): Value
  {
    Obj([("key", Str(key)), ("value", Str(stored))])
  }

  /** `set(key, value)`: the payload is encoded; Default mode first
      deletes the key's rows, and a failure there ends the call; then the
      row is inserted. `deleteAnswer` and `cleared` are the transport's
      answers to the delete, `written` its answer to the insert. */
  function SetExec(kv: KvStore, key: string, value: string,
                   deleteAnswer: Result<seq<seq<Value>>>, cleared: Result<()>, written: Result<()>): (e: Exec<()>)
    ensures kv.mode.AppendOnly? ==> e == InsertExec(kv.rowStore, [KvRow(key, Encode(value))], written)
    ensures kv.mode.Default? ==>
      var d := DeleteExec(DeleteWhere(NewDelete(kv.rowStore), KeyConditionOfSet, [Str(key)]), deleteAnswer, cleared);
      && (d.outcome.Err? ==> e == d)
      && (d.outcome.Ok? ==> e == Exec(d.calls + InsertExec(kv.rowStore, [KvRow(key, Encode(value))], written).calls,
                                      InsertExec(kv.rowStore, [KvRow(key, Encode(value))], written).outcome))
  {
    var insert := InsertExec(kv.rowStore, [KvRow(key, Encode(value))], written);
    match kv.mode
    case AppendOnly => insert
    case Default =>
      var d := DeleteExec(DeleteWhere(NewDelete(kv.rowStore), KeyConditionOfSet, [Str(key)]), deleteAnswer, cleared);
      if d.outcome.Err? then d else Exec(d.calls + insert.calls, insert.outcome)
  }

  /** `delete(key)`: Default mode deletes the key's rows; AppendOnly mode
      inserts the tombstone, a row with an empty value. */
  function DeleteKeyExec(kv: KvStore, key: string,
                         deleteAnswer: Result<seq<seq<Value>>>, cleared: Result<()>, written: Result<()>): (e: Exec<()>)
    ensures kv.mode.Default? ==> e == DeleteExec(DeleteWhere(NewDelete(kv.rowStore), KeyCondition, [Str(key)]), deleteAnswer, cleared)
    ensures kv.mode.AppendOnly? ==> e == InsertExec(kv.rowStore, [KvRow(key, "")], written)
  {
    match kv.mode
    case Default => DeleteExec(DeleteWhere(NewDelete(kv.rowStore), KeyCondition, [Str(key)]), deleteAnswer, cleared)
    case AppendOnly => InsertExec(kv.rowStore, [KvRow(key, "")], written)
  }

  /** `key` and `value` are not properties of a `Map` object, so the
      field filter keeps them. */
  lemma {:induction false} KvNamesAreNotMapProperties()
    ensures "key" !in MapObjectProperties && "value" !in MapObjectProperties
  {
  }

  /** The field map of a key-value row: its two fields, and no `_rid`. */
  lemma {:induction false} KvFieldMap(key: string, stored: string)
    ensures Has(FieldMapAsWritten(KvRow(key, stored).fields), "key") && Get(FieldMapAsWritten(KvRow(key, stored).fields), "key") == Some(Str(key))
    ensures Has(FieldMapAsWritten(KvRow(key, stored).fields), "value") && Get(FieldMapAsWritten(KvRow(key, stored).fields), "value") == Some(Str(stored))
    ensures !Has(FieldMapAsWritten(KvRow(key, stored).fields), RowIdxCol)
  {
    var fields := KvRow(key, stored).fields;
    KvNamesAreNotMapProperties();
    assert PlainFields(fields);
    FieldMapAgreement(fields);
    FieldMapContents(fields);
    assert IsFirstField(fields, 0) && IsFirstField(fields, 1);
    assert forall p :: 0 <= p < |fields| ==> fields[p].0 != RowIdxCol;
  }

  /** A key-value store's row store is a plain store whose slots are
      `_rid`, `key` and `value`, in that order. */
  lemma {:induction false} KvRowStoreIsPlain(store: RowStore)
    requires KvRowStore(store)
    ensures PlainStore(store)
    ensures |store.columns| == 3 && store.columns[0] == RowIdxCol && store.columns[1] == "key" && store.columns[2] == "value"
  {
  }

  /** On a key-value store's row store, the row of a key and a stored
      text converts to `=ROW()`, the escaped key and the escaped text. */
  lemma {:induction false} KvRowConversion(store: RowStore, key: string, stored: string)
    requires KvRowStore(store)
    ensures ConvertRowToArray(store, KvRow(key, stored)) == Ok([Str(RowIdxFormula), Str("'" + key), Str("'" + stored)])
  {
    KvRowStoreIsPlain(store);
    KvFieldMap(key, stored);
    KeyValueFieldsConversion(store, KvRow(key, stored).fields, key, stored);
  }

  /** A record whose field map holds a string key and a string value,
      and no `_rid`, passes every check. */
  lemma {:induction false} KeyValueFieldsConvertible(store: RowStore, fields: seq<(string, Value)>, key: string, stored: string)
    requires PlainStore(store) && store.formulaCols == {}
    requires |store.columns| == 3 && store.columns[0] == RowIdxCol && store.columns[1] == "key" && store.columns[2] == "value"
    requires Get(FieldMapAsWritten(fields), "key") == Some(Str(key)) && Get(FieldMapAsWritten(fields), "value") == Some(Str(stored))
    requires !Has(FieldMapAsWritten(fields), RowIdxCol)
    ensures ConvertRowToArray(store, Obj(fields)).Ok?
  {
    var fm := FieldMapAsWritten(fields);
    forall j | 0 <= j < |store.columns| && Has(fm, store.columns[j])
      ensures Writable(store, store.columns[j], Get(fm, store.columns[j]).value)
    {
      assert j != 0;
      if j == 1 {
        assert Get(fm, store.columns[j]) == Some(Str(key));
      } else {
        assert Get(fm, store.columns[j]) == Some(Str(stored));
      }
    }
    ConvertRowToArrayOk(store, fields);
  }

  /** Such a record converts to `=ROW()`, the escaped key and the escaped
      value. */
  lemma {:induction false} KeyValueFieldsConversion(store: RowStore, fields: seq<(string, Value)>, key: string, stored: string)
    requires PlainStore(store) && store.formulaCols == {}
    requires |store.columns| == 3 && store.columns[0] == RowIdxCol && store.columns[1] == "key" && store.columns[2] == "value"
    requires Get(FieldMapAsWritten(fields), "key") == Some(Str(key)) && Get(FieldMapAsWritten(fields), "value") == Some(Str(stored))
    requires !Has(FieldMapAsWritten(fields), RowIdxCol)
    ensures ConvertRowToArray(store, Obj(fields)) == Ok([Str(RowIdxFormula), Str("'" + key), Str("'" + stored)])
  {
    KeyValueFieldsConvertible(store, fields, key, stored);
    ConvertRowToArraySlots(store, fields);
    var r := ConvertRowToArray(store, Obj(fields)).value;
    assert r[0] == Str(RowIdxFormula);
    assert Ok(r[1]) == EscapeCell("key", Str(key), {});
    assert Ok(r[2]) == EscapeCell("value", Str(stored), {});
    assert |r| == 3 && r == [r[0], r[1], r[2]];
  }

  /** Inserting the row of a key and a stored text appends one row to the
      data range: `=ROW()`, the escaped key and the escaped text. */
  lemma {:induction false} InsertKvRow(store: RowStore, key: string, stored: string, written: Result<()>)
    requires KvRowStore(store)
    ensures InsertExec(store, [KvRow(key, stored)], written)
      == Exec([OverwriteRows(store.spreadsheetId, GetA1Range(store.sheetName, FullTableRange()),
                             [[Str(RowIdxFormula), Str("'" + key), Str("'" + stored)]])], written)
  {
    KvRowConversion(store, key, stored);
    var rows := [KvRow(key, stored)];
    assert ConvertRows(store, rows).Ok?;
    assert ConvertRows(store, rows).value == [[Str(RowIdxFormula), Str("'" + key), Str("'" + stored)]];
  }

  /** The write `set` ends with, when it gets that far: one row appended
      to the data range, holding the escaped key and the escaped encoded
      payload; AppendOnly mode issues nothing else. */
  lemma {:induction false} SetWritesEncodedRow(kv: KvStore, key: string, value: string,
                            deleteAnswer: Result<seq<seq<Value>>>, cleared: Result<()>, written: Result<()>)
    requires KvRowStore(kv.rowStore)
    ensures kv.mode.AppendOnly? ==>
      SetExec(kv, key, value, deleteAnswer, cleared, written)
        == Exec([OverwriteRows(kv.rowStore.spreadsheetId, GetA1Range(kv.rowStore.sheetName, FullTableRange()),
                               [[Str(RowIdxFormula), Str("'" + key), Str("'!" + value)]])], written)
    ensures kv.mode.Default? && SetExec(kv, key, value, deleteAnswer, cleared, written).outcome.Ok? ==>
      SetExec(kv, key, value, deleteAnswer, cleared, written).calls[|SetExec(kv, key, value, deleteAnswer, cleared, written).calls| - 1]
        == OverwriteRows(kv.rowStore.spreadsheetId, GetA1Range(kv.rowStore.sheetName, FullTableRange()),
                         [[Str(RowIdxFormula), Str("'" + key), Str("'!" + value)]])
  {
    var stored := Encode(value);
    assert "'" + stored == "'!" + value;
    InsertKvRow(kv.rowStore, key, stored, written);
    if kv.mode.Default? && SetExec(kv, key, value, deleteAnswer, cleared, written).outcome.Ok? {
      SetEndsWithInsert(kv, key, value, deleteAnswer, cleared, written);
    }
  }

  /** In Default mode, a `set` that succeeds ends with the calls of its
      insert. */
  lemma {:induction false} SetEndsWithInsert(kv: KvStore, key: string, value: string,
                                             deleteAnswer: Result<seq<seq<Value>>>, cleared: Result<()>, written: Result<()>)
    requires kv.mode.Default? && SetExec(kv, key, value, deleteAnswer, cleared, written).outcome.Ok?
    requires |InsertExec(kv.rowStore, [KvRow(key, Encode(value))], written).calls| == 1
    ensures SetExec(kv, key, value, deleteAnswer, cleared, written).calls[|SetExec(kv, key, value, deleteAnswer, cleared, written).calls| - 1]
      == InsertExec(kv.rowStore, [KvRow(key, Encode(value))], written).calls[0]
  {
    var ins := InsertExec(kv.rowStore, [KvRow(key, Encode(value))], written);
    var d := DeleteExec(DeleteWhere(NewDelete(kv.rowStore), KeyConditionOfSet, [Str(key)]), deleteAnswer, cleared);
    var e := SetExec(kv, key, value, deleteAnswer, cleared, written);
    assert d.outcome.Ok? && e.calls == d.calls + ins.calls;
  }

  /** AppendOnly `delete` appends the tombstone row: the escaped key and an
      empty text, which reads back as no value. */
  lemma {:induction false} DeleteWritesTombstone(kv: KvStore, key: string,
                              deleteAnswer: Result<seq<seq<Value>>>, cleared: Result<()>, written: Result<()>)
    requires KvRowStore(kv.rowStore) && kv.mode.AppendOnly?
    ensures DeleteKeyExec(kv, key, deleteAnswer, cleared, written)
      == Exec([OverwriteRows(kv.rowStore.spreadsheetId, GetA1Range(kv.rowStore.sheetName, FullTableRange()),
                             [[Str(RowIdxFormula), Str("'" + key), Str("'")]])], written)
  {
    InsertKvRow(kv.rowStore, key, "", written);
    assert "'" + "" == "'";
  }
}
