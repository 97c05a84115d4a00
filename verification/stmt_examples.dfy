/** Statement executions on the store of JSFreeDB's unit tests
    (tests/google/store/stmt.test.ts), derived from the general model. */
module StmtExamples {
  import opened Wrappers
  import opened Strings
  import opened SheetModels
  import opened Values
  import opened OrderedMap
  import opened Columns
  import opened StoreModels
  import opened Stmt

  /** The store of JSFreeDB's unit tests: `name`, `age` and `dob`
      behind `_rid` in columns A to D, with `name` holding formulas. */
  function TestStore(): RowStore
  {
    RowStore("sheet-123", "MySheet", [RowIdxCol, "name", "age", "dob"],
      [(RowIdxCol, ColIdx("A", 0)), ("name", ColIdx("B", 1)), ("age", ColIdx("C", 2)), ("dob", ColIdx("D", 3))],
      {"name"})
  }

  /** Its columns are pairwise distinct: they differ in their first
      letter. */
  lemma {:induction false} TestColumnsDistinct(cols: seq<string>)
    requires cols == TestStore().columns
    ensures forall i, j :: 0 <= i < j < |cols| ==> cols[i] != cols[j]
  {
    assert cols[0][0] == '_' && cols[1][0] == 'n' && cols[2][0] == 'a' && cols[3][0] == 'd';
  }

  /** Its mapping is the generated one. */
  lemma {:induction false} TestStoreIsPlain()
    ensures PlainStore(TestStore())
  {
    var store := TestStore();
    TestColumnsDistinct(store.columns);
    forall j | 0 <= j < |store.columns|
      ensures store.mapping[j] == (store.columns[j], ColIdx(ColumnName(j), j))
    {
      if j == 0 {
        assert ColumnName(0) == "A";
      } else if j == 1 {
        assert ColumnName(1) == "B";
      } else if j == 2 {
        assert ColumnName(2) == "C";
      } else {
        assert ColumnName(3) == "D";
      }
    }
    PlainStoreOfGeneratedMapping(store);
  }

  /** The slot of each of its columns. */
  lemma {:induction false} TestStoreSlots(store: RowStore)
    requires store == TestStore()
    ensures |GetNameMap(store.mapping)| == 4
    ensures HasCol(store.mapping, RowIdxCol) && GetColIdx(store.mapping, RowIdxCol).idx == 0
    ensures HasCol(store.mapping, "name") && GetColIdx(store.mapping, "name").idx == 1
    ensures HasCol(store.mapping, "age") && GetColIdx(store.mapping, "age").idx == 2
    ensures HasCol(store.mapping, "dob") && GetColIdx(store.mapping, "dob").idx == 3
  {
    TestStoreIsPlain();
    PlainStoreSlots(store);
    var cols := store.columns;
    assert cols[0] == RowIdxCol && cols[1] == "name" && cols[2] == "age" && cols[3] == "dob";
    assert |Keys(GetNameMap(store.mapping))| == |Keys(store.mapping)|;
  }

  /** The escape of a value in each of its columns: only `name` holds
      formulas. */
  lemma {:induction false} TestStoreEscapes(store: RowStore)
    requires store == TestStore()
    ensures EscapeCell(RowIdxCol, Num(5.0), store.formulaCols) == Ok(Num(5.0))
    ensures EscapeCell("name", Str("blah"), store.formulaCols) == Ok(Str("blah"))
    ensures EscapeCell("age", Num(10.0), store.formulaCols) == Ok(Num(10.0))
    ensures EscapeCell("dob", Str("2021"), store.formulaCols) == Ok(Str("'2021"))
  {
    assert |"dob"| != |"name"| && "dob" !in store.formulaCols;
    assert |"age"| != |"name"| && "age" !in store.formulaCols;
    assert RowIdxCol[0] != "name"[0] && RowIdxCol !in store.formulaCols;
    assert "'" + "2021" == "'2021";
  }

  /** The lookups and escapes the examples on the test store go through. */
  lemma {:induction false} TestStoreFacts(store: RowStore)
    requires store == TestStore()
    ensures |GetNameMap(store.mapping)| == 4
    ensures HasCol(store.mapping, RowIdxCol) && GetColIdx(store.mapping, RowIdxCol).idx == 0
    ensures HasCol(store.mapping, "name") && GetColIdx(store.mapping, "name").idx == 1
    ensures HasCol(store.mapping, "age") && GetColIdx(store.mapping, "age").idx == 2
    ensures HasCol(store.mapping, "dob") && GetColIdx(store.mapping, "dob").idx == 3
    ensures EscapeCell(RowIdxCol, Num(5.0), store.formulaCols) == Ok(Num(5.0))
    ensures EscapeCell("name", Str("blah"), store.formulaCols) == Ok(Str("blah"))
    ensures EscapeCell("age", Num(10.0), store.formulaCols) == Ok(Num(10.0))
    ensures EscapeCell("dob", Str("2021"), store.formulaCols) == Ok(Str("'2021"))
  {
    TestStoreSlots(store);
    TestStoreEscapes(store);
  }

  /** The unit tests' field names are not properties of a `Map` object,
      so the field filter keeps them. */
  lemma {:induction false} TestFieldNamesAreNotMapProperties()
    ensures "name" !in MapObjectProperties && "age" !in MapObjectProperties
    ensures "dob" !in MapObjectProperties && RowIdxCol !in MapObjectProperties
  {
  }

  /** The unit tests' full record: the formula column `name` is written
      verbatim, the other string escaped, the number kept. */
  lemma {:induction false} ConvertRowToArrayFullRecord(store: RowStore, full: seq<(string, Value)>)
    requires store == TestStore()
    requires full == [("name", Str("blah")), ("age", Num(10.0)), ("dob", Str("2021"))]
    ensures ConvertRowToArray(store, Obj(full)) == Ok([Str(RowIdxFormula), Str("blah"), Num(10.0), Str("'2021")])
  {
    TestStoreSlots(store);
    FullRecordFieldMap(full);
    FullRecordFill(store, full);
  }

  lemma {:induction false} FullRecordFieldMap(full: seq<(string, Value)>)
    requires full == [("name", Str("blah")), ("age", Num(10.0)), ("dob", Str("2021"))]
    ensures FieldMapAsWritten(full) == full
  {
    TestFieldNamesAreNotMapProperties();
    var f1, f2 := full[..1], full[..2];
    assert FieldMapAsWritten(f1) == f1 by { assert f1[..0] == []; }
    assert FieldMapAsWritten(f2) == f2 by { assert f2[..1] == f1; }
    assert full[..2] == f2;
  }

  lemma {:induction false} FullRecordFill(store: RowStore, full: seq<(string, Value)>)
    requires store == TestStore()
    requires full == [("name", Str("blah")), ("age", Num(10.0)), ("dob", Str("2021"))]
    ensures FillRow(store, full, BlankRow(4)) == Ok([Str(RowIdxFormula), Str("blah"), Num(10.0), Str("'2021")])
  {
    TestStoreFacts(store);
    var f1, f2 := full[..1], full[..2];
    var acc := BlankRow(4);
    assert acc == [Str(RowIdxFormula), Undef, Undef, Undef];
    var r1 := [Str(RowIdxFormula), Str("blah"), Undef, Undef];
    var r2 := [Str(RowIdxFormula), Str("blah"), Num(10.0), Undef];
    assert FillRow(store, f1[..0], acc) == Ok(acc);
    FillRowStep(store, f1, acc, acc);
    assert SetSlot(acc, 1, Str("blah")) == r1;
    assert f2[..1] == f1;
    FillRowStep(store, f2, acc, r1);
    assert SetSlot(r1, 2, Num(10.0)) == r2;
    assert full[..2] == f2;
    FillRowStep(store, full, acc, r2);
    assert SetSlot(r2, 3, Str("'2021")) == [Str(RowIdxFormula), Str("blah"), Num(10.0), Str("'2021")];
  }

  /** The unit tests' record without `age`: its slot stays `undefined`. */
  lemma {:induction false} ConvertRowToArrayMissingField(store: RowStore, partial: seq<(string, Value)>)
    requires store == TestStore()
    requires partial == [("name", Str("blah")), ("dob", Str("2021"))]
    ensures ConvertRowToArray(store, Obj(partial)) == Ok([Str(RowIdxFormula), Str("blah"), Undef, Str("'2021")])
  {
    TestStoreSlots(store);
    PartialRecordFieldMap(partial);
    PartialRecordFill(store, partial);
  }

  lemma {:induction false} PartialRecordFieldMap(partial: seq<(string, Value)>)
    requires partial == [("name", Str("blah")), ("dob", Str("2021"))]
    ensures FieldMapAsWritten(partial) == partial
  {
    TestFieldNamesAreNotMapProperties();
    var f1 := partial[..1];
    assert FieldMapAsWritten(f1) == f1 by { assert f1[..0] == []; }
    assert partial[..1] == f1;
  }

  lemma {:induction false} PartialRecordFill(store: RowStore, partial: seq<(string, Value)>)
    requires store == TestStore()
    requires partial == [("name", Str("blah")), ("dob", Str("2021"))]
    ensures FillRow(store, partial, BlankRow(4)) == Ok([Str(RowIdxFormula), Str("blah"), Undef, Str("'2021")])
  {
    TestStoreFacts(store);
    var f1 := partial[..1];
    var acc := BlankRow(4);
    assert acc == [Str(RowIdxFormula), Undef, Undef, Undef];
    var r1 := [Str(RowIdxFormula), Str("blah"), Undef, Undef];
    assert FillRow(store, f1[..0], acc) == Ok(acc);
    FillRowStep(store, f1, acc, acc);
    assert SetSlot(acc, 1, Str("blah")) == r1;
    assert partial[..1] == f1;
    FillRowStep(store, partial, acc, r1);
    assert SetSlot(r1, 3, Str("'2021")) == [Str(RowIdxFormula), Str("blah"), Undef, Str("'2021")];
  }

  /** A record field named `_rid` is a mapped column like any other: its
      value replaces the `=ROW()` formula, so the stored row identity is
      whatever the caller wrote. */
  lemma {:induction false} RowIdFieldReplacesFormula(store: RowStore, rec: seq<(string, Value)>)
    requires store == TestStore()
    requires rec == [(RowIdxCol, Num(5.0))]
    ensures ConvertRowToArray(store, Obj(rec)) == Ok([Num(5.0), Undef, Undef, Undef])
  {
    TestStoreSlots(store);
    TestFieldNamesAreNotMapProperties();
    assert FieldMapAsWritten(rec) == rec;
    RowIdFill(store, rec);
  }

  lemma {:induction false} RowIdFill(store: RowStore, rec: seq<(string, Value)>)
    requires store == TestStore()
    requires rec == [(RowIdxCol, Num(5.0))]
    ensures FillRow(store, rec, BlankRow(4)) == Ok([Num(5.0), Undef, Undef, Undef])
  {
    TestStoreFacts(store);
    var acc := BlankRow(4);
    assert acc == [Str(RowIdxFormula), Undef, Undef, Undef];
    assert FillRow(store, rec[..0], acc) == Ok(acc);
    FillRowStep(store, rec, acc, acc);
    assert SetSlot(acc, 0, Num(5.0)) == [Num(5.0), Undef, Undef, Undef];
  }

  /** The count tests: a zero count, a fractional count truncated, a
      result with two cells, a text cell; an empty result counts as zero
      (the code returns 0 there rather than raising). */
  lemma {:induction false} CountResultExamples()
    ensures CountResult([[Num(0.0)]]) == Ok(0)
    ensures CountResult([[Num(5.7)]]) == Ok(5)
    ensures CountResult([]) == Ok(0)
    ensures CountResult([[Num(1.0), Num(2.0)]]) == Err(CountShape)
    ensures CountResult([[Num(1.0)], [Num(2.0)]]) == Err(CountShape)
    ensures CountResult([[Str("foo")]]) == Err(CountType)
  {
    assert (5.7).Floor == 5;
  }

  /** The delete test: matched rows 1 and 2 are cleared whole. */
  lemma {:induction false} DeleteRangesExample()
    ensures GenerateRowA1Ranges("MySheet", [1, 2]) == ["MySheet!A1:Z1", "MySheet!A2:Z2"]
  {
    assert IntToString(1) == "1" && IntToString(2) == "2";
    var d1 := DeleteRange(1, 1);
    var d2 := DeleteRange(2, 2);
    assert d1 == "A1:Z1" && d2 == "A2:Z2";
    assert GetA1Range("MySheet", d1) == "MySheet!A1:Z1";
    assert GetA1Range("MySheet", d2) == "MySheet!A2:Z2";
  }

  /** The update test: `name1`, `100` and `hello` written into `name`,
      `age` and `dob` of rows 1 and 2 give six requests, column by column;
      `name` holds formulas, so its text is written verbatim, the number
      is kept and the other string gains its apostrophe. */
  lemma {:induction false} UpdateRequestsExample(store: RowStore, cvs: seq<(string, Value)>, indices: seq<int>)
    requires store == TestStore()
    requires cvs == [("name", Str("name1")), ("age", Num(100.0)), ("dob", Str("hello"))] && indices == [1, 2]
    ensures BatchUpdateRequests(store, cvs, indices) == Ok([
      BatchUpdateRowsRequest("MySheet!B1", [[Str("name1")]]), BatchUpdateRowsRequest("MySheet!B2", [[Str("name1")]]),
      BatchUpdateRowsRequest("MySheet!C1", [[Num(100.0)]]), BatchUpdateRowsRequest("MySheet!C2", [[Num(100.0)]]),
      BatchUpdateRowsRequest("MySheet!D1", [[Str("'hello")]]), BatchUpdateRowsRequest("MySheet!D2", [[Str("'hello")]])])
  {
    UpdateRequestsByColumn(store, cvs, indices);
    UpdateRequestsSpelledOut(store, indices);
  }

  /** The update test's requests, column block by column block. */
  lemma {:induction false} UpdateRequestsByColumn(store: RowStore, cvs: seq<(string, Value)>, indices: seq<int>)
    requires store == TestStore()
    requires cvs == [("name", Str("name1")), ("age", Num(100.0)), ("dob", Str("hello"))] && indices == [1, 2]
    ensures BatchUpdateRequests(store, cvs, indices) == Ok(ColumnRequests(store, "B", Str("name1"), indices)
      + (ColumnRequests(store, "C", Num(100.0), indices) + ColumnRequests(store, "D", Str("'hello"), indices)))
  {
    var c := ColumnRequests(store, "C", Num(100.0), indices);
    var d := ColumnRequests(store, "D", Str("'hello"), indices);
    UpdateEntriesOfTest(store);
    assert cvs[2..][1..] == [] && cvs[1..][1..] == cvs[2..];
    BatchUpdateStep(store, cvs[2..], indices, "D", Str("'hello"), []);
    assert d + [] == d;
    BatchUpdateStep(store, cvs[1..], indices, "C", Num(100.0), d);
    BatchUpdateStep(store, cvs, indices, "B", Str("name1"), c + d);
  }

  /** The three column blocks of the update test, spelled out. */
  lemma {:induction false} UpdateRequestsSpelledOut(store: RowStore, indices: seq<int>)
    requires store == TestStore() && indices == [1, 2]
    ensures ColumnRequests(store, "B", Str("name1"), indices)
      + (ColumnRequests(store, "C", Num(100.0), indices) + ColumnRequests(store, "D", Str("'hello"), indices)) == [
      BatchUpdateRowsRequest("MySheet!B1", [[Str("name1")]]), BatchUpdateRowsRequest("MySheet!B2", [[Str("name1")]]),
      BatchUpdateRowsRequest("MySheet!C1", [[Num(100.0)]]), BatchUpdateRowsRequest("MySheet!C2", [[Num(100.0)]]),
      BatchUpdateRowsRequest("MySheet!D1", [[Str("'hello")]]), BatchUpdateRowsRequest("MySheet!D2", [[Str("'hello")]])]
  {
    var b := ColumnRequests(store, "B", Str("name1"), indices);
    var c := ColumnRequests(store, "C", Num(100.0), indices);
    var d := ColumnRequests(store, "D", Str("'hello"), indices);
    assert b == [BatchUpdateRowsRequest("MySheet!B1", [[Str("name1")]]), BatchUpdateRowsRequest("MySheet!B2", [[Str("name1")]])] by {
      UpdateColumnRequests(store, "B", Str("name1"), indices);
      assert "MySheet!" + "B" + "1" == "MySheet!B1" && "MySheet!" + "B" + "2" == "MySheet!B2";
    }
    assert c == [BatchUpdateRowsRequest("MySheet!C1", [[Num(100.0)]]), BatchUpdateRowsRequest("MySheet!C2", [[Num(100.0)]])] by {
      UpdateColumnRequests(store, "C", Num(100.0), indices);
      assert "MySheet!" + "C" + "1" == "MySheet!C1" && "MySheet!" + "C" + "2" == "MySheet!C2";
    }
    assert d == [BatchUpdateRowsRequest("MySheet!D1", [[Str("'hello")]]), BatchUpdateRowsRequest("MySheet!D2", [[Str("'hello")]])] by {
      UpdateColumnRequests(store, "D", Str("'hello"), indices);
      assert "MySheet!" + "D" + "1" == "MySheet!D1" && "MySheet!" + "D" + "2" == "MySheet!D2";
    }
  }

  /** One entry in front: its column's requests come before the rest. */
  lemma {:induction false} BatchUpdateStep(store: RowStore, cvs: seq<(string, Value)>, indices: seq<int>,
                                            name: string, escaped: Value, rest: seq<BatchUpdateRowsRequest>)
    requires |cvs| > 0 && Updatable(store, cvs[0]) && GetColIdx(store.mapping, cvs[0].0).name == name
    requires EscapeCell(cvs[0].0, cvs[0].1, store.formulaCols) == Ok(escaped)
    requires BatchUpdateRequests(store, cvs[1..], indices) == Ok(rest)
    ensures BatchUpdateRequests(store, cvs, indices) == Ok(ColumnRequests(store, name, escaped, indices) + rest)
  {
  }

  /** The update test's entries: each names a column of the test store
      and passes its escape and safe-integer check. */
  lemma {:induction false} UpdateEntriesOfTest(store: RowStore)
    requires store == TestStore()
    ensures Updatable(store, ("name", Str("name1"))) && GetColIdx(store.mapping, "name").name == "B"
    ensures Updatable(store, ("age", Num(100.0))) && GetColIdx(store.mapping, "age").name == "C"
    ensures Updatable(store, ("dob", Str("hello"))) && GetColIdx(store.mapping, "dob").name == "D"
    ensures EscapeCell("name", Str("name1"), store.formulaCols) == Ok(Str("name1"))
    ensures EscapeCell("age", Num(100.0), store.formulaCols) == Ok(Num(100.0))
    ensures EscapeCell("dob", Str("hello"), store.formulaCols) == Ok(Str("'hello"))
  {
    TestStoreSlots(store);
    UpdateEscapesOfTest(store);
    assert CheckSafeInteger(Num(100.0)).Ok? by {
      assert (100.0).Floor == 100;
    }
  }

  /** How the update test's values escape: `name` holds formulas. */
  lemma {:induction false} UpdateEscapesOfTest(store: RowStore)
    requires store == TestStore()
    ensures EscapeCell("name", Str("name1"), store.formulaCols) == Ok(Str("name1"))
    ensures EscapeCell("age", Num(100.0), store.formulaCols) == Ok(Num(100.0))
    ensures EscapeCell("dob", Str("hello"), store.formulaCols) == Ok(Str("'hello"))
  {
    assert |"dob"| != |"name"| && "dob" !in store.formulaCols;
    assert |"age"| != |"name"| && "age" !in store.formulaCols;
    assert "'" + "hello" == "'hello";
  }

  /** The requests writing one escaped value into one column of rows 1
      and 2 of the test store. */
  lemma {:induction false} UpdateColumnRequests(store: RowStore, letter: string, escaped: Value, indices: seq<int>)
    requires store == TestStore() && indices == [1, 2]
    ensures ColumnRequests(store, letter, escaped, indices) == [
      BatchUpdateRowsRequest("MySheet!" + letter + "1", [[escaped]]),
      BatchUpdateRowsRequest("MySheet!" + letter + "2", [[escaped]])]
  {
    assert IntToString(1) == "1" && IntToString(2) == "2";
    assert CellRange(store, letter, 1) == "MySheet!" + letter + "1";
    assert CellRange(store, letter, 2) == "MySheet!" + letter + "2";
  }
}
