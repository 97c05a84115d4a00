/** The key-value store over an abstract sheet: the live data rows as a
    sequence in row-identity order, each holding the key and the text the
    sheet shows for the value (the escaping apostrophe already taken off
    by the backend). `get` reads through the same record building and
    value reading as the statement model; `set` and `delete` change the
    rows as their statements do in each mode. A row matches a key when
    the two strings are equal. That is what `key = ?` means when the key
    travels verbatim between quotes: it needs no JSON escape and is not a
    date or time keyword (`Kv.GetKeyArgument`). The backend reads a string
    literal without escapes, so a key holding `"`, `\` or a character
    below U+0020 reaches it altered; such keys, and keys sent unquoted
    (trimmed lower-case form starting with `date` or `timeofday`), are
    compared by rules this module does not describe. */
module KvSheet {
  import opened Wrappers
  import opened Values
  import opened Stmt
  import opened Codec
  import opened Kv

  datatype KvRowData = KvRowData(key: string, value: string)

  type Sheet = seq<KvRowData>

  /** The value of the first row of `key`: what `limit 1` without an
      ordering returns. */
  function FirstValue(sheet: Sheet, key: string): (r: Option<string>)
    ensures r.Some? <==> exists i :: 0 <= i < |sheet| && sheet[i].key == key
    ensures r.Some? ==> exists i :: (0 <= i < |sheet| && sheet[i] == KvRowData(key, r.value)
      && forall j :: 0 <= j < i ==> sheet[j].key != key)
  {
    if |sheet| == 0 then None
    else if sheet[0].key == key then
      assert sheet[0] == KvRowData(key, sheet[0].value);
      Some(sheet[0].value)
    else
      var r := FirstValue(sheet[1..], key);
      assert forall i :: 0 < i < |sheet| ==> sheet[i] == sheet[1..][i - 1];
      if r.Some? then
        var i :| 0 <= i < |sheet[1..]| && sheet[1..][i] == KvRowData(key, r.value)
          && forall j :: 0 <= j < i ==> sheet[1..][j].key != key;
        assert sheet[i + 1] == KvRowData(key, r.value);
        assert forall j :: 0 <= j < i + 1 ==> sheet[j].key != key by {
          forall j | 0 <= j < i + 1 ensures sheet[j].key != key {
            if j > 0 {
              assert sheet[j] == sheet[1..][j - 1];
            }
          }
        }
        r
      else
        r
  }

  /** The value of the last row of `key`: what ordering by `_rid`
      descending with `limit 1` returns. */
  function LastValue(sheet: Sheet, key: string): (r: Option<string>)
    ensures r.Some? <==> exists i :: 0 <= i < |sheet| && sheet[i].key == key
    ensures r.Some? ==> exists i :: (0 <= i < |sheet| && sheet[i] == KvRowData(key, r.value)
      && forall j :: i < j < |sheet| ==> sheet[j].key != key)
  {
    if |sheet| == 0 then None
    else
      var last := sheet[|sheet| - 1];
      if last.key == key then
        assert sheet[|sheet| - 1] == KvRowData(key, last.value);
        Some(last.value)
      else
        var init := sheet[..|sheet| - 1];
        var r := LastValue(init, key);
        LastValueSkip(sheet, init, key, r);
        r
  }

  /** A last row of another key changes nothing about which row of `key`
      is last. */
  lemma {:induction false} LastValueSkip(sheet: Sheet, init: Sheet, key: string, r: Option<string>)
    requires |sheet| > 0 && init == sheet[..|sheet| - 1] && sheet[|sheet| - 1].key != key
    requires r.Some? <==> exists i :: 0 <= i < |init| && init[i].key == key
    requires r.Some? ==> exists i :: (0 <= i < |init| && init[i] == KvRowData(key, r.value)
      && forall j :: i < j < |init| ==> init[j].key != key)
    ensures r.Some? <==> exists i :: 0 <= i < |sheet| && sheet[i].key == key
    ensures r.Some? ==> exists i :: (0 <= i < |sheet| && sheet[i] == KvRowData(key, r.value)
      && forall j :: i < j < |sheet| ==> sheet[j].key != key)
  {
    if exists i :: 0 <= i < |sheet| && sheet[i].key == key {
      var i :| 0 <= i < |sheet| && sheet[i].key == key;
      assert init[i] == sheet[i];
    }
    if r.Some? {
      var i :| 0 <= i < |init| && init[i] == KvRowData(key, r.value)
        && forall j :: i < j < |init| ==> init[j].key != key;
      assert sheet[i] == init[i];
      forall j | i < j < |sheet| ensures sheet[j].key != key {
        if j < |init| {
          assert sheet[j] == init[j];
        }
      }
    }
  }

  /** The value of the row the select of `get` finds: the first row of
      the key in Default mode, the last one in AppendOnly mode. */
  function SelectedValue(sheet: Sheet, mode: Mode, key: string): Option<string>
  {
    if mode.Default? then FirstValue(sheet, key) else LastValue(sheet, key)
  }

  /** The rows the select of `get` returns, as the transport answers it:
      none, or one holding the value cell. */
  function SelectedRows(sheet: Sheet, mode: Mode, key: string): (rows: seq<seq<Value>>)
    ensures SelectedValue(sheet, mode, key).None? <==> rows == []
    ensures SelectedValue(sheet, mode, key).Some? ==> rows == [[Str(SelectedValue(sheet, mode, key).value)]]
  {
    match SelectedValue(sheet, mode, key)
    case None => []
    case Some(s) => [[Str(s)]]
  }

  /** `get(key)` on the sheet: the selected rows become records and are
      read as `get` reads them. */
  function SheetGet(sheet: Sheet, mode: Mode, key: string): Result<string>
  {
    GetResult(BuildQueryResultMap(["value"], SelectedRows(sheet, mode, key)))
  }

  /** Reading one row: an empty value is no value, anything else is
      decoded. */
  lemma {:induction false} ReadOneRow(v: string)
    ensures GetResult(BuildQueryResultMap(["value"], [[Str(v)]])) == if v == "" then Err(KeyNotFound) else Decode(v)
  {
    var rec := BuildRecord(["value"], [Str(v)]);
    assert Columns.IsLastIndex(["value"], "value", 0);
    assert Field(rec, "value") == Str(v);
  }

  /** What `get` returns on the sheet: no row of the key, or an empty
      value, is no value; otherwise the value found is decoded. */
  lemma {:induction false} SheetGetCases(sheet: Sheet, mode: Mode, key: string)
    ensures SheetGet(sheet, mode, key) ==
      match SelectedValue(sheet, mode, key)
      case None => Err(KeyNotFound)
      case Some(v) => if v == "" then Err(KeyNotFound) else Decode(v)
  {
    if SelectedValue(sheet, mode, key).Some? {
      ReadOneRow(SelectedValue(sheet, mode, key).value);
    }
  }

  /** The sheet without the rows of `key`, the others kept in order. */
  function RemoveKey(sheet: Sheet, key: string): (r: Sheet)
    ensures forall x :: x in r <==> x in sheet && x.key != key
    ensures |r| <= |sheet|
  {
    if |sheet| == 0 then []
    else
      var rest := RemoveKey(sheet[1..], key);
      assert forall x :: x in sheet <==> x == sheet[0] || x in sheet[1..] by {
        assert sheet == [sheet[0]] + sheet[1..];
      }
      if sheet[0].key == key then rest else [sheet[0]] + rest
  }

  /** `set(key, value)` on the sheet: Default mode clears the key's rows
      and appends the encoded row; AppendOnly mode only appends. */
  function SheetSet(sheet: Sheet, mode: Mode, key: string, value: string): (r: Sheet)
    ensures mode.AppendOnly? ==> |r| == |sheet| + 1 && r[..|sheet|] == sheet
  {
    var row := KvRowData(key, Encode(value));
    match mode
    case Default => RemoveKey(sheet, key) + [row]
    case AppendOnly => sheet + [row]
  }

  /** `delete(key)` on the sheet: Default mode clears the key's rows;
      AppendOnly mode appends the tombstone. */
  function SheetDelete(sheet: Sheet, mode: Mode, key: string): (r: Sheet)
    ensures mode.AppendOnly? ==> |r| == |sheet| + 1 && r[..|sheet|] == sheet
  {
    match mode
    case Default => RemoveKey(sheet, key)
    case AppendOnly => sheet + [KvRowData(key, "")]
  }

  lemma {:induction false} FirstValueAppend(sheet: Sheet, row: KvRowData, key: string)
    ensures FirstValue(sheet + [row], key)
      == if FirstValue(sheet, key).Some? then FirstValue(sheet, key)
         else if row.key == key then Some(row.value) else None
  {
    if |sheet| > 0 {
      assert (sheet + [row])[1..] == sheet[1..] + [row];
      FirstValueAppend(sheet[1..], row, key);
    }
  }

  lemma {:induction false} LastValueAppend(sheet: Sheet, row: KvRowData, key: string)
    ensures LastValue(sheet + [row], key) == if row.key == key then Some(row.value) else LastValue(sheet, key)
  {
    assert (sheet + [row])[..|sheet|] == sheet;
  }

  /** Removing one key leaves the first row of every other key in place. */
  lemma {:induction false} FirstValueRemoveKey(sheet: Sheet, key: string, other: string)
    requires other != key
    ensures FirstValue(RemoveKey(sheet, key), other) == FirstValue(sheet, other)
  {
    if |sheet| > 0 {
      FirstValueRemoveKey(sheet[1..], key, other);
      if sheet[0].key != key {
        assert ([sheet[0]] + RemoveKey(sheet[1..], key))[1..] == RemoveKey(sheet[1..], key);
      }
    }
  }

  /** Last write wins: after `set(key, value)`, `get(key)` returns `value`,
      in both modes, whatever the sheet held before. */
  lemma {:induction false} GetAfterSet(sheet: Sheet, mode: Mode, key: string, value: string)
    ensures SheetGet(SheetSet(sheet, mode, key, value), mode, key) == Ok(value)
  {
    var row := KvRowData(key, Encode(value));
    var s := SheetSet(sheet, mode, key, value);
    match mode
    case Default =>
      FirstValueAppend(RemoveKey(sheet, key), row, key);
      assert FirstValue(s, key) == Some(Encode(value));
    case AppendOnly =>
      LastValueAppend(sheet, row, key);
    SheetGetCases(s, mode, key);
  }

  /** After `delete(key)`, `get(key)` raises KeyNotFound, in both modes:
      Default mode has no row of the key left, AppendOnly mode finds the
      tombstone first. */
  lemma {:induction false} GetAfterDelete(sheet: Sheet, mode: Mode, key: string)
    ensures SheetGet(SheetDelete(sheet, mode, key), mode, key) == Err(KeyNotFound)
  {
    match mode
    case Default =>
      assert FirstValue(RemoveKey(sheet, key), key).None?;
    case AppendOnly =>
      LastValueAppend(sheet, KvRowData(key, ""), key);
      SheetGetCases(SheetDelete(sheet, mode, key), mode, key);
  }

  /** `set` of one key leaves what `get` returns for every other key. */
  lemma {:induction false} SetLeavesOtherKeys(sheet: Sheet, mode: Mode, key: string, value: string, other: string)
    requires other != key
    ensures SheetGet(SheetSet(sheet, mode, key, value), mode, other) == SheetGet(sheet, mode, other)
  {
    var row := KvRowData(key, Encode(value));
    match mode
    case Default =>
      FirstValueAppend(RemoveKey(sheet, key), row, other);
      FirstValueRemoveKey(sheet, key, other);
    case AppendOnly =>
      LastValueAppend(sheet, row, other);
  }

  /** `delete` of one key leaves what `get` returns for every other key. */
  lemma {:induction false} DeleteLeavesOtherKeys(sheet: Sheet, mode: Mode, key: string, other: string)
    requires other != key
    ensures SheetGet(SheetDelete(sheet, mode, key), mode, other) == SheetGet(sheet, mode, other)
  {
    match mode
    case Default =>
      FirstValueRemoveKey(sheet, key, other);
    case AppendOnly =>
      LastValueAppend(sheet, KvRowData(key, ""), other);
  }

  /** Default mode's invariant: at most one row per key. */
  predicate OneRowPerKey(sheet: Sheet) {
    forall i, j :: 0 <= i < j < |sheet| ==> sheet[i].key != sheet[j].key
  }

  lemma {:induction false} RemoveKeyKeepsOneRowPerKey(sheet: Sheet, key: string)
    requires OneRowPerKey(sheet)
    ensures OneRowPerKey(RemoveKey(sheet, key))
  {
    if |sheet| > 0 {
      var rest := sheet[1..];
      assert OneRowPerKey(rest) by {
        forall i, j | 0 <= i < j < |rest| ensures rest[i].key != rest[j].key {
          assert rest[i] == sheet[i + 1] && rest[j] == sheet[j + 1];
        }
      }
      RemoveKeyKeepsOneRowPerKey(rest, key);
      if sheet[0].key != key {
        var tail := RemoveKey(rest, key);
        forall y | y in tail ensures y.key != sheet[0].key {
          assert y in rest;
          var m :| 0 <= m < |rest| && rest[m] == y;
          assert sheet[m + 1] == y;
        }
        ConsKeepsOneRowPerKey(sheet[0], tail);
      }
    }
  }

  /** A row whose key no other row has can go in front. */
  lemma {:induction false} ConsKeepsOneRowPerKey(x: KvRowData, tail: Sheet)
    requires OneRowPerKey(tail)
    requires forall y :: y in tail ==> y.key != x.key
    ensures OneRowPerKey([x] + tail)
  {
    var r := [x] + tail;
    forall i, j | 0 <= i < j < |r| ensures r[i].key != r[j].key {
      assert r[j] == tail[j - 1];
      if i == 0 {
        assert tail[j - 1] in tail;
      } else {
        assert r[i] == tail[i - 1];
      }
    }
  }

  /** Default mode keeps at most one row per key through `set` and
      `delete`; `set` leaves exactly one row of its key. */
  lemma {:induction false} DefaultKeepsOneRowPerKey(sheet: Sheet, key: string, value: string)
    requires OneRowPerKey(sheet)
    ensures OneRowPerKey(SheetSet(sheet, Default, key, value))
    ensures OneRowPerKey(SheetDelete(sheet, Default, key))
    ensures forall i :: 0 <= i < |SheetSet(sheet, Default, key, value)| - 1 ==> SheetSet(sheet, Default, key, value)[i].key != key
  {
    RemoveKeyKeepsOneRowPerKey(sheet, key);
    var r := RemoveKey(sheet, key);
    var s := SheetSet(sheet, Default, key, value);
    forall i | 0 <= i < |r| ensures r[i].key != key {
      assert r[i] in r;
    }
    assert forall i :: 0 <= i < |r| ==> s[i] == r[i];
  }

  /** With at most one row per key, the first and the last row of a key
      are the same, so `get` does not depend on the ordering of the
      select. */
  lemma {:induction false} OneRowFirstIsLast(sheet: Sheet, key: string)
    requires OneRowPerKey(sheet)
    ensures FirstValue(sheet, key) == LastValue(sheet, key)
  {
    if FirstValue(sheet, key).Some? {
      var f := FirstValue(sheet, key).value;
      var l := LastValue(sheet, key).value;
      var i :| 0 <= i < |sheet| && sheet[i] == KvRowData(key, f);
      var j :| 0 <= j < |sheet| && sheet[j] == KvRowData(key, l);
      assert i == j;
    }
  }
}
