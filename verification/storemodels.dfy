/** The fixed names, ranges and condition templates of the row store
    (src/google/store/models.ts). */
module StoreModels {
  import opened Strings
  import opened Columns
  import opened SheetModels

  /** `MAX_COLUMN`: a row store spans the columns A..Z. */
  const MaxColumn: nat := 26

  /** `ROW_IDX_COL`: the hidden row-identity column. */
  const RowIdxCol: string := "_rid"

  /** `ROW_IDX_FORMULA`: what an insert writes into the row-identity column. */
  const RowIdxFormula: string := "=ROW()"

  /** The code unit `String.fromCharCode(x)` produces: `x` reduced modulo
      2^16 (the argument of `fromCharCode` goes through ToUint16). */
  function CharCode(x: int): int
  {
    x % 0x1_0000
  }

  /** The local `generateColumnName(index)`: the single character with code
      `65 + index`; no multi-letter names, unlike the one of range.ts. A
      code unit in the surrogate range is not a character of this model. */
  function LocalColumnName(index: int): (r: string)
    requires !(0xD800 <= CharCode(65 + index) < 0xE000)
    ensures |r| == 1 && r[0] as int == CharCode(65 + index)
  {
    [CharCode(65 + index) as char]
  }

  /** For the 26 columns of a store the two namings coincide; in particular
      `MAX_COLUMN - 1` names `Z`. */
  lemma {:induction false} LocalColumnNameAgrees(i: nat)
    requires i < MaxColumn
    ensures LocalColumnName(i) == ColumnName(i)
    ensures LocalColumnName(MaxColumn - 1) == "Z"
  {
  }

  /** The letter of the last column of a store. */
  function LastColumn(): string
  {
    LocalColumnName(MaxColumn - 1)
  }

  /** `DEFAULT_ROW_HEADER_RANGE` */
  function HeaderRange(): string
  {
    "A1:" + LastColumn() + "1"
  }

  /** `DEFAULT_ROW_FULL_TABLE_RANGE` */
  function FullTableRange(): string
  {
    "A2:" + LastColumn()
  }

  /** The header is row 1 and the data starts at row 2, both spanning A..Z. */
  lemma {:induction false} FixedRanges()
    ensures HeaderRange() == "A1:Z1"
    ensures FullTableRange() == "A2:Z"
    ensures ParseA1Range(GetA1Range("s", HeaderRange())) == A1Range("s!A1:Z1", "s", "A1", "Z1")
  {
    LocalColumnNameAgrees(0);
    assert LastColumn() == "Z";
    assert HeaderRange() == "A1:Z1";
    HeaderRangeOfSheetS();
  }

  lemma {:induction false} HeaderRangeOfSheetS()
    ensures ParseA1Range(GetA1Range("s", "A1:Z1")) == A1Range("s!A1:Z1", "s", "A1", "Z1")
  {
    var cells := "A1" + ":" + "Z1";
    assert cells == "A1:Z1";
    QualifiedRangeRoundTrip("s", "A1", "Z1");
    assert GetA1Range("s", cells) == "s" + "!" + cells;
    assert "s" + "!" + cells == "s!A1:Z1";
  }

  /** `ROW_DELETE_RANGE_TEMPLATE_FUNC(from, to)`: rows `from..to`, all columns. */
  function DeleteRange(from: int, to: int): (r: string)
    ensures r == "A" + IntToString(from) + ":Z" + IntToString(to)
  {
    "A" + IntToString(from) + ":" + LastColumn() + IntToString(to)
  }

  lemma {:induction false} IntToStringHasNoSeparator(i: int)
    ensures '!' !in IntToString(i) && ':' !in IntToString(i)
  {
    var d := NatToString(if i < 0 then -i else i);
    assert forall k :: 0 <= k < |d| ==> IsDigit(d[k]);
  }

  /** A qualified delete range reads back as the cells `A<from>` and
      `Z<to>` of that sheet. */
  lemma {:induction false} DeleteRangeParses(sheet: string, from: int, to: int)
    requires '!' !in sheet && ':' !in sheet
    ensures ParseA1Range(GetA1Range(sheet, DeleteRange(from, to))).sheetName == sheet
    ensures ParseA1Range(GetA1Range(sheet, DeleteRange(from, to))).fromCell == "A" + IntToString(from)
    ensures ParseA1Range(GetA1Range(sheet, DeleteRange(from, to))).toCell == "Z" + IntToString(to)
  {
    IntToStringHasNoSeparator(from);
    IntToStringHasNoSeparator(to);
    var f := "A" + IntToString(from);
    var t := "Z" + IntToString(to);
    assert DeleteRange(from, to) == f + ":" + t;
    assert '!' !in f && ':' !in f && '!' !in t;
    QualifiedRangeRoundTrip(sheet, f, t);
  }

  /** `ROW_WHERE_EMPTY_CONDITION_TEMPLATE` */
  const WhereEmptyCondition: string := RowIdxCol + " is not null"

  /** `ROW_WHERE_NON_EMPTY_CONDITION_TEMPLATE_FUNC(where)`: the row-identity
      guard, conjoined in front of the caller's condition, which is kept
      as it is. */
  function WhereNonEmptyCondition(where: string): (r: string)
    ensures StartsWith(r, WhereEmptyCondition)
    ensures r[|WhereEmptyCondition|..] == " AND " + where
  {
    WhereEmptyCondition + " AND " + where
  }

  /** `GOOGLE_SHEET_SELECT_STMT_STRING_KEYWORD.test(s)`: the regex is
      anchored at the start only, so it tests a prefix. */
  predicate IsKeyword(s: string) {
    StartsWith(s, "date") || StartsWith(s, "datetime") || StartsWith(s, "timeofday")
  }

  /** The `datetime` alternative adds nothing: it is subsumed by `date`. */
  lemma {:induction false} KeywordIsDateOrTimeofdayPrefix(s: string)
    ensures IsKeyword(s) <==> StartsWith(s, "date") || StartsWith(s, "timeofday")
  {
    if StartsWith(s, "datetime") {
      assert s[..4] == s[..8][..4];
    }
  }

  lemma {:induction false} KeywordExamples()
    ensures IsKeyword("date") && IsKeyword("datetime") && IsKeyword("timeofday")
    ensures IsKeyword("date '2020-01-01'") && IsKeyword("dates")
    ensures !IsKeyword("something") && !IsKeyword("") && !IsKeyword(" date")
  {
    assert "something"[0] != "date"[0] && "something"[0] != "timeofday"[0];
    assert " date"[0] != "date"[0] && " date"[0] != "timeofday"[0];
    KeywordIsDateOrTimeofdayPrefix("something");
    KeywordIsDateOrTimeofdayPrefix(" date");
  }
}
