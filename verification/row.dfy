/** The row store's configuration and creation (src/google/store/row.ts):
    validation, the injected row-identity column, the column mapping and
    formula set of a new store, and the header write. */
module Row {
  import opened Wrappers
  import opened Values
  import opened OrderedMap
  import opened Columns
  import opened StoreModels
  import opened Stmt

  /** `GoogleSheetRowStoreConfig`: the user's columns, in sheet order, and
      the columns that hold formulas. */
  datatype Config = Config(columns: seq<string>, columnsWithFormula: seq<string>)

  /** The bound `validate` uses: 26 columns. */
  const ValidateLimit: nat := 26

  /** `validate()` as JSFreeDB writes it: no columns, or more than 26,
      is an error. The bound counts the user's columns only, although
      `create` adds `_rid` afterwards. */
  function ValidateAsWritten(c: Config): (r: Result<()>)
    ensures r.Ok? <==> 0 < |c.columns| <= MaxColumn
    ensures |c.columns| == 0 ==> r == Err(NoColumns)
    ensures |c.columns| > MaxColumn ==> r == Err(TooManyColumns(MaxColumn))
  {
    if |c.columns| == 0 then Err(NoColumns)
    else if |c.columns| > ValidateLimit then Err(TooManyColumns(ValidateLimit))
    else Ok(())
  }

  /** `validate()` with the bound the fixed `A..Z` ranges need: one column
      of the 26 is taken by `_rid`, so at most 25 are left to the user. */
  function Validate(c: Config): (r: Result<()>)
    ensures r.Ok? <==> 0 < |c.columns| < MaxColumn
    ensures |c.columns| == 0 ==> r == Err(NoColumns)
    ensures |c.columns| >= MaxColumn ==> r == Err(TooManyColumns(MaxColumn - 1))
  {
    if |c.columns| == 0 then Err(NoColumns)
    else if |c.columns| > MaxColumn - 1 then Err(TooManyColumns(MaxColumn - 1))
    else Ok(())
  }

  /** The corrected validation rejects exactly one configuration length
      more than JSFreeDB's: 26 columns. */
  lemma {:induction false} ValidateDiffersOnlyAtTheBound(c: Config)
    ensures Validate(c).Ok? != ValidateAsWritten(c).Ok? <==> |c.columns| == MaxColumn
  {
  }

  /** `injectTimestampCol(config)`: `_rid` in front of the user's columns;
      the formula columns are kept. */
  function InjectRidCol(c: Config): (r: Config)
    ensures |r.columns| == |c.columns| + 1
    ensures r.columns[0] == RowIdxCol && r.columns[1..] == c.columns
    ensures r.columnsWithFormula == c.columnsWithFormula
  {
    Config([RowIdxCol] + c.columns, c.columnsWithFormula)
  }

  /** The private constructor: the mapping is generated from the
      (injected) columns and the formula columns become a set. */
  function NewStore(spreadsheetId: string, sheetName: string, c: Config): (s: RowStore)
    ensures s.columns == c.columns
    ensures forall k :: HasCol(s.mapping, k) <==> k in c.columns
    ensures forall k :: k in s.formulaCols <==> k in c.columnsWithFormula
  {
    RowStore(spreadsheetId, sheetName, c.columns, GenerateColumnMapping(c.columns),
      set k | k in c.columnsWithFormula)
  }

  /** The range `ensureHeaders` clears and writes: row 1 of the sheet. */
  function HeaderA1Range(sheetName: string): string
  {
    GetA1Range(sheetName, HeaderRange())
  }

  /** The header row: one cell per column, holding the column's name. */
  function HeaderValues(columns: seq<string>): (r: seq<Value>)
    ensures |r| == |columns|
    ensures forall j :: 0 <= j < |columns| ==> r[j] == Str(columns[j])
  {
    seq(|columns|, j requires 0 <= j < |columns| => Str(columns[j]))
  }

  /** `create(...)`: validate (with the bound as written), inject `_rid`,
      create the sheet, then `ensureHeaders` clears the header row and
      writes the column names. `created`, `cleared` and `headerWritten` are
      the transport's answers to those three calls; the first failure ends
      the sequence. */
  function Create(spreadsheetId: string, sheetName: string, c: Config,
                  created: Result<()>, cleared: Result<()>, headerWritten: Result<()>): (e: Exec<RowStore>)
    ensures ValidateAsWritten(c).Err? ==> e == Exec([], Err(ValidateAsWritten(c).error))
    ensures ValidateAsWritten(c).Ok? ==> |e.calls| > 0 && e.calls[0] == CreateSheet(spreadsheetId, sheetName)
    ensures e.outcome.Ok? <==> ValidateAsWritten(c).Ok? && created.Ok? && cleared.Ok? && headerWritten.Ok?
    ensures e.outcome.Ok? ==> e.calls == [
      CreateSheet(spreadsheetId, sheetName),
      Clear(spreadsheetId, [HeaderA1Range(sheetName)]),
      UpdateRows(spreadsheetId, HeaderA1Range(sheetName), [HeaderValues(InjectRidCol(c).columns)])]
    ensures e.outcome.Ok? ==> e.outcome.value == NewStore(spreadsheetId, sheetName, InjectRidCol(c))
    ensures ValidateAsWritten(c).Ok? ==> e.calls == [
      CreateSheet(spreadsheetId, sheetName),
      Clear(spreadsheetId, [HeaderA1Range(sheetName)]),
      UpdateRows(spreadsheetId, HeaderA1Range(sheetName), [HeaderValues(InjectRidCol(c).columns)])
      ][..if created.Err? then 1 else if cleared.Err? then 2 else 3]
    ensures e.outcome.Err? && ValidateAsWritten(c).Ok? ==>
      e.outcome.error == (if created.Err? then created.error else if cleared.Err? then cleared.error else headerWritten.error)
  {
    match ValidateAsWritten(c)
    case Err(err) => Exec([], Err(err))
    case Ok(_) =>
      var injected := InjectRidCol(c);
      var header := HeaderA1Range(sheetName);
      var create := CreateSheet(spreadsheetId, sheetName);
      var clear := Clear(spreadsheetId, [header]);
      var write := UpdateRows(spreadsheetId, header, [HeaderValues(injected.columns)]);
      if created.Err? then Exec([create], Err(created.error))
      else if cleared.Err? then Exec([create, clear], Err(cleared.error))
      else if headerWritten.Err? then Exec([create, clear, write], Err(headerWritten.error))
      else Exec([create, clear, write], Ok(NewStore(spreadsheetId, sheetName, injected)))
  }

  /** `create(...)` with the corrected validation: a config the corrected
      bound rejects fails before any call, and every other config goes
      through the same calls and answers as `create`. */
  function CreateIntended(spreadsheetId: string, sheetName: string, c: Config,
                          created: Result<()>, cleared: Result<()>, headerWritten: Result<()>): (e: Exec<RowStore>)
    ensures Validate(c).Err? ==> e == Exec([], Err(Validate(c).error))
    ensures Validate(c).Ok? ==> e == Create(spreadsheetId, sheetName, c, created, cleared, headerWritten)
    ensures e.outcome.Ok? <==> Validate(c).Ok? && created.Ok? && cleared.Ok? && headerWritten.Ok?
    ensures e.outcome.Ok? ==> e.outcome.value == NewStore(spreadsheetId, sheetName, InjectRidCol(c))
  {
    match Validate(c)
    case Err(err) => Exec([], Err(err))
    case Ok(_) => Create(spreadsheetId, sheetName, c, created, cleared, headerWritten)
  }

  /** The user's column names are distinct and none of them is `_rid`. */
  predicate WellNamed(c: Config) {
    (forall i, j :: 0 <= i < j < |c.columns| ==> c.columns[i] != c.columns[j])
    && RowIdxCol !in c.columns
  }

  /** The injected column list of a well-named config has distinct names. */
  lemma {:induction false} InjectedColumnsDistinct(c: Config)
    requires WellNamed(c)
    ensures forall i, j :: 0 <= i < j < |InjectRidCol(c).columns| ==>
      InjectRidCol(c).columns[i] != InjectRidCol(c).columns[j]
  {
    var cols := InjectRidCol(c).columns;
    forall i, j | 0 <= i < j < |cols| ensures cols[i] != cols[j] {
      assert cols[j] == c.columns[j - 1];
      if i > 0 {
        assert cols[i] == c.columns[i - 1];
      } else {
        assert c.columns[j - 1] in c.columns;
      }
    }
  }

  /** Validating before injecting fixes the mapping of a new store: `_rid`
      is column `A` at index 0 and the i-th user column sits one place to
      the right of its position in the config. */
  lemma {:induction false} CreatedStoreMapping(spreadsheetId: string, sheetName: string, c: Config)
    requires WellNamed(c)
    ensures HasCol(NewStore(spreadsheetId, sheetName, InjectRidCol(c)).mapping, RowIdxCol)
    ensures GetColIdx(NewStore(spreadsheetId, sheetName, InjectRidCol(c)).mapping, RowIdxCol) == ColIdx("A", 0)
    ensures forall i :: 0 <= i < |c.columns| ==>
      HasCol(NewStore(spreadsheetId, sheetName, InjectRidCol(c)).mapping, c.columns[i]) &&
      GetColIdx(NewStore(spreadsheetId, sheetName, InjectRidCol(c)).mapping, c.columns[i]) == ColIdx(ColumnName(i + 1), i + 1)
    ensures |NewStore(spreadsheetId, sheetName, InjectRidCol(c)).mapping| == |c.columns| + 1
  {
    var cols := InjectRidCol(c).columns;
    InjectedColumnsDistinct(c);
    GenerateColumnMappingDistinct(cols);
    var m := GenerateColumnMapping(cols);
    assert m[0] == (RowIdxCol, ColIdx(ColumnName(0), 0));
    assert Keys(m)[0] == RowIdxCol;
    assert ColumnName(0) == "A";
    forall i | 0 <= i < |c.columns|
      ensures HasCol(m, c.columns[i]) && GetColIdx(m, c.columns[i]) == ColIdx(ColumnName(i + 1), i + 1)
    {
      assert cols[i + 1] == c.columns[i];
      assert IsLastIndex(cols, c.columns[i], i + 1);
    }
  }

  /** With the corrected validation every column of a created store,
      `_rid` included, has a one-letter name inside the fixed `A..Z`
      ranges. */
  lemma {:induction false} CreatedStoreFitsTheRanges(spreadsheetId: string, sheetName: string, c: Config,
                                  created: Result<()>, cleared: Result<()>, headerWritten: Result<()>)
    requires WellNamed(c)
    requires CreateIntended(spreadsheetId, sheetName, c, created, cleared, headerWritten).outcome.Ok?
    ensures forall k :: HasCol(CreateIntended(spreadsheetId, sheetName, c, created, cleared, headerWritten).outcome.value.mapping, k) ==>
      GetColIdx(CreateIntended(spreadsheetId, sheetName, c, created, cleared, headerWritten).outcome.value.mapping, k).idx < MaxColumn &&
      |GetColIdx(CreateIntended(spreadsheetId, sheetName, c, created, cleared, headerWritten).outcome.value.mapping, k).name| == 1
  {
    var store := NewStore(spreadsheetId, sheetName, InjectRidCol(c));
    CreatedStoreMapping(spreadsheetId, sheetName, c);
    forall k | HasCol(store.mapping, k)
      ensures GetColIdx(store.mapping, k).idx < MaxColumn && |GetColIdx(store.mapping, k).name| == 1
    {
      if k != RowIdxCol {
        assert k in InjectRidCol(c).columns;
        var i :| 0 <= i < |InjectRidCol(c).columns| && InjectRidCol(c).columns[i] == k;
        assert c.columns[i - 1] == k;
        ColumnNameLength(i);
      }
    }
  }

  /** JSFreeDB's bound lets a 26-column config through; after `_rid`
      is injected, the last user column is named `AA`, outside the `A..Z`
      ranges that inserts, deletes and the header use. */
  lemma {:induction false} ValidateAsWrittenEscapesTheRanges(spreadsheetId: string, sheetName: string, c: Config)
    requires WellNamed(c) && |c.columns| == MaxColumn
    ensures ValidateAsWritten(c).Ok? && Validate(c).Err?
    ensures Create(spreadsheetId, sheetName, c, Ok(()), Ok(()), Ok(())).outcome ==
      Ok(NewStore(spreadsheetId, sheetName, InjectRidCol(c)))
    ensures CreateIntended(spreadsheetId, sheetName, c, Ok(()), Ok(()), Ok(())).outcome.Err?
    ensures GetColIdx(NewStore(spreadsheetId, sheetName, InjectRidCol(c)).mapping, c.columns[MaxColumn - 1]) == ColIdx("AA", MaxColumn)
    ensures |ColumnName(MaxColumn)| == 2 && ColumnIndex(ColumnName(MaxColumn)) >= MaxColumn
  {
    CreatedStoreMapping(spreadsheetId, sheetName, c);
    ColumnNameLength(MaxColumn);
    ColumnIndexOfName(MaxColumn);
    assert ColumnName(MaxColumn) == ColumnName(0) + [Letter(0)];
  }

  /** The header row names every column at the index the mapping gives
      it, so a column's header cell and its data cells line up. */
  lemma {:induction false} HeaderMatchesMapping(c: Config)
    requires WellNamed(c)
    ensures forall k :: HasCol(GenerateColumnMapping(InjectRidCol(c).columns), k) ==>
      GetColIdx(GenerateColumnMapping(InjectRidCol(c).columns), k).idx < |HeaderValues(InjectRidCol(c).columns)| &&
      HeaderValues(InjectRidCol(c).columns)[GetColIdx(GenerateColumnMapping(InjectRidCol(c).columns), k).idx] == Str(k)
  {
    var cols := InjectRidCol(c).columns;
    InjectedColumnsDistinct(c);
    GenerateColumnMappingDistinct(cols);
    var m := GenerateColumnMapping(cols);
    forall k | HasCol(m, k)
      ensures GetColIdx(m, k).idx < |HeaderValues(cols)| && HeaderValues(cols)[GetColIdx(m, k).idx] == Str(k)
    {
      var i :| 0 <= i < |cols| && cols[i] == k;
      assert IsLastIndex(cols, k, i);
    }
  }

  /** `select()` with no columns on a created store queries every column
      and returns records holding exactly the user's columns. */
  lemma {:induction false} SelectAllReturnsUserColumns(spreadsheetId: string, sheetName: string, c: Config, answer: Result<seq<seq<Value>>>)
    requires RowIdxCol !in c.columns
    ensures NewSelect(NewStore(spreadsheetId, sheetName, InjectRidCol(c)), []).columns == InjectRidCol(c).columns
    ensures SelectExec(NewSelect(NewStore(spreadsheetId, sheetName, InjectRidCol(c)), []), answer).outcome.Ok? ==>
      forall i, k :: 0 <= i < |SelectExec(NewSelect(NewStore(spreadsheetId, sheetName, InjectRidCol(c)), []), answer).outcome.value| ==>
        (Has(SelectExec(NewSelect(NewStore(spreadsheetId, sheetName, InjectRidCol(c)), []), answer).outcome.value[i], k) <==> k in c.columns)
  {
    var cols := InjectRidCol(c).columns;
    assert forall k :: k in cols && k != RowIdxCol <==> k in c.columns by {
      assert cols == [RowIdxCol] + c.columns;
    }
  }
}
