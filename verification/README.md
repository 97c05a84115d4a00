# JSFreeDB row store and key-value store, in Dafny

This project models the part of JSFreeDB that turns database requests on a
Google spreadsheet into spreadsheet operations. JSFreeDB is a TypeScript
library that uses a spreadsheet as a database. The model covers:

- **Column letters and A1 addresses.** `generateColumnName`,
  `generateColumnMapping`, `getA1Range` and the `A1Range` parser.
- **The fixed ranges and conditions of the row store.** `store/models.ts`.
- **Value escaping and the safe-integer check.** `utils/values.ts`.
- **The `QueryBuilder`.** Column-name replacement, `?` placeholder binding,
  argument literals, and the clause layout of the generated query.
- **The row-store statements.** Select, Insert, Update, Delete and Count
  (`store/stmt.ts`), and the row store's own `create`, `select` and
  `ensureHeaders` (`store/row.ts`).
- **The key-value store and `BasicCodec`.** Its get, set, delete and create
  in the Default and AppendOnly modes (`store/kv.ts`, `codec/basic.ts`).
- **The pure parts of the Sheets wrapper.** Brace extraction from a
  query-endpoint response, the typed conversion of query cells, and the
  request shaping of `batchUpdateRows`.

Everything is a pure function over immutable datatypes:

- A JavaScript value is the sum type `Values.Value`.
- A JavaScript `Map` is an ordered sequence of pairs (`OrderedMap`). Its
  `set` replaces a key in place or appends it.
- An exception is the `Err` case of `Wrappers.Result`, with one `Error`
  case per distinct `throw` of the source.

A statement's `exec` is modelled as a function of three things: the
statement, the answer the transport gives to its row query, and the
answer of its write. It returns an `Exec`: the transport calls the
statement issues, in order, and its outcome. So "no call is made when…"
properties can be stated directly.

Above the statement layer, `KvSheet` is an abstract sheet for the
key-value store: a sequence of key/value rows whose position is the row
identity `_rid`. On it, the model proves that a read after a write gives
the written value, that a read after a delete finds nothing, and that
other keys are untouched, in both modes.

Where the code does something other than what it evidently intends (see
"## Findings"), the plain member models the code as written, and every
operation built on it does too: `Row.Create` validates with the 26-column
bound, and inserts convert rows with the field map as written. The
intended behaviour is a twin (`Row.CreateIntended`,
`Stmt.ConvertRowToArrayIntended`), and a lemma says where the two agree.

## Model

| member | source | states |
|---|---|---|
| Columns.ColumnName | src/google/utils/range.ts:72-87 | every column name is a non-empty word over the letters A–Z |
| Columns.GenerateColumnName | src/google/utils/range.ts:72-87 | the source's loop (first digit, then repeated decrement-and-divide) computes exactly the column name of its argument |
| Columns.ColumnNameIsBijectiveNumeral | src/google/utils/range.ts:73-86 | the name of n, read as a bijective base-26 numeral with A=1 … Z=26, has the value n+1 |
| Columns.ColumnIndexOfName | src/google/utils/range.ts:73-86 | decoding the name of n gives back n, so the name determines the index |
| Columns.ColumnNameInjective | src/google/utils/range.ts:73-86 | distinct indices get distinct names |
| Columns.ColumnNameOfIndex | src/google/utils/range.ts:77-84 | every non-empty word over A–Z is the name of exactly the index it decodes to, so names are onto |
| Columns.ColumnNameLength | src/google/utils/range.ts:77-84 | a name has one letter exactly when n < 26 and two letters exactly when 26 ≤ n < 702 |
| Columns.ColumnNameExamples | tests/google/utils/range.test.ts:18-73 | A, F, P, Z, AA, AB, AZ, BA, CL, ZZ, AAA and ZZZ for the indices the unit tests use |
| Columns.GenerateColumnMapping | src/google/utils/range.ts:46-56 | the keys are exactly the given columns with no key twice, a name given twice keeps its last index (Map construction), and every index lies inside the column list |
| Columns.GenerateColumnMappingDistinct | src/google/utils/range.ts:46-56 | with distinct names the mapping has one entry per column and its i-th entry is (column i, (name of i, i)), in definition order |
| Columns.GetColIdx | src/google/store/stmt.ts:165 | `getColIdx` is the entry the mapping holds for a mapped name |
| Columns.GetNameMap | src/google/utils/range.ts:30-35 | same keys in the same order, each sent to its letter and nothing else |
| Columns.GetA1Range | src/google/utils/range.ts:8-10 | the sheet name, one `!`, then the range, with no escaping |
| OrderedMap.Put | src/google/store/stmt.ts:139 | `Map.set`: the key now reads the new value, every other key reads as before, a known key keeps its position, a new key is appended, distinct keys stay distinct |
| OrderedMap.MapValuesKeepsKeys | src/google/utils/range.ts:30-35 | projecting the values of a map keeps its keys, in order, and every lookup position |
| SheetModels.ParseA1Range | src/google/sheets/models.ts:17-44 | `original` is always the input |
| SheetModels.ParseA1RangeCell | src/google/sheets/models.ts:23-27 | no `!` and no `:`: no sheet, and both cells are the whole input, the empty string included |
| SheetModels.ParseA1RangeUnqualified | src/google/sheets/models.ts:28-31 | no `!`: no sheet, and the input splits at its first `:` into the two cells |
| SheetModels.ParseA1RangeQualifiedCell | src/google/sheets/models.ts:34-37 | a `!` and no `:`: the sheet is the text before the first `!`, and both cells are the text after it |
| SheetModels.ParseA1RangeQualified | src/google/sheets/models.ts:38-41 | a `!` before the first `:`: sheet, first cell and second cell are the pieces around the first `!` and the first `:` |
| SheetModels.ParseA1RangeSwapped | src/google/sheets/models.ts:38-41 | a `:` before the first `!`: `substring` swaps its bounds, so the first cell is the text between the `:` and the `!` inclusive |
| SheetModels.QualifiedRangeRoundTrip | src/google/sheets/models.ts:20-41 | parsing `sheet!from:to` built by `getA1Range` gives back sheet, from and to when none of them contains `!` or `:` |
| SheetModels.QualifiedCellRoundTrip | src/google/sheets/models.ts:34-37 | parsing `sheet!cell` gives back the sheet and the cell twice |
| SheetModels.RangeRoundTrip | src/google/sheets/models.ts:28-31 | parsing `from:to` gives back from and to, with no sheet |
| SheetModels.ParseA1RangeExamples | tests/google/sheets/models.test.ts:5-61 | the addresses the unit tests use, including the empty string |
| StoreModels.LocalColumnName | src/google/store/models.ts:26-28 | the local helper gives the single character with code 65 + index |
| StoreModels.LocalColumnNameAgrees | src/google/store/models.ts:26-31 | for indices 0 to 25 the local helper agrees with the A1 column name, and `MAX_COLUMN - 1` gives `Z` |
| StoreModels.FixedRanges | src/google/store/models.ts:31-32 | the header range is `A1:Z1` and the data range is `A2:Z`; a qualified header range parses into its sheet and both corners |
| StoreModels.DeleteRange | src/google/store/models.ts:33 | the delete range of rows from..to is `A<from>:Z<to>` |
| StoreModels.DeleteRangeParses | src/google/store/models.ts:33 | a qualified delete range parses back into its sheet, `A<from>` and `Z<to>` |
| StoreModels.WhereNonEmptyCondition | src/google/store/models.ts:37 | the guarded condition is the guard `_rid is not null`, then ` AND `, then the condition |
| StoreModels.KeywordIsDateOrTimeofdayPrefix | src/google/store/models.ts:40 | the keyword pattern, anchored only at the start, matches exactly the texts starting with `date` or `timeofday`; `datetime` adds nothing |
| StoreModels.KeywordExamples | src/google/store/models.ts:40 | `dates` and `date '2020-01-01'` match; `something`, the empty text and ` date` do not |
| Values.EscapeValue | src/google/utils/values.ts:8-13 | a string gains exactly one leading apostrophe, and every other value is returned unchanged |
| Values.EscapedStringIsStoredVerbatim | src/google/utils/values.ts:8-11 | once the backend drops the leading apostrophe, an escaped string reads back as the original string |
| Values.CheckSafeInteger | src/google/utils/values.ts:31-39 | only numbers are checked, and a number passes exactly when it is an integer within ±(2^53 − 1) |
| Values.SafeIntegerExamples | tests/google/utils/values.test.ts:22-61 | 0, ±42 and ±(2^53 − 1) pass; 2^53, ±(2^53 + 1), 3.14 and −2.5 fail; non-numbers pass |
| Values.Trunc | src/google/store/stmt.ts:316 | `Math.trunc` rounds toward zero, from below for non-negative numbers and from above for negative ones |
| Values.NumberToString | src/google/store/query.ts:159 | `String(n)` is never empty |
| Values.NumberToStringOfInteger | src/google/store/query.ts:159 | an integer prints as its decimal numeral with an optional minus sign |
| Values.NumberToStringExamples | src/google/store/query.ts:217 | 1, 1.5, 3.14 and −2.5 print as in JavaScript |
| Strings.IndexOf | src/google/sheets/models.ts:20-21 | `indexOf` is −1 exactly when the character is absent; otherwise it is the first position holding it |
| Strings.LastIndexOf | src/google/sheets/wrapper.ts:301 | `lastIndexOf` is −1 when the character is absent; otherwise it is the last position holding it |
| Strings.Substring | src/google/sheets/models.ts:30-41 | `substring` is the slice between its bounds, with the bounds swapped when the first is larger |
| Strings.Split | src/google/store/query.ts:138 | `split` gives one more piece than there are separators, no piece contains the separator, and joining the pieces with it restores the text |
| Strings.TrimStart | src/google/store/query.ts:141 | trimming removes exactly the leading whitespace, and the result does not start with whitespace |
| Strings.TrimEnd | src/google/store/query.ts:141 | trimming removes exactly the trailing whitespace, and the result does not end with whitespace |
| Strings.AsciiLower | src/google/store/query.ts:180 | lower-casing works character by character and keeps the length |
| Strings.ReplaceAllAbsent | src/google/store/query.ts:242 | text that does not contain the pattern passes through a global replacement unchanged |
| Strings.ReplaceAllKeepsCount | src/google/store/query.ts:242 | replacing with a pattern and a replacement that both lack a character keeps the number of that character |
| Strings.NatToStringRoundTrip | src/google/store/stmt.ts:235 | the decimal text of a row number reads back as that number |
| Strings.NatToStringInjective | src/google/store/stmt.ts:235 | distinct row numbers have distinct decimal texts, so distinct rows get distinct cell addresses |
| Json.Quote | src/google/store/query.ts:186 | `JSON.stringify` of a string is enclosed in double quotes |
| Json.QuoteRoundTrip | src/google/store/query.ts:186 | the JSON string decoder reads the quoted text back as the original string |
| Json.EscapeBodyPlain | src/google/store/query.ts:186 | a text with no `"`, no `\` and no character below U+0020 is written unchanged between the two quotes |
| Json.QuoteInjective | src/google/store/query.ts:186 | distinct strings become distinct query literals |
| Query.OrderBy | src/google/store/query.ts:58-66 | one `column DIR` item per ordering, in order |
| Query.ReplaceColumnAbsent | src/google/store/query.ts:239-245 | text containing no mapped name is left as it is, so unmapped columns pass through |
| Query.ReplaceColumnKeepsPlaceholders | src/google/store/query.ts:239-245 | when names and letters contain no `?`, replacement keeps the number of placeholders |
| Query.ReplaceColumnIsTextual | src/google/store/query.ts:239-245 | replacement is textual: `col10` is rewritten through `col1`, and a letter produced for one name is rewritten again when it is a later name |
| Query.Utf8Decode | src/google/store/query.ts:177 | decoding keeps every ASCII byte as its character |
| Query.ConvertString | src/google/store/query.ts:175-187 | a text whose lower-cased, trimmed form starts with a date or time keyword is used verbatim; any other text is JSON-quoted, and the JSON decoder reads it back as the original |
| Query.ConvertArg | src/google/store/query.ts:157-167 | numbers, strings, bytes and booleans convert; null, undefined, arrays, objects and functions are rejected with the unsupported-argument error |
| Query.ConvertArgMeaning | src/google/store/query.ts:157-167 | integers become their numeral, booleans `true`/`false`, strings go through `convertString`, and decoded bytes are quoted so that decoding the literal gives the text back |
| Query.ConvertArgs | src/google/store/query.ts:143-146 | the list converts exactly when every argument is of a supported kind, one text per argument; otherwise it fails with the unsupported-argument error |
| Query.ConvertArgsValues | src/google/store/query.ts:143-146 | each converted text is its own argument's conversion, in the arguments' order |
| Query.InterleaveAlternates | src/google/store/query.ts:140-146 | the trimmed pieces occupy the even positions and the arguments the odd ones, with exactly one argument between consecutive pieces |
| Query.WhereText | src/google/store/query.ts:126-149 | it fails on an arity mismatch exactly when the intercepted text's `?` count differs from the argument count; otherwise the replaced text is split at `?` and the pieces are interleaved with the converted arguments, so argument literals are never rewritten |
| Query.Generate | src/google/store/query.ts:95-105 | generation fails exactly when the where clause fails, with the same error |
| Query.GenerateLayout | src/google/store/query.ts:95-105 | the query is `select <cols> where <cond>` followed by the order-by, offset and limit clauses, in that fixed order |
| Query.OffsetLimitTails | src/google/store/query.ts:212-231 | offset and limit appear exactly when non-zero, each as its keyword and its number |
| Query.WhereTokensComplete | src/google/store/query.ts:132-138 | after a successful arity check, the split gives exactly one more piece than there are arguments, so every placeholder is filled |
| Stmt.RidWhereClauseInterceptor | src/google/store/stmt.ts:33-38 | every condition is guarded by `_rid is not null`: an empty condition becomes the guard alone, any other becomes the guard, ` AND ` and the condition; no placeholder is added |
| Stmt.GuardOnEveryQuery | src/google/store/stmt.ts:51-55 | whatever condition a statement gets, the text bound is guarded, and the arity check compares the caller's own `?` count with its arguments |
| Stmt.NewSelect | src/google/store/stmt.ts:45-56 | no columns selects all configured columns; the query uses the store's name map and the guard |
| Stmt.BuildRecord | src/google/store/stmt.ts:110-118 | the record has exactly the selected columns other than `_rid`, each holding the cell at its own position, so skipping `_rid` shifts nothing |
| Stmt.BuildQueryResultMap | src/google/store/stmt.ts:107-120 | one record per result row, in order |
| Stmt.SelectExec | src/google/store/stmt.ts:93-102 | a query that cannot be generated fails before any call; otherwise there is exactly one `queryRows` call with the header skipped, a transport failure is passed on, and a successful answer yields exactly the records built from its rows: one per row, in order, each holding the selected columns other than `_rid` with the cell at that column's position |
| Stmt.EscapeCell | src/google/store/stmt.ts:356-364 | an ordinary column gets the common escape; a formula column accepts only strings, and keeps them verbatim |
| Stmt.EscapeCellSafety | src/google/store/stmt.ts:166-167 | escaping never changes whether a value passes the safe-integer check, and an escaped string reads back as itself |
| Stmt.FieldMap | src/google/store/stmt.ts:132-146 | the field map has no key twice |
| Stmt.FieldMapContents | src/google/store/stmt.ts:132-146 | the keys are exactly the record's non-function field names, and each holds the value of its first occurrence |
| Stmt.FieldMapAsWritten | src/google/store/stmt.ts:132-146 | the field map the program builds has no key twice |
| Stmt.FieldMapAsWrittenContents | src/google/store/stmt.ts:132-146 | the program's field map holds exactly the non-function field names that are not `Map` properties, each with the value of its last occurrence |
| Stmt.FieldMapAgreement | src/google/store/stmt.ts:137 | on a record with distinct field names, none of them a `Map` property, the program's field map is the intended one |
| Stmt.FieldMapAsWrittenDropsMapPropertyNames | src/google/store/stmt.ts:137 | with the source's `key in fieldMap` test, a field named `size` is dropped; the corrected field map keeps it |
| Stmt.SetSlot | src/google/store/stmt.ts:168 | assigning past the end of an array extends it with undefined slots; every other slot is unchanged |
| Stmt.ConvertRowToArray | src/google/store/stmt.ts:148-154 | null, byte-array and other non-record rows are rejected, each with its own error |
| Stmt.ConvertRowToArrayIntended | src/google/store/stmt.ts:148-172 | the conversion with the intended field map rejects every non-record row exactly as the program does |
| Stmt.ConvertRowToArrayAgreement | src/google/store/stmt.ts:135-171 | on a record with distinct field names, none of them a `Map` property, the program's conversion and the intended one give the same row |
| Stmt.FillRowOk | src/google/store/stmt.ts:160-169 | filling succeeds exactly when every mapped field is writable, i.e. escapes and passes the safe-integer check |
| Stmt.FillRowSlots | src/google/store/stmt.ts:160-169 | each mapped field lands, escaped, in its column's slot, and every slot that no field maps to is left as it was |
| Stmt.PlainStoreSlots | src/google/utils/range.ts:46-56 | on a store whose mapping was generated from distinct columns, column j sits in slot j and the slots are distinct and in range |
| Stmt.BlankRowOfStore | src/google/store/stmt.ts:157-158 | the row starts with one slot per column: `=ROW()` in slot 0 and undefined elsewhere |
| Stmt.ConvertRowToArrayOk | src/google/store/stmt.ts:148-172 | converting a record succeeds exactly when every configured column present in the program's field map escapes and passes the safe-integer check; unknown fields, and fields dropped as `Map` property names, are ignored |
| Stmt.ConvertRowToArraySlots | src/google/store/stmt.ts:156-171 | a converted row has one slot per column; a column present in the program's field map holds its escaped value, slot 0 holds `=ROW()` unless `_rid` is given, and any other column stays undefined, including one whose field is dropped as a `Map` property name |
| Stmt.ConvertRows | src/google/store/stmt.ts:179 | all rows convert with the program's conversion, in order, or the conversion fails as the first failing row does |
| Stmt.InsertExec | src/google/store/stmt.ts:174-185 | no rows means no call; a row that does not convert fails before any call; otherwise exactly one `overwriteRows` call to `sheet!A2:Z` carries the rows as the program converts them, in order |
| Stmt.RowIndices | src/google/store/stmt.ts:331-343 | the indices are read exactly when every row is one numeric cell, each truncated toward zero, in order; otherwise the first bad row decides the error |
| Stmt.GetRowIndices | src/google/store/stmt.ts:320-344 | a transport failure is passed on; otherwise the rows are read as indices |
| Stmt.NewUpdate | src/google/store/stmt.ts:191-201 | the update's query selects `_rid` through the store's name map and the guard |
| Stmt.ColumnRequests | src/google/store/stmt.ts:234-240 | one single-cell request per row index, in order, each carrying the escaped value |
| Stmt.CellRangeParses | src/google/store/stmt.ts:235-237 | a request's range parses back into the store's sheet and the single cell `<letter><row>` |
| Stmt.BatchUpdateRequests | src/google/store/stmt.ts:222-244 | the requests are built exactly when every column is known, escapes and passes the safe-integer check; otherwise the first bad column decides the error |
| Stmt.BatchUpdateRequestsLength | src/google/store/stmt.ts:225-241 | there is one request per (column, row) pair |
| Stmt.BatchUpdateRequestAt | src/google/store/stmt.ts:225-241 | the requests are column-major: the request for column c and row k sits at position c·rows + k |
| Stmt.UpdateExec | src/google/store/stmt.ts:208-220 | an empty update fails before any call; otherwise the index query comes first, no index means no write, and a batch update is issued exactly when rows match and every column is valid |
| Stmt.NewDelete | src/google/store/stmt.ts:250-256 | the delete's query selects `_rid` through the store's name map and the guard |
| Stmt.GenerateRowA1Ranges | src/google/store/stmt.ts:346-354 | one qualified `A<i>:Z<i>` range per index, in order |
| Stmt.RowRangesCoverTheirRows | src/google/store/stmt.ts:346-354 | each range parses back into the sheet, `A<i>` and `Z<i>`, so it spans exactly the whole row i |
| Stmt.DeleteExec | src/google/store/stmt.ts:263-276 | the index query comes first; a `clear` of the matched rows' ranges is issued exactly when some row matches, and no call follows otherwise |
| Stmt.NewCount | src/google/store/stmt.ts:282-289 | the count's query projects `COUNT(_rid)` through the store's name map and the guard |
| Stmt.CountProjectsRowIdLetter | src/google/store/stmt.ts:283-288 | on a store whose first column is `_rid`, the projected aggregate becomes `COUNT(A)` when no other column name occurs inside that text |
| Stmt.CountResult | src/google/store/stmt.ts:305-316 | no row, or an empty first row, counts 0; a single numeric cell gives its truncation; any other shape and a non-number are errors |
| Stmt.CountExec | src/google/store/stmt.ts:296-317 | exactly one `queryRows` call when the query generates; a transport failure is passed on, and otherwise the result is read as a count |
| StmtExamples.TestStoreFacts | tests/google/store/stmt.test.ts:120-150 | the unit tests' four-column store: its slots, and the escape of each of its columns |
| StmtExamples.ConvertRowToArrayFullRecord | tests/google/store/stmt.test.ts:171-180 | a full record converts to `=ROW()` and the escaped fields |
| StmtExamples.ConvertRowToArrayMissingField | tests/google/store/stmt.test.ts:200-209 | a missing field leaves its slot undefined |
| StmtExamples.RowIdFieldReplacesFormula | src/google/store/stmt.ts:158-168 | a record field named `_rid` overwrites the `=ROW()` formula in slot 0 |
| StmtExamples.CountResultExamples | tests/google/store/stmt.test.ts:528-562 | counts 0 and 5.7 give 0 and 5; two columns, two rows and a string are errors; no row gives 0, as the code does |
| StmtExamples.DeleteRangesExample | tests/google/store/stmt.test.ts:466-477 | rows 1 and 2 of `MySheet` are cleared as `MySheet!A1:Z1` and `MySheet!A2:Z2` |
| StmtExamples.UpdateRequestsExample | tests/google/store/stmt.test.ts:306-328 | updating `name`, `age` and `dob` to `name1`, 100 and `hello` on rows 1 and 2 yields exactly six requests, column by column: B1 and B2 hold `name1` verbatim (a formula column), C1 and C2 hold 100, D1 and D2 hold `'hello` |
| Row.ValidateAsWritten | src/google/store/row.ts:47-56 | the source's check accepts exactly 1 to 26 user columns and names its two errors |
| Row.Validate | src/google/store/row.ts:47-56 | the corrected check accepts exactly 1 to 25 user columns, leaving room for `_rid` within the 26 columns A–Z |
| Row.ValidateDiffersOnlyAtTheBound | src/google/store/row.ts:52-55 | the two checks disagree exactly on 26 user columns |
| Row.InjectRidCol | src/google/store/row.ts:212-220 | `_rid` is prepended to the columns and the formula columns are unchanged |
| Row.NewStore | src/google/store/row.ts:77-96 | the store maps exactly its configured columns, and its formula set is exactly the configured formula columns |
| Row.HeaderValues | src/google/store/row.ts:198 | the header row holds the column names, one cell per column, in order |
| Row.Create | src/google/store/row.ts:102-124 | a config that the program's check (1 to 26 user columns) rejects fails before any call; otherwise the calls are create-sheet, clear `sheet!A1:Z1`, write the header, each only if the previous one succeeded, and success yields the store over the injected config |
| Row.CreateIntended | src/google/store/row.ts:102-124 | with the corrected check (1 to 25 user columns) a rejected config fails before any call, and an accepted one makes exactly the calls and outcome of `create`; success yields the store over the injected config |
| Row.InjectedColumnsDistinct | src/google/store/row.ts:215 | distinct user columns other than `_rid` stay distinct after injection |
| Row.CreatedStoreMapping | src/google/store/row.ts:108-119 | the created store maps `_rid` to (A, 0) and user column i to (name of i+1, i+1), with one entry per column |
| Row.CreatedStoreFitsTheRanges | src/google/store/row.ts:108-109 | every column of a store created with the corrected check has a one-letter name inside A–Z |
| Row.ValidateAsWrittenEscapesTheRanges | src/google/store/row.ts:108-109 | with 26 user columns the program's check passes and `create` succeeds, the corrected one fails, and the last column is mapped to `AA`, outside the fixed `A..Z` ranges |
| Row.HeaderMatchesMapping | src/google/store/row.ts:192-204 | the header cell at each column's slot holds that column's name |
| Row.SelectAllReturnsUserColumns | src/google/store/row.ts:136-140 | `select()` with no columns queries every column, and its records hold exactly the user columns |
| Codec.Encode | src/google/codec/basic.ts:15-17 | encoding adds exactly one character, the `!` prefix |
| Codec.Decode | src/google/codec/basic.ts:25-33 | the empty string and text without the prefix are errors; otherwise the result is the text after the one leading `!` |
| Codec.DecodeEncode | src/google/codec/basic.ts:15-33 | decoding undoes encoding for every string, the empty one included |
| Codec.EncodeDecode | src/google/codec/basic.ts:15-33 | encoding undoes decoding on every decodable string |
| Codec.EncodeInjective | src/google/codec/basic.ts:15-17 | distinct payloads are stored as distinct strings |
| Codec.EncodedIsNeverEmpty | src/google/codec/basic.ts:15-17 | a stored payload is never the empty tombstone |
| Codec.CodecExamples | tests/google/codec/basic.test.ts:3-63 | the unit tests' encodings and decodings, `!!!` decoding to `!!` |
| Kv.KvConfig | src/google/store/kv.ts:82 | the key-value store's row store has the columns key and value, and no formula column |
| Kv.Create | src/google/store/kv.ts:76-85 | `create` issues the row store's creation calls, succeeds exactly when they all do, and keeps the requested mode over the columns `_rid`, key, value |
| Kv.CreateMakesKvRowStore | src/google/store/kv.ts:82-83 | a created key-value store stands on a plain three-column row store |
| Kv.GetStmt | src/google/store/kv.ts:30-41 | `get` selects `value` where `key = ?` bound to the key, limit 1; AppendOnly mode also orders by `_rid` descending |
| Kv.Field | src/google/store/kv.ts:47 | reading a record field gives its value, or undefined when the field is absent |
| Kv.GetResult | src/google/store/kv.ts:43-51 | no row, or a value of `''`, null or undefined, is KeyNotFound; any other value decodes, and success means the stored text is the encoding of the result |
| Kv.GetExec | src/google/store/kv.ts:28-52 | `get` issues exactly the select's calls, passes a select failure on, and otherwise reads the first record |
| Kv.GetKeyArgument | src/google/store/query.ts:175-187 | the key `get` looks up reaches the query as a JSON literal that JSON-decodes back to the key, unless its trimmed lower-case form starts with `date` or `timeofday`, when it is spliced in verbatim; a key needing no JSON escape appears as exactly `"key"` |
| Kv.GetDecodesStoredValue | src/google/store/kv.ts:47-51 | when the select answers with the encoding of a payload, `get` returns that payload, in either mode |
| Kv.SetExec | src/google/store/kv.ts:54-63 | AppendOnly only inserts the encoded row; Default first deletes the key's rows, stops if that fails, and then inserts |
| Kv.DeleteKeyExec | src/google/store/kv.ts:65-74 | Default deletes the key's rows; AppendOnly inserts the tombstone row with an empty value |
| Kv.KvFieldMap | src/google/store/kv.ts:62 | the field map of a `{key, value}` row holds exactly the key and the value, and no `_rid` |
| Kv.KvRowStoreIsPlain | src/google/store/kv.ts:82-83 | the key-value row store is plain, with columns `_rid`, key, value |
| Kv.KeyValueFieldsConvertible | src/google/store/stmt.ts:148-172 | a row holding two string fields, key and value, always converts |
| Kv.KeyValueFieldsConversion | src/google/store/stmt.ts:148-172 | such a row converts to `=ROW()`, the escaped key and the escaped value |
| Kv.KvRowConversion | src/google/store/kv.ts:62 | a key-value row converts to `=ROW()`, `'key` and `'stored` |
| Kv.InsertKvRow | src/google/store/kv.ts:62 | inserting a key-value row issues one `overwriteRows` call with exactly that converted row |
| Kv.SetWritesEncodedRow | src/google/store/kv.ts:54-63 | the row `set` writes is `=ROW()`, `'key` and `'!value`; in Default mode it follows the delete's calls |
| Kv.DeleteWritesTombstone | src/google/store/kv.ts:70-73 | AppendOnly `delete` writes `=ROW()`, `'key` and `'` |
| KvSheet.FirstValue | src/google/store/kv.ts:30-34 | a key has a first value exactly when a row holds it, and that value is the earliest such row's |
| KvSheet.LastValue | src/google/store/kv.ts:36-41 | a key has a last value exactly when a row holds it, and that value is the latest such row's |
| KvSheet.SelectedRows | src/google/store/kv.ts:30-41 | the select answers with no row when the key is absent, and otherwise with the one value cell of the chosen row |
| KvSheet.ReadOneRow | src/google/store/kv.ts:43-51 | a one-cell answer reads as KeyNotFound when empty and as its decoding otherwise |
| KvSheet.SheetGetCases | src/google/store/kv.ts:28-52 | on the abstract sheet, `get` is KeyNotFound for an absent key or an empty value, and otherwise decodes the chosen row's value |
| KvSheet.RemoveKey | src/google/store/kv.ts:58-60 | the Default delete keeps exactly the rows of other keys |
| KvSheet.SheetSet | src/google/store/kv.ts:54-63 | AppendOnly `set` appends one row and keeps every earlier row |
| KvSheet.SheetDelete | src/google/store/kv.ts:65-74 | AppendOnly `delete` appends one tombstone row and keeps every earlier row |
| KvSheet.FirstValueAppend | src/google/store/kv.ts:30-34 | appending a row changes a key's first value only when the key was absent and the row holds it |
| KvSheet.LastValueAppend | src/google/store/kv.ts:36-41 | after appending a row for a key, that row is the key's latest value; other keys keep theirs |
| KvSheet.FirstValueRemoveKey | src/google/store/kv.ts:58-60 | removing one key's rows leaves the first value of every other key unchanged |
| KvSheet.GetAfterSet | tests/google/store/kv.integration.test.ts:29-96 | in both modes, `get` after `set(k, v)` returns v: overwriting in Default, last write wins in AppendOnly |
| KvSheet.GetAfterDelete | tests/google/store/kv.integration.test.ts:29-96 | in both modes, `get` after `delete(k)` is KeyNotFound |
| KvSheet.SetLeavesOtherKeys | src/google/store/kv.ts:54-63 | `set(k, v)` does not change what `get` returns for any other key |
| KvSheet.DeleteLeavesOtherKeys | src/google/store/kv.ts:65-74 | `delete(k)` does not change what `get` returns for any other key |
| KvSheet.RemoveKeyKeepsOneRowPerKey | src/google/store/kv.ts:57-62 | removing a key's rows keeps a sheet with at most one row per key |
| KvSheet.DefaultKeepsOneRowPerKey | src/google/store/kv.ts:57-62 | Default `set` and `delete` keep at most one row per key, and after `set` the key's row is the last one |
| KvSheet.OneRowFirstIsLast | src/google/store/kv.ts:30-41 | with at most one row per key, the first and the latest value coincide, so Default mode needs no ordering |
| Wrapper.ExtractJson | src/google/sheets/wrapper.ts:296-306 | extraction succeeds exactly when the response holds both `{` and `}`; a missing `{` is reported first |
| Wrapper.ExtractJsonWraps | src/google/sheets/wrapper.ts:296-306 | when the last `}` follows the first `{`, the result runs from the first `{` through the last `}`, and the text around it holds no further brace of the matching kind |
| Wrapper.ExtractJsonOrdered | src/google/sheets/wrapper.ts:306 | the extracted part is the slice from the first `{` through the last `}` |
| Wrapper.TailAfterLast | src/google/sheets/wrapper.ts:301 | after the last occurrence of a character, the text does not contain it |
| Wrapper.ExtractJsonSwapped | src/google/sheets/wrapper.ts:306 | when the last `}` precedes the first `{`, `substring` swaps its bounds and the result holds no `{` |
| Wrapper.QueryResponseJson | src/google/sheets/wrapper.ts:288-306 | a status other than 200 is a transport error; a 200 response is extracted |
| Wrapper.ConvertRawValue | src/google/sheets/wrapper.ts:338-355 | a missing cell is null; boolean, number and string columns give `v`; date, datetime and timeofday columns give `f`; any other type is an error naming it |
| Wrapper.CellTypesDisjoint | src/google/sheets/wrapper.ts:343-351 | no column type is both a value type and a formatted type |
| Wrapper.ConvertCellAt | src/google/sheets/wrapper.ts:327-328 | cell i is typed by column i; a cell with no column metadata is an error |
| Wrapper.ConvertRawRow | src/google/sheets/wrapper.ts:327-329 | all cells convert, in order, or the row fails as its first failing cell does |
| Wrapper.ConvertRawRows | src/google/sheets/wrapper.ts:326-330 | all rows convert, in number and order, or the result fails as the first failing row does |
| Wrapper.ToQueryRowsResult | src/google/sheets/wrapper.ts:317-333 | a missing table or missing rows gives no rows; otherwise the rows are converted |
| Wrapper.WellTypedResultConverts | src/google/sheets/wrapper.ts:317-333 | when every column type is supported, conversion succeeds and each cell is null, its `v` or its `f` according to its column's type |
| Wrapper.UnsupportedTypeFailsOnlyPresentCells | src/google/sheets/wrapper.ts:338-353 | under an unsupported column type a present cell fails the row, while a missing cell is still null |
| Wrapper.BatchUpdateData | src/google/sheets/wrapper.ts:223-227 | one value range per request, each with major dimension `ROWS` |
| Wrapper.BatchUpdateDataRoundTrip | src/google/sheets/wrapper.ts:223-227 | each value range carries its request's range and values, in order |

## Left out

- Network and SDK I/O are not modelled: the googleapis calls, the HTTP GET of the query endpoint and authentication. A transport call appears only as a `Stmt.Call` value, and its answer is a parameter of each `exec`. Promises and scheduling are left out, since the engine runs each statement sequentially.
- `JSON.parse` of the extracted response is not modelled. `Wrapper.QueryResponseJson` ends at the extracted text, and the conversion starts from the already-parsed `RawResult`.
- The `Wrapper` methods that only call the service are not modelled: `createSpreadsheet`, `getSheetNameToID`, `createSheet`, `deleteSheets`, `insertRows`, `overwriteRows`, `updateRows` and `clear`. Their result shaping (`A1Range` of the updated range, default counts) is also left out.
- Query.Utf8Decode: models only ASCII bytes exactly. A byte at or above 0x80 becomes U+FFFD, one character per byte, instead of full UTF-8 decoding.
- `JSON.stringify` of a string follows the string escapes of section 7 of RFC 8259: the short escapes, `\u00XX` for other control characters, and everything else verbatim. Lone surrogates are not given special treatment.
- Query.ReplaceColumn: models `new RegExp(col, 'g')` as plain global substring replacement. This assumes column names hold no regular-expression metacharacters and letters hold no `$` patterns.
- Values.NumberToString: prints integers exactly and other numbers as their terminating decimal expansion, up to 20 fraction digits. It does not model exponent notation or binary floating-point rounding. Numbers are exact reals.
- Values.NumberToStringOfInteger: holds for every integer of the model. JavaScript prints only integers of magnitude below 10^21 this way; larger ones come out in exponent form (`1e+21`), which is not modelled.
- Strings.AsciiLower: lower-cases only A–Z. Lowering other characters cannot create or destroy the ASCII prefixes `date` and `timeofday` that the keyword test looks for.
- Stmt.FieldMapAsWritten and Stmt.FieldMap: a row object is the list of (name, value) fields the prototype walk meets, level by level. The order `getOwnPropertyNames` gives and the property lookup itself are not modelled. A function-valued field is dropped, as in the source.
- Stmt.ConvertRowToArray: a `Uint8Array` row is not an array, so it passes the type check at stmt.ts:152. It then fails while `convertObjectToFieldMap` reads the `%TypedArray%.prototype` getters with a non-typed-array receiver (stmt.ts:135-137). The model gives that failure as `RowReflection` and does not model the walk that reaches it. Any other non-record row stands for the `row type must be an object` error.
- Stmt.ConvertRowToArrayIntended: the insert path, including `Kv.SetExec` and `Kv.DeleteKeyExec`, uses the program's conversion. The intended conversion is a separate definition, related to it by `Stmt.ConvertRowToArrayAgreement`. Agreement is proved only for records whose field names are distinct and not `Map` property names.
- Stmt.ConvertRowToArrayOk and Stmt.ConvertRowToArraySlots: stated for a plain store, meaning one whose mapping was generated from distinct columns. Every store created from distinct user columns other than `_rid` is plain (Row.WellNamed). `validate` checks only the column count, so `create` also accepts a repeated user column or one named `_rid`. On such a store a repeated name maps to the slot of its last occurrence (Columns.GenerateColumnMapping), so the slot of an earlier occurrence is never written. These lemmas say nothing about such stores, nor about a hand-built mapping with clashing slots.
- Stmt.UpdateStmt: `colToValue` is a sequence standing for `Object.entries` of the caller's record, in enumeration order. The sequence may repeat a name, which a JavaScript record cannot.
- Kv.SetExec: takes the payload as a string. The source's `set(key, value: any)` would also encode a non-string through JavaScript's `+` coercion, and that is not modelled.
- KvSheet.GetAfterSet: the abstract sheet matches a row to a key by string equality. That is the meaning of `key = ?` only when the key travels verbatim between quotes (`Kv.GetKeyArgument`, `Json.EscapeBodyPlain`). The backend reads a string literal as the text between its quotes, with no escapes. So a key holding `"`, `\` or a character below U+0020 reaches it altered by the escapes of `JSON.stringify` (query.ts:186), or cut short at an inner quote. A key whose trimmed lower-case form starts with `date` or `timeofday` is spliced in unquoted (query.ts:181-183). The backend's comparison for these keys is not modelled, and the lemma is not promised for them.
- KvSheet.GetAfterDelete: holds on the abstract sheet's string-equality matching. It is not promised for a key holding `"`, `\` or a character below U+0020, nor for one sent unquoted because it starts with `date` or `timeofday` (query.ts:181-186).
- KvSheet.SetLeavesOtherKeys: holds on the abstract sheet's string-equality matching. It is not promised when either key holds `"`, `\` or a character below U+0020, or is sent unquoted as a date or time keyword (query.ts:181-186).
- KvSheet.DeleteLeavesOtherKeys: holds on the abstract sheet's string-equality matching. It is not promised when either key holds `"`, `\` or a character below U+0020, or is sent unquoted as a date or time keyword (query.ts:181-186).
- KvSheet.SheetSet and KvSheet.SheetDelete: the abstract sheet removes the rows a Default-mode delete clears, rather than leaving blank rows. Blank rows are never matched, because of the `_rid is not null` guard. The backend's evaluation of `=ROW()` and its dropping of the leading apostrophe are taken as given: a stored `'text` reads back as `text`.
- Error messages are not modelled, only which error is raised. In particular, the safe-integer message names the bound 2^53 while the check uses 2^53 − 1.
- The unused key-value formula templates, the scratchpad constants and the `SheetsWrapper` interface of `store/models.ts` are not modelled. The builder setters `where`, `limit` and `offset`, and the statements' chaining `where`, are plain record updates with no contract.
- The tests call `convertRowToSlice`, while the source's method is `convertRowToArray`. The model follows the source name.
- For Count, the code returns 0 on an empty result while the unit test expects an error. The model follows the code.

## Findings

| source | as written | input that shows it | evidently intended | confidence | as-written member | corrected member |
|---|---|---|---|---|---|---|
| src/google/store/row.ts:52-55 | the limit of 26 columns is checked before `_rid` is added (row.ts:108-109), so 26 user columns pass and the store has 27 columns | a config of 26 distinct user columns: the last one is mapped to column `AA`, outside the header, data and delete ranges `A..Z` | at most 25 user columns, so that every column, `_rid` included, fits in A–Z | not executed | Row.ValidateAsWrittenEscapesTheRanges | Row.CreatedStoreFitsTheRanges |
| src/google/store/stmt.ts:137 | `!(key in fieldMap)` tests the properties of the `Map` object, not its entries | a row `{size: 3}`: `size` is a property of every `Map`, so the field is dropped and never written | `!fieldMap.has(key)`, keeping the first occurrence of each field | not executed | Stmt.FieldMapAsWrittenDropsMapPropertyNames | Stmt.FieldMapContents |
