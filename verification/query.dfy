/** The query builder of src/google/store/query.ts: column-name
    substitution, `?` placeholder binding and the fixed clause order of a
    Google Visualization API query. */
module Query {
  import opened Wrappers
  import opened Strings
  import opened Values
  import opened Json
  import opened StoreModels

  /** `OrderBy` (src/google/utils/row.ts) */
  datatype OrderDir = Asc | Desc

  function OrderDirText(d: OrderDir): string
  {
    match d
    case Asc => "ASC"
    case Desc => "DESC"
  }

  /** `ColumnOrderBy` (src/google/utils/row.ts) */
  datatype ColumnOrderBy = ColumnOrderBy(column: string, orderBy: OrderDir)

  /** The builder's state: the replacer map (logical name to column
      letter, in map order), the selected columns, the where text and its
      arguments, the optional where interceptor, the rendered order-by
      items, and limit and offset (0 meaning absent). */
  datatype QueryBuilder = QueryBuilder(
    replacer: seq<(string, string)>,
    columns: seq<string>,
    where: string,
    whereArgs: seq<Value>,
    interceptor: Option<string -> string>,
    orderBy: seq<string>,
    limit: real,
    offset: real)

  /** `new QueryBuilder(colReplacements, whereInterceptor, colSelected)` */
  function NewQueryBuilder(replacer: seq<(string, string)>, interceptor: Option<string -> string>, columns: seq<string>): QueryBuilder
  {
    QueryBuilder(replacer, columns, "", [], interceptor, [], 0.0, 0.0)
  }

  /** `where(condition, ...args)`: replaces any earlier condition. */
  function Where(qb: QueryBuilder, condition: string, args: seq<Value>): QueryBuilder
  {
    qb.(where := condition, whereArgs := args)
  }

  /** One `"<column> <direction>"` item of the order-by list. */
  function OrderByItem(o: ColumnOrderBy): string
  {
    o.column + " " + OrderDirText(o.orderBy)
  }

  /** `orderBy(ordering)`: each item rendered as column, a space and the
      direction, in the given order; replaces any earlier ordering. */
  function OrderBy(qb: QueryBuilder, ordering: seq<ColumnOrderBy>): (r: QueryBuilder)
    ensures |r.orderBy| == |ordering|
    ensures forall i :: 0 <= i < |ordering| ==>
      StartsWith(r.orderBy[i], ordering[i].column)
      && (ordering[i].orderBy.Asc? ==> r.orderBy[i][|ordering[i].column|..] == " ASC")
      && (ordering[i].orderBy.Desc? ==> r.orderBy[i][|ordering[i].column|..] == " DESC")
  {
    var items := seq(|ordering|, i requires 0 <= i < |ordering| => OrderByItem(ordering[i]));
    assert forall i :: 0 <= i < |ordering| ==>
      items[i][..|ordering[i].column|] == ordering[i].column
      && items[i][|ordering[i].column|..] == " " + OrderDirText(ordering[i].orderBy);
    qb.(orderBy := items)
  }

  /** `limit(n)` */
  function Limit(qb: QueryBuilder, limit: real): QueryBuilder
  {
    qb.(limit := limit)
  }

  /** `offset(n)` */
  function Offset(qb: QueryBuilder, offset: real): QueryBuilder
  {
    qb.(offset := offset)
  }

  /** `replaceColumn(s)`: a global replacement of each mapped name by its
      letter, one name after the other in map order, each on the result of
      the previous ones. */
  function ReplaceColumn(replacer: seq<(string, string)>, s: string): string
    decreases |replacer|
  {
    if |replacer| == 0 then s
    else ReplaceColumn(replacer[1..], ReplaceAll(s, replacer[0].0, replacer[0].1))
  }

  /** Text in which no mapped name occurs is left as it is. */
  lemma {:induction false} ReplaceColumnAbsent(replacer: seq<(string, string)>, s: string)
    requires forall j :: 0 <= j < |replacer| ==> |replacer[j].0| > 0
    requires forall j, i :: 0 <= j < |replacer| && 0 <= i <= |s| ==> !OccursAt(s, replacer[j].0, i)
    ensures ReplaceColumn(replacer, s) == s
    decreases |replacer|
  {
    if |replacer| > 0 {
      ReplaceAllAbsent(s, replacer[0].0, replacer[0].1);
      assert forall j :: 0 <= j < |replacer[1..]| ==> replacer[1..][j] == replacer[j + 1];
      ReplaceColumnAbsent(replacer[1..], s);
    }
  }

  /** Names and letters free of `?` leave the number of placeholders as
      it is. */
  lemma {:induction false} ReplaceColumnKeepsPlaceholders(replacer: seq<(string, string)>, s: string)
    requires forall j :: 0 <= j < |replacer| ==> '?' !in replacer[j].0 && '?' !in replacer[j].1
    ensures CountChar(ReplaceColumn(replacer, s), '?') == CountChar(s, '?')
    decreases |replacer|
  {
    if |replacer| > 0 {
      ReplaceAllKeepsCount(s, replacer[0].0, replacer[0].1, '?');
      assert forall j :: 0 <= j < |replacer[1..]| ==> replacer[1..][j] == replacer[j + 1];
      ReplaceColumnKeepsPlaceholders(replacer[1..], ReplaceAll(s, replacer[0].0, replacer[0].1));
    }
  }

  /** Substitution is textual: a name inside a longer name is rewritten,
      and a letter produced for one name is rewritten again when it is
      itself a later name. */
  lemma {:induction false} ReplaceColumnIsTextual()
    ensures ReplaceColumn([("col1", "B"), ("col10", "C")], "col10") == "B0"
    ensures ReplaceColumn([("x", "B"), ("B", "C")], "x") == "C"
  {
    assert ReplaceAll("col10", "col1", "B") == "B" + ReplaceAll("0", "col1", "B");
    assert ReplaceAll("0", "col1", "B") == "0";
    assert ReplaceAll("B0", "col10", "C") == "B0" by {
      assert !StartsWith("B0", "col10");
      assert ReplaceAll("B0", "col10", "C") == "B" + ReplaceAll("0", "col10", "C");
    }
    assert ReplaceAll("x", "x", "B") == "B" + ReplaceAll("", "x", "B");
    assert ReplaceAll("B", "B", "C") == "C" + ReplaceAll("", "B", "C");
  }

  /** Bytes as `TextDecoder` decodes them for the ASCII range; a byte at
      or above 0x80 stands for U+FFFD here. */
  function Utf8Decode(b: seq<byte>): (r: string)
    ensures |r| == |b|
    ensures forall i :: 0 <= i < |b| && b[i] < 0x80 ==> r[i] as int == b[i] as int
  {
    seq(|b|, i requires 0 <= i < |b| => if b[i] < 0x80 then (b[i] as int) as char else 0xFFFD as char)
  }

  /** `convertString(s)` for a string: an argument whose lower-cased,
      trimmed text starts with `date`, `datetime` or `timeofday` is passed
      through as a query literal; anything else is JSON-quoted, and the
      JSON decoder gives the argument back. */
  function ConvertString(s: string): (r: string)
    ensures IsKeyword(Trim(AsciiLower(s))) ==> r == s
    ensures !IsKeyword(Trim(AsciiLower(s))) ==> Unquote(r) == Some(s)
  {
    if IsKeyword(Trim(AsciiLower(s))) then s
    else
      QuoteRoundTrip(s);
      Quote(s)
  }

  /** The kinds of value `convertArg` accepts. */
  predicate SupportedArg(v: Value) {
    v.Num? || v.Str? || v.Bytes? || v.Bool?
  }

  /** `convertArg(arg)`: numbers print as `String(n)`, booleans as `true`
      or `false`, strings through `convertString`, bytes decoded and
      quoted; every other kind of value is rejected. */
  function ConvertArg(v: Value): (r: Result<string>)
    ensures r.Ok? <==> SupportedArg(v)
    ensures r.Err? ==> r.error == UnsupportedArgType
  {
    match v
    case Num(n) => Ok(NumberToString(n))
    case Str(s) => Ok(ConvertString(s))
    case Bytes(b) => Ok(Quote(Utf8Decode(b)))
    case Bool(b) => Ok(if b then "true" else "false")
    case _ => Err(UnsupportedArgType)
  }

  /** What each supported argument becomes: a string goes through
      `convertString`, decoded bytes are quoted so that the JSON decoder
      gives the text back, booleans become keywords and integers their
      decimal numeral. */
  lemma {:induction false} ConvertArgMeaning(v: Value)
    ensures v.Str? ==> ConvertArg(v) == Ok(ConvertString(v.s))
    ensures v.Bytes? ==> ConvertArg(v).Ok? && Unquote(ConvertArg(v).value) == Some(Utf8Decode(v.bytes))
    ensures v.Bool? ==> ConvertArg(v) == Ok(if v.b then "true" else "false")
    ensures v.Num? && IsInteger(v.n) ==> ConvertArg(v) == Ok(IntToString(v.n.Floor))
  {
    match v
    case Num(n) =>
      NumberToStringOfInteger(n.Floor);
    case Bytes(b) =>
      QuoteRoundTrip(Utf8Decode(b));
    case _ =>
  }

  /** The arguments converted in order; the first unsupported one fails
      the whole list. */
  function ConvertArgs(args: seq<Value>): (r: Result<seq<string>>)
    ensures r.Ok? <==> forall i :: 0 <= i < |args| ==> SupportedArg(args[i])
    ensures r.Ok? ==> |r.value| == |args|
    ensures r.Err? ==> r.error == UnsupportedArgType
    decreases |args|
  {
    if |args| == 0 then Ok([])
    else
      var init := args[..|args| - 1];
      var last := args[|args| - 1];
      var r0 := ConvertArgs(init);
      assert forall i :: 0 <= i < |init| ==> init[i] == args[i];
      if r0.Err? then r0
      else
        var x := ConvertArg(last);
        if x.Err? then Err(x.error)
        else Ok(r0.value + [x.value])
  }

  /** Each converted argument sits at its argument's position. */
  lemma {:induction false} ConvertArgsValues(args: seq<Value>)
    requires ConvertArgs(args).Ok?
    ensures forall i :: 0 <= i < |args| ==> ConvertArgs(args).value[i] == ConvertArg(args[i]).value
  {
    forall i | 0 <= i < |args| ensures ConvertArgs(args).value[i] == ConvertArg(args[i]).value {
      ConvertArgsValueAt(args, i);
    }
  }

  lemma {:induction false} ConvertArgsValueAt(args: seq<Value>, i: nat)
    requires ConvertArgs(args).Ok? && i < |args|
    ensures ConvertArgs(args).value[i] == ConvertArg(args[i]).value
    decreases |args|
  {
    var init := args[..|args| - 1];
    var r0 := ConvertArgs(init);
    assert r0.Ok? by {
      assert forall j :: 0 <= j < |init| ==> init[j] == args[j];
    }
    var x := ConvertArg(args[|args| - 1]);
    assert ConvertArgs(args) == Ok(r0.value + [x.value]);
    assert |r0.value| == |init|;
    if i < |init| {
      ConvertArgsValueAt(init, i);
      assert init[i] == args[i];
    }
  }

  /** `tokens[i]?.trim() ?? ''`: a missing token reads as the empty text. */
  function Token(tokens: seq<string>, i: nat): string
  {
    if i < |tokens| then Trim(tokens[i]) else ""
  }

  /** The pieces of the bound where text: the first token, then each
      converted argument followed by the token after it. */
  function Interleave(tokens: seq<string>, args: seq<string>): (parts: seq<string>)
    ensures |parts| == 2 * |args| + 1
    decreases |args|
  {
    if |args| == 0 then [Token(tokens, 0)]
    else Interleave(tokens, args[..|args| - 1]) + [args[|args| - 1], Token(tokens, |args|)]
  }

  /** Pieces sit at the even positions of the interleaving and arguments at
      the odd ones, so exactly one argument separates consecutive pieces. */
  lemma {:induction false} InterleaveAlternates(tokens: seq<string>, args: seq<string>, i: nat)
    requires i <= |args|
    ensures Interleave(tokens, args)[2 * i] == Token(tokens, i)
    ensures i < |args| ==> Interleave(tokens, args)[2 * i + 1] == args[i]
    decreases |args|
  {
    if |args| > 0 {
      var init := args[..|args| - 1];
      var p := Interleave(tokens, init);
      var parts := Interleave(tokens, args);
      assert parts == p + [args[|args| - 1], Token(tokens, |args|)];
      assert |p| == 2 * |args| - 1;
      if i < |args| - 1 {
        InterleaveAlternates(tokens, init, i);
        assert parts[2 * i] == p[2 * i];
        assert parts[2 * i + 1] == p[2 * i + 1];
        assert init[i] == args[i];
      } else if i == |args| - 1 {
        InterleaveAlternates(tokens, init, i);
        assert parts[2 * i] == p[2 * i];
        assert parts[2 * i + 1] == args[|args| - 1];
      } else {
        assert parts[2 * i] == Token(tokens, |args|);
      }
    }
  }

  /** The where text after the interceptor, if there is one. */
  function InterceptedWhere(qb: QueryBuilder): string
  {
    if qb.interceptor.Some? then qb.interceptor.value(qb.where) else qb.where
  }

  /** `writeWhere`: the placeholders of the intercepted text must match the
      arguments in number; the names in the text are then replaced, the text
      is split at `?`, and the trimmed pieces and converted arguments are
      interleaved and joined by single spaces. */
  function WhereText(qb: QueryBuilder): (r: Result<string>)
    ensures r.Err? && r.error.ArityMismatch? <==> CountChar(InterceptedWhere(qb), '?') != |qb.whereArgs|
    ensures r.Ok? <==>
      CountChar(InterceptedWhere(qb), '?') == |qb.whereArgs|
      && forall i :: 0 <= i < |qb.whereArgs| ==> SupportedArg(qb.whereArgs[i])
    ensures r.Ok? ==> r.value == Join(Interleave(Split(ReplaceColumn(qb.replacer, InterceptedWhere(qb)), '?'),
                                                 ConvertArgs(qb.whereArgs).value), " ")
  {
    var clause := InterceptedWhere(qb);
    var n := CountChar(clause, '?');
    if n != |qb.whereArgs| then Err(ArityMismatch(n, |qb.whereArgs|))
    else
      var tokens := Split(ReplaceColumn(qb.replacer, clause), '?');
      var args :- ConvertArgs(qb.whereArgs);
      Ok(Join(Interleave(tokens, args), " "))
  }

  /** `writeCols`: the selected columns, each replaced, joined by `", "`. */
  function SelectList(qb: QueryBuilder): string
  {
    Join(seq(|qb.columns|, i requires 0 <= i < |qb.columns| => ReplaceColumn(qb.replacer, qb.columns[i])), ", ")
  }

  /** `writeOrderBy`: nothing when there is no ordering. */
  function OrderByClause(qb: QueryBuilder): seq<string>
  {
    if |qb.orderBy| == 0 then []
    else ["order by", Join(seq(|qb.orderBy|, i requires 0 <= i < |qb.orderBy| => ReplaceColumn(qb.replacer, qb.orderBy[i])), ", ")]
  }

  /** `writeOffset`: nothing when the offset is 0. */
  function OffsetClause(qb: QueryBuilder): seq<string>
  {
    if qb.offset == 0.0 then [] else ["offset", NumberToString(qb.offset)]
  }

  /** `writeLimit`: nothing when the limit is 0. */
  function LimitClause(qb: QueryBuilder): seq<string>
  {
    if qb.limit == 0.0 then [] else ["limit", NumberToString(qb.limit)]
  }

  /** `generate()`: the clauses in their fixed order, joined by single
      spaces. The builder is not changed, so generating twice gives the
      same text. */
  function Generate(qb: QueryBuilder): (r: Result<string>)
    ensures r.Ok? <==> WhereText(qb).Ok?
    ensures r.Err? ==> r.error == WhereText(qb).error
  {
    var w :- WhereText(qb);
    Ok(Join(["select", SelectList(qb), "where", w] + OrderByClause(qb) + OffsetClause(qb) + LimitClause(qb), " "))
  }

  lemma {:induction false} JoinAppend(a: seq<string>, b: seq<string>, sep: string)
    requires |a| > 0 && |b| > 0
    ensures Join(a + b, sep) == Join(a, sep) + sep + Join(b, sep)
    decreases |a|
  {
    if |a| == 1 {
      assert (a + b)[1..] == b;
    } else {
      assert (a + b)[1..] == a[1..] + b;
      JoinAppend(a[1..], b, sep);
    }
  }

  /** The text each optional clause contributes: empty when absent,
      otherwise a space, the keyword, a space and the clause body. */
  function Tail(clause: seq<string>): string
  {
    if |clause| == 0 then "" else " " + Join(clause, " ")
  }

  lemma {:induction false} JoinWithTail(a: seq<string>, b: seq<string>)
    requires |a| > 0
    ensures Join(a + b, " ") == Join(a, " ") + Tail(b)
  {
    if |b| == 0 {
      assert a + b == a;
    } else {
      JoinAppend(a, b, " ");
    }
  }

  /** The fixed clause order: `select <cols> where <cond>`, then the
      order-by, offset and limit clauses, each present only when set
      (offset and limit only when non-zero). */
  lemma {:induction false} GenerateLayout(qb: QueryBuilder)
    requires Generate(qb).Ok?
    ensures Generate(qb).value ==
      "select " + SelectList(qb) + " where " + WhereText(qb).value
      + Tail(OrderByClause(qb)) + Tail(OffsetClause(qb)) + Tail(LimitClause(qb))
  {
    var w := WhereText(qb).value;
    assert Generate(qb).value == Join(["select", SelectList(qb), "where", w] + OrderByClause(qb) + OffsetClause(qb) + LimitClause(qb), " ");
    var head := ["select", SelectList(qb), "where", w];
    JoinLayout(head, OrderByClause(qb), OffsetClause(qb), LimitClause(qb));
    SelectWhereHead(SelectList(qb), w);
  }

  /** The fixed head `select <cols> where <cond>` as one text. */
  lemma {:induction false} SelectWhereHead(cols: string, w: string)
    ensures Join(["select", cols, "where", w], " ") == "select " + cols + " where " + w
  {
    HeadJoin("select", cols, "where", w);
    var x := "select" + " " + cols;
    assert "select" + " " + cols == "select " + cols;
    assert x + " " + "where" + " " == x + " where ";
  }

  /** Joining a non-empty head and three optional clauses is the head's
      text followed by each clause's tail. */
  lemma {:induction false} JoinLayout(head: seq<string>, o: seq<string>, f: seq<string>, l: seq<string>)
    requires |head| > 0
    ensures Join(head + o + f + l, " ") == Join(head, " ") + Tail(o) + Tail(f) + Tail(l)
  {
    JoinWithTail(head + o + f, l);
    JoinWithTail(head + o, f);
    JoinWithTail(head, o);
  }

  /** Offset and limit appear exactly when they are non-zero, each as its
      keyword followed by the number's text. */
  lemma {:induction false} OffsetLimitTails(qb: QueryBuilder)
    ensures qb.offset == 0.0 ==> Tail(OffsetClause(qb)) == ""
    ensures qb.offset != 0.0 ==> Tail(OffsetClause(qb)) == " offset " + NumberToString(qb.offset)
    ensures qb.limit == 0.0 ==> Tail(LimitClause(qb)) == ""
    ensures qb.limit != 0.0 ==> Tail(LimitClause(qb)) == " limit " + NumberToString(qb.limit)
  {
    KeywordTail("offset", " offset ", NumberToString(qb.offset));
    KeywordTail("limit", " limit ", NumberToString(qb.limit));
  }

  /** A keyword clause's tail is the keyword between spaces, then its
      argument. */
  lemma {:induction false} KeywordTail(kw: string, spaced: string, x: string)
    requires spaced == " " + kw + " "
    ensures Tail([kw, x]) == spaced + x
  {
    var a := [kw, x];
    assert a[1..] == [x];
    assert Join(a, " ") == kw + " " + x;
    assert " " + (kw + " " + x) == spaced + x;
  }

  lemma {:induction false} HeadJoin(a: string, b: string, c: string, d: string)
    ensures Join([a, b, c, d], " ") == a + " " + b + " " + c + " " + d
  {
    assert [a, b, c, d][1..] == [b, c, d];
    assert [b, c, d][1..] == [c, d];
    assert [c, d][1..] == [d];
    assert Join([d], " ") == d;
    assert Join([c, d], " ") == c + " " + d;
    assert Join([b, c, d], " ") == b + " " + (c + " " + d);
    assert Join([a, b, c, d], " ") == a + " " + (b + " " + (c + " " + d));
  }

  /** Placeholder binding when the names and letters contain no `?`: every
      placeholder of the where text is filled by exactly one argument, so
      no token is missing. */
  lemma {:induction false} WhereTokensComplete(qb: QueryBuilder)
    requires WhereText(qb).Ok?
    requires forall j :: 0 <= j < |qb.replacer| ==> '?' !in qb.replacer[j].0 && '?' !in qb.replacer[j].1
    ensures |Split(ReplaceColumn(qb.replacer, InterceptedWhere(qb)), '?')| == |qb.whereArgs| + 1
  {
    ReplaceColumnKeepsPlaceholders(qb.replacer, InterceptedWhere(qb));
  }
}
