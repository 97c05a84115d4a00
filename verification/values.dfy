/** Dynamic values as the engine sees them (the `any` of the TypeScript implementation), the
    cell escape of src/google/utils/values.ts, the safe-integer check, and
    the two numeric conversions the engine performs: `Math.trunc` and
    `String(n)`. Numbers are exact reals; NaN and the infinities are not
    represented. */
module Values {
  import opened Wrappers
  import opened Strings

  newtype byte = x: int | 0 <= x < 256

  datatype Value =
    | Undef
    | Null
    | Bool(b: bool)
    | Num(n: real)
    | Str(s: string)
    | Bytes(bytes: seq<byte>)
    | Arr(items: seq<Value>)
    | Obj(fields: seq<(string, Value)>)
    | Fn

  /** `Number.MAX_SAFE_INTEGER`, 2^53 - 1. */
  const MaxSafeInteger: int := 0x1F_FFFF_FFFF_FFFF

  predicate IsInteger(x: real) {
    x.Floor as real == x
  }

  /** `Number.isSafeInteger(x)` */
  predicate IsSafeInteger(x: real) {
    IsInteger(x) && -MaxSafeInteger <= x.Floor <= MaxSafeInteger
  }

  /** `escapeValue`: a string gets a leading apostrophe so that the backend
      stores it as literal text; any other value is passed as it is. */
  function EscapeValue(v: Value): (r: Value)
    ensures v.Str? <==> r.Str?
    ensures v.Str? ==> |r.s| == |v.s| + 1 && r.s[0] == '\'' && r.s[1..] == v.s
    ensures !v.Str? ==> r == v
  {
    if v.Str? then Str("'" + v.s) else v
  }

  /** What the backend keeps of a user-entered text cell: a leading
      apostrophe marks literal text and is not part of the stored value. */
  function StoredText(v: Value): Value
  {
    if v.Str? && |v.s| > 0 && v.s[0] == '\'' then Str(v.s[1..]) else v
  }

  /** Escaping is undone by the backend: every string is stored verbatim,
      whatever it looks like (a number, a formula, a date). */
  lemma {:induction false} EscapedStringIsStoredVerbatim(s: string)
    ensures StoredText(EscapeValue(Str(s))) == Str(s)
  {
  }

  /** `checkIEEE754SafeInteger`: non-numbers always pass; a number passes
      exactly when it is an integer within [-(2^53 - 1), 2^53 - 1]. */
  function CheckSafeInteger(v: Value): (r: Result<()>)
    ensures r.Ok? <==> (!v.Num? || IsSafeInteger(v.n))
    ensures r.Err? ==> r.error == UnsafeInteger
  {
    match v
    case Num(n) => if IsSafeInteger(n) then Ok(()) else Err(UnsafeInteger)
    case _ => Ok(())
  }

  /** The examples JSFreeDB's unit tests use, including both bounds. */
  lemma {:induction false} SafeIntegerExamples()
    ensures CheckSafeInteger(Num(0.0)).Ok?
    ensures CheckSafeInteger(Num(42.0)).Ok? && CheckSafeInteger(Num(-42.0)).Ok?
    ensures CheckSafeInteger(Num(9007199254740991.0)).Ok?
    ensures CheckSafeInteger(Num(-9007199254740991.0)).Ok?
    ensures CheckSafeInteger(Num(9007199254740992.0)).Err?
    ensures CheckSafeInteger(Num(9007199254740993.0)).Err?
    ensures CheckSafeInteger(Num(-9007199254740993.0)).Err?
    ensures CheckSafeInteger(Num(3.14)).Err? && CheckSafeInteger(Num(-2.5)).Err?
    ensures CheckSafeInteger(Str("blah")).Ok? && CheckSafeInteger(Bool(true)).Ok?
    ensures CheckSafeInteger(Null).Ok? && CheckSafeInteger(Undef).Ok?
    ensures CheckSafeInteger(Arr([])).Ok? && CheckSafeInteger(Obj([])).Ok?
  {
    assert (3.14).Floor == 3;
    assert (-2.5).Floor == -3;
  }

  /** `Math.trunc(x)`: rounds toward zero. */
  function Trunc(x: real): (r: int)
    ensures x >= 0.0 ==> r as real <= x < r as real + 1.0
    ensures x < 0.0 ==> r as real - 1.0 < x <= r as real
  {
    if x >= 0.0 || IsInteger(x) then x.Floor else x.Floor + 1
  }

  /** Decimal digits of a fraction in (0, 1), at most `fuel` of them. */
  function FractionDigits(f: real, fuel: nat): string
    requires 0.0 < f < 1.0
    decreases fuel
  {
    if fuel == 0 then ""
    else
      var t := f * 10.0;
      var d := t.Floor;
      var rest := t - d as real;
      [DigitChar(d)] + (if rest == 0.0 then "" else FractionDigits(rest, fuel - 1))
  }

  /** `String(x)` for a number in plain (non-exponent) notation: an integer
      prints as its decimal digits, a fraction with a terminating expansion
      prints that expansion. */
  function NumberToString(x: real): (r: string)
    ensures |r| > 0
  {
    var a := if x < 0.0 then -x else x;
    var ip := a.Floor;
    var frac := a - ip as real;
    var body := if frac == 0.0 then NatToString(ip) else NatToString(ip) + "." + FractionDigits(frac, 20);
    if x < 0.0 then "-" + body else body
  }

  /** Integers print exactly as their decimal text. */
  lemma {:induction false} NumberToStringOfInteger(i: int)
    ensures NumberToString(i as real) == IntToString(i)
  {
    var x := i as real;
    if i < 0 {
      var a := -x;
      assert a == (-i) as real;
      assert a.Floor == -i;
      assert a - a.Floor as real == 0.0;
    } else {
      assert x.Floor == i;
      assert x - x.Floor as real == 0.0;
    }
  }

  /** The numbers the query-builder tests convert. */
  lemma {:induction false} NumberToStringExamples()
    ensures NumberToString(1.0) == "1"
    ensures NumberToString(1.5) == "1.5"
    ensures NumberToString(3.14) == "3.14"
    ensures NumberToString(-2.5) == "-2.5"
  {
    assert FractionDigits(0.5, 20) == "5";
    assert FractionDigits(0.4, 19) == "4";
    assert FractionDigits(0.14, 20) == "14";
  }
}
