/** Column letters, the column mapping and sheet-qualified ranges
    (src/google/utils/range.ts). */
module Columns {
  import opened Wrappers
  import opened OrderedMap

  const Alphabet: string := "ABCDEFGHIJKLMNOPQRSTUVWXYZ"

  predicate IsLetter(ch: char) {
    'A' <= ch <= 'Z'
  }

  function Letter(d: nat): (ch: char)
    requires d < 26
    ensures IsLetter(ch)
    ensures ch as int == 'A' as int + d
  {
    Alphabet[d]
  }

  /** The position of a letter in the alphabet. */
  function LetterIndex(ch: char): (d: nat)
    requires IsLetter(ch)
    ensures d < 26 && Letter(d) == ch
  {
    ch as int - 'A' as int
  }

  predicate AllLetters(s: string) {
    forall i :: 0 <= i < |s| ==> IsLetter(s[i])
  }

  /** `generateColumnName(n)`: the last letter is `n % 26`; the remaining
      letters name `n / 26 - 1` in the same way, so every position, not only
      the leading one, may use `A` as its lowest symbol. */
  function ColumnName(n: nat): (r: string)
    ensures |r| > 0 && AllLetters(r)
  {
    if n < 26 then [Letter(n)] else ColumnName(n / 26 - 1) + [Letter(n % 26)]
  }

  /** What the TypeScript loop still has to prepend when its counter is
      `n`: nothing once it reaches zero, otherwise the name of `n - 1`. */
  function PendingPrefix(n: nat): string
  {
    if n == 0 then "" else ColumnName(n - 1)
  }

  /** One step of the TypeScript loop: the last letter of a name, after
      which the name of `m / 26 - 1` is still pending. */
  lemma {:induction false} ColumnNameStep(m: nat)
    ensures ColumnName(m) == PendingPrefix(m / 26) + [Alphabet[m % 26]]
  {
    if m < 26 {
      assert m / 26 == 0 && m % 26 == m;
    } else {
      assert m / 26 >= 1;
      assert PendingPrefix(m / 26) == ColumnName(m / 26 - 1);
    }
  }

  /** `generateColumnName`, step by step as the TypeScript implementation computes it: take
      the last letter, then repeatedly subtract one, take the next letter and
      divide by 26 until nothing is left. */
  method GenerateColumnName(n0: nat) returns (col: string)
    ensures col == ColumnName(n0)
  {
    col := [Alphabet[n0 % 26]];
    var n: nat := n0 / 26;
    ColumnNameStep(n0);
    while n > 0
      invariant PendingPrefix(n) + col == ColumnName(n0)
      decreases n
    {
      PendingStep(n, col);
      col := [Alphabet[(n - 1) % 26]] + col;
      n := (n - 1) / 26;
    }
  }

  /** One turn of the TypeScript loop keeps "pending prefix + letters so
      far" equal to the full name. */
  lemma {:induction false} PendingStep(n: nat, col: string)
    requires n > 0
    ensures PendingPrefix(n) + col == PendingPrefix((n - 1) / 26) + ([Alphabet[(n - 1) % 26]] + col)
  {
    var m: nat := n - 1;
    var a := ColumnName(m);
    ColumnNameStep(m);
    assert PendingPrefix(n) == a;
    Regroup(a, PendingPrefix(m / 26), [Alphabet[m % 26]], col);
  }

  lemma {:induction false} Regroup(a: string, p: string, c: string, col: string)
    requires a == p + c
    ensures a + col == p + (c + col)
  {
  }

  /** The value of a letter string read as a bijective base-26 numeral,
      with A = 1 ... Z = 26. */
  function BijectiveValue(s: string): nat
    requires AllLetters(s)
  {
    if |s| == 0 then 0
    else BijectiveValue(s[..|s| - 1]) * 26 + LetterIndex(s[|s| - 1]) + 1
  }

  /** The column name of `n` is the bijective base-26 numeral of `n + 1`. */
  lemma {:induction false} ColumnNameIsBijectiveNumeral(n: nat)
    ensures BijectiveValue(ColumnName(n)) == n + 1
  {
    if n >= 26 {
      var r := ColumnName(n);
      assert r[..|r| - 1] == ColumnName(n / 26 - 1);
      ColumnNameIsBijectiveNumeral(n / 26 - 1);
    }
  }

  /** The decoder: the column index a name denotes. */
  function ColumnIndex(s: string): int
    requires AllLetters(s)
  {
    BijectiveValue(s) - 1
  }

  lemma {:induction false} ColumnIndexOfName(n: nat)
    ensures ColumnIndex(ColumnName(n)) == n
  {
    ColumnNameIsBijectiveNumeral(n);
  }

  /** Distinct indices get distinct names. */
  lemma {:induction false} ColumnNameInjective(m: nat, n: nat)
    requires ColumnName(m) == ColumnName(n)
    ensures m == n
  {
    ColumnIndexOfName(m);
    ColumnIndexOfName(n);
  }

  /** Every non-empty letter string is the name of exactly the index it
      decodes to, so the naming is a bijection onto non-empty letter strings. */
  lemma {:induction false} ColumnNameOfIndex(s: string)
    requires |s| > 0 && AllLetters(s)
    ensures ColumnIndex(s) >= 0
    ensures ColumnName(ColumnIndex(s)) == s
  {
    var p := s[..|s| - 1];
    var d := LetterIndex(s[|s| - 1]);
    if |p| == 0 {
      assert BijectiveValue(s) == d + 1;
      assert s == [Letter(d)];
    } else {
      ColumnNameOfIndex(p);
      var q := BijectiveValue(p);
      var n := BijectiveValue(s) - 1;
      assert n == q * 26 + d;
      DivModDigit(q, d);
      assert n >= 26 && n / 26 - 1 == ColumnIndex(p);
      assert ColumnName(n) == ColumnName(ColumnIndex(p)) + [Letter(d)];
      assert s == p + [s[|s| - 1]];
    }
  }

  lemma {:induction false} DivModDigit(q: nat, d: nat)
    requires d < 26
    ensures (q * 26 + d) / 26 == q && (q * 26 + d) % 26 == d
  {
  }

  /** One letter exactly for the first 26 columns, two letters exactly for
      the next 26 * 26. */
  lemma {:induction false} ColumnNameLength(n: nat)
    ensures |ColumnName(n)| == 1 <==> n < 26
    ensures |ColumnName(n)| == 2 <==> 26 <= n < 702
  {
    if n >= 26 {
      assert |ColumnName(n)| == |ColumnName(n / 26 - 1)| + 1;
      if n >= 702 {
        assert n / 26 - 1 >= 26;
      }
    }
  }

  lemma {:induction false} ColumnNameExamples()
    ensures ColumnName(0) == "A" && ColumnName(5) == "F" && ColumnName(15) == "P"
    ensures ColumnName(25) == "Z" && ColumnName(26) == "AA" && ColumnName(27) == "AB"
    ensures ColumnName(51) == "AZ" && ColumnName(52) == "BA" && ColumnName(89) == "CL"
    ensures ColumnName(701) == "ZZ" && ColumnName(702) == "AAA" && ColumnName(18277) == "ZZZ"
  {
    assert ColumnName(0) == "A";
    assert ColumnName(25) == "Z";
    assert ColumnName(1) == "B";
    assert ColumnName(2) == "C";
    assert ColumnName(11) == "L";
  }

  /** `ColIdx`: a column's letter name and zero-based index. */
  datatype ColIdx = ColIdx(name: string, idx: nat)

  /** `ColsMapping`: logical column name to `ColIdx`, in definition order. */
  type ColsMapping = seq<(string, ColIdx)>

  /** The position of the last occurrence of `k` in `cols`. */
  predicate IsLastIndex(cols: seq<string>, k: string, j: int) {
    0 <= j < |cols| && cols[j] == k && forall j' :: j < j' < |cols| ==> cols[j'] != k
  }

  /** `generateColumnMapping(columns)`: `new Map(columns.map((col, idx) =>
      [col, {name: generateColumnName(idx), idx}]))`. A repeated name keeps
      its first position in the map and the entry of its last occurrence. */
  function GenerateColumnMapping(cols: seq<string>): (m: ColsMapping)
    ensures DistinctKeys(m)
    ensures forall k :: Has(m, k) <==> k in cols
    ensures forall k, j :: IsLastIndex(cols, k, j) ==> Get(m, k) == Some(ColIdx(ColumnName(j), j))
    ensures forall i :: 0 <= i < |m| ==> m[i].1.idx < |cols|
  {
    if |cols| == 0 then []
    else
      var init := cols[..|cols| - 1];
      var last := |cols| - 1;
      var m0 := GenerateColumnMapping(init);
      var m := Put(m0, cols[last], ColIdx(ColumnName(last), last));
      MappingStepKeys(cols, m0, ColIdx(ColumnName(last), last));
      MappingStepEntries(cols, m0, ColIdx(ColumnName(last), last));
      MappingStepIndices(cols, m0, ColIdx(ColumnName(last), last), m);
      m
  }

  /** Appending a column to the mapping keeps exactly the columns' names
      as keys. */
  lemma {:induction false} MappingStepKeys(cols: seq<string>, m0: ColsMapping, v: ColIdx)
    requires |cols| > 0
    requires forall k :: Has(m0, k) <==> k in cols[..|cols| - 1]
    ensures forall k :: Has(Put(m0, cols[|cols| - 1], v), k) <==> k in cols
  {
    var m := Put(m0, cols[|cols| - 1], v);
    var init := cols[..|cols| - 1];
    assert cols == init + [cols[|cols| - 1]];
    forall k ensures Has(m, k) <==> k in cols {
      if k != cols[|cols| - 1] {
        assert Get(m, k) == Get(m0, k);
        assert Has(m, k) == Has(m0, k);
        assert k in cols <==> k in init;
      } else {
        assert Get(m, k) == Some(v);
        assert cols[|cols| - 1] in cols;
      }
    }
  }

  /** Appending a column keeps the entry of every name's last occurrence. */
  lemma {:induction false} MappingStepEntries(cols: seq<string>, m0: ColsMapping, v: ColIdx)
    requires |cols| > 0
    requires forall k, j :: IsLastIndex(cols[..|cols| - 1], k, j) ==> Get(m0, k) == Some(ColIdx(ColumnName(j), j))
    requires v == ColIdx(ColumnName(|cols| - 1), |cols| - 1)
    ensures forall k, j :: IsLastIndex(cols, k, j) ==> Get(Put(m0, cols[|cols| - 1], v), k) == Some(ColIdx(ColumnName(j), j))
  {
    var m := Put(m0, cols[|cols| - 1], v);
    forall k, j | IsLastIndex(cols, k, j) ensures Get(m, k) == Some(ColIdx(ColumnName(j), j)) {
      if k != cols[|cols| - 1] {
        assert j < |cols| - 1;
        assert IsLastIndex(cols[..|cols| - 1], k, j);
        assert Get(m, k) == Get(m0, k);
      } else {
        assert j == |cols| - 1;
      }
    }
  }

  /** Appending a column keeps every stored position below the column
      count. */
  lemma {:induction false} MappingStepIndices(cols: seq<string>, m0: ColsMapping, v: ColIdx, m: ColsMapping)
    requires |cols| > 0
    requires forall i :: 0 <= i < |m0| ==> m0[i].1.idx < |cols| - 1
    requires v.idx < |cols|
    requires m == Put(m0, cols[|cols| - 1], v)
    ensures forall i :: 0 <= i < |m| ==> m[i].1.idx < |cols|
  {
    PutEntries(m0, cols[|cols| - 1], v);
  }

  /** With distinct names, the mapping sends the i-th column to
      (its name, i), in definition order, and has exactly one entry per
      column. */
  lemma {:induction false} GenerateColumnMappingDistinct(cols: seq<string>)
    requires forall i, j :: 0 <= i < j < |cols| ==> cols[i] != cols[j]
    ensures |GenerateColumnMapping(cols)| == |cols|
    ensures forall i :: 0 <= i < |cols| ==>
      GenerateColumnMapping(cols)[i] == (cols[i], ColIdx(ColumnName(i), i))
  {
    if |cols| > 0 {
      var init := cols[..|cols| - 1];
      GenerateColumnMappingDistinct(init);
      var m0 := GenerateColumnMapping(init);
      assert cols[|cols| - 1] !in init;
      assert !Has(m0, cols[|cols| - 1]);
      assert Find(m0, cols[|cols| - 1]) < 0;
    }
  }

  /** `ColsMapping.hasCol`: the name is a key of the mapping. */
  predicate HasCol(m: ColsMapping, col: string) {
    Has(m, col)
  }

  /** `ColsMapping.getColIdx`: the entry of a key of the mapping. */
  function GetColIdx(m: ColsMapping, col: string): (ci: ColIdx)
    requires HasCol(m, col)
    ensures Get(m, col) == Some(ci)
  {
    m[Find(m, col)].1
  }

  /** `ColsMapping.getNameMap`: each entry projected to its letter name;
      keys and their order are kept. */
  function GetNameMap(m: ColsMapping): (r: seq<(string, string)>)
    ensures Keys(r) == Keys(m)
    ensures forall k :: Has(r, k) <==> Has(m, k)
    ensures forall k :: Has(m, k) ==> Get(r, k) == Some(Get(m, k).value.name)
  {
    var r := MapValues(m, (ci: ColIdx) => ci.name);
    MapValuesKeepsKeys(m, (ci: ColIdx) => ci.name);
    r
  }

  /** `getA1Range(sheetName, range)`: the sheet-qualified range, with no
      escaping of the sheet name. */
  function GetA1Range(sheetName: string, range: string): (r: string)
    ensures |r| == |sheetName| + 1 + |range|
    ensures r[..|sheetName|] == sheetName && r[|sheetName|] == '!' && r[|sheetName| + 1..] == range
  {
    sheetName + "!" + range
  }
}
