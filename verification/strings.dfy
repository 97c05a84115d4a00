/** String primitives with the semantics of the JavaScript built-ins
    JSFreeDB calls: indexOf/lastIndexOf, substring (clamping and argument
    swap), split on one character, join, trim, toLowerCase, global literal
    replacement and integer-to-decimal conversion. */
module Strings {

  /** `s.startsWith(p)` */
  predicate StartsWith(s: string, p: string) {
    |p| <= |s| && s[..|p|] == p
  }

  /** `s.indexOf(c)`: the first position of `c`, or -1. */
  function IndexOf(s: string, c: char): (r: int)
    ensures -1 <= r < |s|
    ensures r == -1 <==> c !in s
    ensures r >= 0 ==> s[r] == c && c !in s[..r]
  {
    if |s| == 0 then -1
    else if s[0] == c then 0
    else
      var k := IndexOf(s[1..], c);
      assert s[1..][..if k < 0 then 0 else k] == s[1..1 + (if k < 0 then 0 else k)];
      if k == -1 then -1 else k + 1
  }

  /** `s.lastIndexOf(c)`: the last position of `c`, or -1. */
  function LastIndexOf(s: string, c: char): (r: int)
    ensures -1 <= r < |s|
    ensures r == -1 ==> forall j :: 0 <= j < |s| ==> s[j] != c
    ensures r >= 0 ==> s[r] == c && forall j :: r < j < |s| ==> s[j] != c
  {
    if |s| == 0 then -1
    else if s[|s| - 1] == c then |s| - 1
    else
      var init := s[..|s| - 1];
      var k := LastIndexOf(init, c);
      assert forall j :: 0 <= j < |init| ==> init[j] == s[j];
      k
  }

  function Clamp(i: int, len: nat): (r: nat)
    ensures r <= len
  {
    if i < 0 then 0 else if i > len then len else i
  }

  /** `s.substring(a, b)`: both bounds are clamped to [0, |s|] and swapped
      when the start exceeds the end. */
  function Substring(s: string, a: int, b: int): (r: string)
    ensures 0 <= a <= b <= |s| ==> r == s[a..b]
    ensures 0 <= b <= a <= |s| ==> r == s[b..a]
  {
    var x := Clamp(a, |s|);
    var y := Clamp(b, |s|);
    if x <= y then s[x..y] else s[y..x]
  }

  /** The number of occurrences of `c` in `s`. */
  function CountChar(s: string, c: char): nat
  {
    if |s| == 0 then 0 else (if s[0] == c then 1 else 0) + CountChar(s[1..], c)
  }

  lemma {:induction false} CountCharAppend(a: string, b: string, c: char)
    ensures CountChar(a + b, c) == CountChar(a, c) + CountChar(b, c)
  {
    if |a| == 0 {
      assert a + b == b;
    } else {
      assert (a + b)[1..] == a[1..] + b;
      CountCharAppend(a[1..], b, c);
    }
  }

  lemma {:induction false} CountCharAbsent(s: string, c: char)
    requires c !in s
    ensures CountChar(s, c) == 0
  {
    if |s| > 0 {
      assert s[1..] <= s[1..];
      assert forall x :: x in s[1..] ==> x in s;
      CountCharAbsent(s[1..], c);
    }
  }

  /** `parts.join(sep)` */
  function Join(parts: seq<string>, sep: string): string
  {
    if |parts| == 0 then ""
    else if |parts| == 1 then parts[0]
    else parts[0] + sep + Join(parts[1..], sep)
  }

  /** `s.split(c)` for a one-character separator: the pieces between the
      occurrences of `c`; there is always one more piece than occurrences. */
  function Split(s: string, c: char): (r: seq<string>)
    ensures |r| == CountChar(s, c) + 1
    ensures forall i :: 0 <= i < |r| ==> c !in r[i]
    ensures Join(r, [c]) == s
    decreases |s|
  {
    var i := IndexOf(s, c);
    if i == -1 then
      CountCharAbsent(s, c);
      [s]
    else
      var rest := Split(s[i + 1..], c);
      assert s == s[..i] + [c] + s[i + 1..];
      CountCharAppend(s[..i] + [c], s[i + 1..], c);
      CountCharAppend(s[..i], [c], c);
      CountCharAbsent(s[..i], c);
      assert CountChar([c], c) == 1 + CountChar([c][1..], c);
      [s[..i]] + rest
  }

  /** The white-space and line-terminator code points that
      `String.prototype.trim` removes (ECMAScript WhiteSpace and
      LineTerminator productions). */
  predicate IsJsWhitespace(ch: char) {
    var k := ch as int;
    || (9 <= k <= 13)
    || k == 0x20 || k == 0xA0 || k == 0x1680
    || (0x2000 <= k <= 0x200A)
    || k == 0x2028 || k == 0x2029 || k == 0x202F || k == 0x205F
    || k == 0x3000 || k == 0xFEFF
  }

  function TrimStart(s: string): (r: string)
    ensures |r| <= |s| && r == s[|s| - |r|..]
    ensures forall k :: 0 <= k < |s| - |r| ==> IsJsWhitespace(s[k])
    ensures |r| > 0 ==> !IsJsWhitespace(r[0])
  {
    if |s| > 0 && IsJsWhitespace(s[0]) then TrimStart(s[1..]) else s
  }

  function TrimEnd(s: string): (r: string)
    ensures |r| <= |s| && r == s[..|r|]
    ensures forall k :: |r| <= k < |s| ==> IsJsWhitespace(s[k])
    ensures |r| > 0 ==> !IsJsWhitespace(r[|r| - 1])
  {
    if |s| > 0 && IsJsWhitespace(s[|s| - 1]) then TrimEnd(s[..|s| - 1]) else s
  }

  /** `s.trim()` */
  function Trim(s: string): string
  {
    TrimEnd(TrimStart(s))
  }

  function LowerChar(ch: char): char
  {
    if 'A' <= ch <= 'Z' then (ch as int + 32) as char else ch
  }

  /** `s.toLowerCase()` on the ASCII letters; other code points are kept. */
  function AsciiLower(s: string): (r: string)
    ensures |r| == |s|
    ensures forall i :: 0 <= i < |s| ==> r[i] == LowerChar(s[i])
  {
    seq(|s|, i requires 0 <= i < |s| => LowerChar(s[i]))
  }

  /** `s.replace(new RegExp(pat, 'g'), rep)` for a pattern free of regular
      expression metacharacters and a replacement free of `$`: every
      leftmost, non-overlapping occurrence of `pat` is replaced. An empty
      pattern matches at every position, before each character and at the
      end. */
  function ReplaceAll(s: string, pat: string, rep: string): string
    decreases |s|
  {
    if |pat| == 0 then
      if |s| == 0 then rep else rep + [s[0]] + ReplaceAll(s[1..], pat, rep)
    else if |s| == 0 then ""
    else if StartsWith(s, pat) then rep + ReplaceAll(s[|pat|..], pat, rep)
    else [s[0]] + ReplaceAll(s[1..], pat, rep)
  }

  /** `pat` occurs in `s` at position `i`. */
  predicate OccursAt(s: string, pat: string, i: int) {
    0 <= i && i + |pat| <= |s| && s[i..i + |pat|] == pat
  }

  /** Text that does not contain the pattern passes through replacement
      unchanged: a name without a mapping is never rewritten. */
  lemma {:induction false} ReplaceAllAbsent(s: string, pat: string, rep: string)
    requires |pat| > 0
    requires forall i :: 0 <= i <= |s| ==> !OccursAt(s, pat, i)
    ensures ReplaceAll(s, pat, rep) == s
    decreases |s|
  {
    if |s| > 0 {
      assert !OccursAt(s, pat, 0);
      assert !StartsWith(s, pat);
      forall i | 0 <= i <= |s[1..]|
        ensures !OccursAt(s[1..], pat, i)
      {
        assert !OccursAt(s, pat, i + 1);
        if i + |pat| <= |s[1..]| {
          assert s[1..][i..i + |pat|] == s[i + 1..i + 1 + |pat|];
        }
      }
      ReplaceAllAbsent(s[1..], pat, rep);
    }
  }

  /** A single occurrence of `pat`, between text that cannot start
      another occurrence, is replaced and nothing else changes. */
  lemma {:induction false} ReplaceAllSingle(pre: string, pat: string, rep: string, post: string)
    requires |pat| > 0 && pat[0] !in pre && pat[0] !in post
    ensures ReplaceAll(pre + pat + post, pat, rep) == pre + rep + post
    decreases |pre|
  {
    if |pre| == 0 {
      assert pre + pat + post == pat + post;
      ReplaceAllLeading(pat, rep, post);
    } else {
      var s := pre + pat + post;
      var s' := pre[1..] + pat + post;
      assert s == [pre[0]] + s';
      ReplaceAllSkip(pre[0], s', pat, rep);
      ReplaceAllSingle(pre[1..], pat, rep, post);
      assert pre + rep + post == [pre[0]] + (pre[1..] + rep + post);
    }
  }

  lemma {:induction false} ReplaceAllSkip(c: char, t: string, pat: string, rep: string)
    requires |pat| > 0 && pat[0] != c
    ensures ReplaceAll([c] + t, pat, rep) == [c] + ReplaceAll(t, pat, rep)
  {
    assert ([c] + t)[1..] == t;
    assert !StartsWith([c] + t, pat);
  }

  lemma {:induction false} ReplaceAllLeading(pat: string, rep: string, post: string)
    requires |pat| > 0 && pat[0] !in post
    ensures ReplaceAll(pat + post, pat, rep) == rep + post
  {
    assert StartsWith(pat + post, pat);
    assert (pat + post)[|pat|..] == post;
    forall i | 0 <= i <= |post|
      ensures !OccursAt(post, pat, i)
    {
      if i + |pat| <= |post| {
        assert post[i..i + |pat|][0] == post[i];
      }
    }
    ReplaceAllAbsent(post, pat, rep);
  }

  /** Replacing with pattern and replacement both free of `c` keeps the
      number of `c` in the text. */
  lemma {:induction false} ReplaceAllKeepsCount(s: string, pat: string, rep: string, c: char)
    requires c !in pat && c !in rep
    ensures CountChar(ReplaceAll(s, pat, rep), c) == CountChar(s, c)
    decreases |s|
  {
    CountCharAbsent(pat, c);
    CountCharAbsent(rep, c);
    if |pat| == 0 {
      if |s| > 0 {
        ReplaceAllKeepsCount(s[1..], pat, rep, c);
        CountCharAppend(rep + [s[0]], ReplaceAll(s[1..], pat, rep), c);
        CountCharAppend(rep, [s[0]], c);
        assert s == [s[0]] + s[1..];
        CountCharAppend([s[0]], s[1..], c);
      }
    } else if |s| > 0 {
      if StartsWith(s, pat) {
        ReplaceAllKeepsCount(s[|pat|..], pat, rep, c);
        CountCharAppend(rep, ReplaceAll(s[|pat|..], pat, rep), c);
        assert s == pat + s[|pat|..];
        CountCharAppend(pat, s[|pat|..], c);
      } else {
        ReplaceAllKeepsCount(s[1..], pat, rep, c);
        CountCharAppend([s[0]], ReplaceAll(s[1..], pat, rep), c);
        assert s == [s[0]] + s[1..];
        CountCharAppend([s[0]], s[1..], c);
      }
    }
  }

  predicate IsDigit(ch: char) {
    '0' <= ch <= '9'
  }

  function DigitChar(d: nat): (ch: char)
    requires d < 10
    ensures IsDigit(ch)
  {
    ('0' as int + d) as char
  }

  /** Decimal text of a natural number, as `String(n)` prints an integer. */
  function NatToString(n: nat): (r: string)
    ensures |r| > 0
    ensures forall i :: 0 <= i < |r| ==> IsDigit(r[i])
    ensures r[0] == '0' ==> n == 0
  {
    if n < 10 then [DigitChar(n)] else NatToString(n / 10) + [DigitChar(n % 10)]
  }

  /** `String(i)` for an integer (in the range where JavaScript does not
      switch to exponent notation). */
  function IntToString(i: int): (r: string)
    ensures |r| > 0
  {
    if i < 0 then "-" + NatToString(-i) else NatToString(i)
  }

  /** The value of a string of decimal digits: the reference decoder for
      `NatToString`. */
  function DigitValue(ch: char): (d: nat)
    requires IsDigit(ch)
    ensures d < 10
  {
    ch as int - '0' as int
  }

  function DecimalValue(s: string): nat
    requires forall i :: 0 <= i < |s| ==> IsDigit(s[i])
  {
    if |s| == 0 then 0
    else DecimalValue(s[..|s| - 1]) * 10 + DigitValue(s[|s| - 1])
  }

  lemma {:induction false} NatToStringRoundTrip(n: nat)
    ensures DecimalValue(NatToString(n)) == n
  {
    if n >= 10 {
      var s := NatToString(n);
      assert s[..|s| - 1] == NatToString(n / 10);
      NatToStringRoundTrip(n / 10);
    }
  }

  /** Distinct numbers print as distinct text. */
  lemma {:induction false} NatToStringInjective(m: nat, n: nat)
    requires NatToString(m) == NatToString(n)
    ensures m == n
  {
    NatToStringRoundTrip(m);
    NatToStringRoundTrip(n);
  }
}
