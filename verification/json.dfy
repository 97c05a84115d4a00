/** `JSON.stringify` applied to a string, and a reference decoder for the
    string literals it produces (the string grammar of section 7 of RFC 8259).
    The decoder reads every literal back as the string it came from. The
    query backend reads a string literal as the text between its quotes,
    with no escapes, so it agrees with the decoder only on text that needs
    no escape: no `"`, no `\` and no character below U+0020. */
module Json {
  import opened Wrappers

  function HexDigit(d: nat): (ch: char)
    requires d < 16
  {
    if d < 10 then ('0' as int + d) as char else ('a' as int + d - 10) as char
  }

  function HexValue(ch: char): (r: Option<nat>)
    ensures r.Some? ==> r.value < 16
  {
    if '0' <= ch <= '9' then Some(ch as int - '0' as int)
    else if 'a' <= ch <= 'f' then Some(ch as int - 'a' as int + 10)
    else if 'A' <= ch <= 'F' then Some(ch as int - 'A' as int + 10)
    else None
  }

  /** How `JSON.stringify` writes one code point inside a string literal:
      the quote and backslash are escaped, the five control characters with a
      short form use it, the other control characters use a lower-case
      `\u00XX`, and everything else is written as it is. */
  function EscapeChar(c: char): string
  {
    if c == '"' then "\\\""
    else if c == '\\' then "\\\\"
    else if c as int == 8 then "\\b"
    else if c as int == 12 then "\\f"
    else if c == '\n' then "\\n"
    else if c == '\r' then "\\r"
    else if c == '\t' then "\\t"
    else if (c as int) < 0x20 then "\\u00" + [HexDigit(c as int / 16), HexDigit(c as int % 16)]
    else [c]
  }

  function EscapeBody(s: string): string
  {
    if |s| == 0 then "" else EscapeChar(s[0]) + EscapeBody(s[1..])
  }

  /** `JSON.stringify(s)` for a string `s`. */
  function Quote(s: string): (r: string)
    ensures |r| >= 2 && r[0] == '"' && r[|r| - 1] == '"'
  {
    "\"" + EscapeBody(s) + "\""
  }

  /** Text that `JSON.stringify` leaves as it is between the quotes. */
  predicate NeedsNoEscape(s: string) {
    forall i :: 0 <= i < |s| ==> s[i] != '"' && s[i] != '\\' && s[i] as int >= 0x20
  }

  /** Text that needs no escape travels verbatim between the quotes, so a
      reader without escapes sees exactly that text. */
  lemma {:induction false} EscapeBodyPlain(s: string)
    requires NeedsNoEscape(s)
    ensures EscapeBody(s) == s
    ensures Quote(s) == "\"" + s + "\""
    decreases |s|
  {
    if |s| > 0 {
      assert NeedsNoEscape(s[1..]) by {
        assert forall i :: 0 <= i < |s[1..]| ==> s[1..][i] == s[i + 1];
      }
      EscapeBodyPlain(s[1..]);
      assert EscapeChar(s[0]) == [s[0]];
      assert s == [s[0]] + s[1..];
    }
  }

  function Prepend(c: char, o: Option<string>): Option<string>
  {
    match o
    case None => None
    case Some(r) => Some([c] + r)
  }

  /** The character a two-character escape `\e` stands for. */
  function ShortEscape(e: char): Option<char>
  {
    if e == '"' then Some('"')
    else if e == '\\' then Some('\\')
    else if e == '/' then Some('/')
    else if e == 'b' then Some(8 as char)
    else if e == 'f' then Some(12 as char)
    else if e == 'n' then Some('\n')
    else if e == 'r' then Some('\r')
    else if e == 't' then Some('\t')
    else None
  }

  function Hex4(h: string): (r: Option<nat>)
    requires |h| == 4
    ensures r.Some? ==> r.value < 0x10000
  {
    match (HexValue(h[0]), HexValue(h[1]), HexValue(h[2]), HexValue(h[3]))
    case (Some(a), Some(b), Some(c), Some(d)) => Some(((a * 16 + b) * 16 + c) * 16 + d)
    case _ => None
  }

  /** Decodes the body of a JSON string literal; `None` when it is not a
      well-formed body (a bare quote or control character, a bad escape, or
      a `\u` escape naming a surrogate). */
  function Unescape(t: string): Option<string>
    decreases |t|
  {
    if |t| == 0 then Some("")
    else if t[0] == '\\' then
      if |t| < 2 then None
      else if t[1] == 'u' then
        if |t| < 6 then None
        else match Hex4(t[2..6])
          case None => None
          case Some(v) =>
            if v < 0xD800 || 0xE000 <= v then Prepend(v as char, Unescape(t[6..])) else None
      else match ShortEscape(t[1])
        case None => None
        case Some(c) => Prepend(c, Unescape(t[2..]))
    else if t[0] == '"' || (t[0] as int) < 0x20 then None
    else Prepend(t[0], Unescape(t[1..]))
  }

  /** Parses a complete JSON string literal. */
  function Unquote(q: string): Option<string>
  {
    if |q| >= 2 && q[0] == '"' && q[|q| - 1] == '"' then Unescape(q[1..|q| - 1]) else None
  }

  lemma {:induction false} HexRoundTrip(d: nat)
    requires d < 16
    ensures HexValue(HexDigit(d)) == Some(d)
  {
  }

  lemma {:induction false} UnescapeChar(c: char, rest: string)
    ensures Unescape(EscapeChar(c) + rest) == Prepend(c, Unescape(rest))
  {
    var t := EscapeChar(c) + rest;
    if c == '"' || c == '\\' || c as int == 8 || c as int == 12 || c == '\n' || c == '\r' || c == '\t' {
      assert t[2..] == rest;
    } else if (c as int) < 0x20 {
      var k := c as int;
      HexRoundTrip(k / 16);
      HexRoundTrip(k % 16);
      assert t[2..6] == ['0', '0', HexDigit(k / 16), HexDigit(k % 16)];
      assert t[6..] == rest;
      assert (k as char) == c;
    } else {
      assert t[1..] == rest;
    }
  }

  lemma {:induction false} UnescapeBody(s: string)
    ensures Unescape(EscapeBody(s)) == Some(s)
  {
    if |s| > 0 {
      UnescapeChar(s[0], EscapeBody(s[1..]));
      UnescapeBody(s[1..]);
      assert [s[0]] + s[1..] == s;
    }
  }

  /** Round trip: the literal `JSON.stringify` writes decodes to the string
      it was made from, for every string. */
  lemma {:induction false} QuoteRoundTrip(s: string)
    ensures Unquote(Quote(s)) == Some(s)
  {
    var q := Quote(s);
    assert q[1..|q| - 1] == EscapeBody(s);
    UnescapeBody(s);
  }

  /** Quoting is injective: distinct arguments give distinct literals. */
  lemma {:induction false} QuoteInjective(s: string, t: string)
    requires Quote(s) == Quote(t)
    ensures s == t
  {
    QuoteRoundTrip(s);
    QuoteRoundTrip(t);
  }
}
