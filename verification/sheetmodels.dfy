/** The A1-notation range parser of src/google/sheets/models.ts and the
    request/result shapes exchanged with the spreadsheet transport. */
module SheetModels {
  import opened Strings
  import opened Values
  import opened Columns

  /** `A1Range`: an address split into sheet name and first/last cell. */
  datatype A1Range = A1Range(original: string, sheetName: string, fromCell: string, toCell: string)

  /** The `A1Range` constructor: split at the first `!` (sheet separator)
      and at the first `:` (range separator); a missing separator means no
      sheet name, or a single cell. */
  function ParseA1Range(s: string): (r: A1Range)
    ensures r.original == s
  {
    var e := IndexOf(s, '!');
    var c := IndexOf(s, ':');
    if e == -1 then
      if c == -1 then A1Range(s, "", s, s)
      else A1Range(s, "", Substring(s, 0, c), Substring(s, c + 1, |s|))
    else
      if c == -1 then A1Range(s, Substring(s, 0, e), Substring(s, e + 1, |s|), Substring(s, e + 1, |s|))
      else A1Range(s, Substring(s, 0, e), Substring(s, e + 1, c), Substring(s, c + 1, |s|))
  }

  lemma {:induction false} SplitAround(s: string, i: int)
    requires 0 <= i < |s|
    ensures s == s[..i] + [s[i]] + s[i + 1..]
  {
  }

  /** Without separators the text is one cell on the default sheet. */
  lemma {:induction false} ParseA1RangeCell(s: string)
    requires '!' !in s && ':' !in s
    ensures ParseA1Range(s) == A1Range(s, "", s, s)
  {
  }

  /** With only `:`, the text is split at it into the two cells. */
  lemma {:induction false} ParseA1RangeUnqualified(s: string)
    requires '!' !in s && ':' in s
    ensures ParseA1Range(s).sheetName == ""
    ensures s == ParseA1Range(s).fromCell + ":" + ParseA1Range(s).toCell
    ensures ':' !in ParseA1Range(s).fromCell
  {
    SplitAround(s, IndexOf(s, ':'));
  }

  /** With only `!`, the text is split at it into sheet name and a single
      cell that is both ends of the range. */
  lemma {:induction false} ParseA1RangeQualifiedCell(s: string)
    requires '!' in s && ':' !in s
    ensures s == ParseA1Range(s).sheetName + "!" + ParseA1Range(s).fromCell
    ensures '!' !in ParseA1Range(s).sheetName
    ensures ParseA1Range(s).toCell == ParseA1Range(s).fromCell
  {
    SplitAround(s, IndexOf(s, '!'));
  }

  /** With `!` before `:`, the text is sheet name, first cell and last
      cell, separated at the first occurrences. */
  lemma {:induction false} ParseA1RangeQualified(s: string)
    requires '!' in s && ':' in s && IndexOf(s, '!') < IndexOf(s, ':')
    ensures s == ParseA1Range(s).sheetName + "!" + ParseA1Range(s).fromCell + ":" + ParseA1Range(s).toCell
    ensures '!' !in ParseA1Range(s).sheetName
    ensures ':' !in ParseA1Range(s).sheetName + ParseA1Range(s).fromCell
  {
    var e := IndexOf(s, '!');
    var c := IndexOf(s, ':');
    var r := ParseA1Range(s);
    assert r.sheetName == s[..e] && r.fromCell == s[e + 1..c] && r.toCell == s[c + 1..];
    var pre := s[..c];
    assert ':' !in pre;
    SplitAround(pre, e);
    assert pre[..e] == s[..e] && pre[e] == '!' && pre[e + 1..] == s[e + 1..c];
    SplitAround(s, c);
    assert s == pre + ":" + s[c + 1..];
    AbsentAroundSplit(pre, e, ':');
  }

  /** A character missing from a text is missing from the text with one
      position cut out. */
  lemma {:induction false} AbsentAroundSplit(t: string, i: int, ch: char)
    requires 0 <= i < |t| && ch !in t
    ensures ch !in t[..i] + t[i + 1..]
  {
    var u := t[..i] + t[i + 1..];
    forall k | 0 <= k < |u| ensures u[k] != ch {
      if k < i {
        assert u[k] == t[k];
      } else {
        assert u[k] == t[k + 1];
      }
    }
  }

  /** With `:` before `!` JSFreeDB's `substring` swaps its bounds: the
      first cell is the text from the `:` up to and including the `!`. */
  lemma {:induction false} ParseA1RangeSwapped(s: string)
    requires '!' in s && ':' in s && IndexOf(s, ':') < IndexOf(s, '!')
    ensures ParseA1Range(s).sheetName == s[..IndexOf(s, '!')]
    ensures ParseA1Range(s).fromCell == s[IndexOf(s, ':')..IndexOf(s, '!') + 1]
    ensures ParseA1Range(s).toCell == s[IndexOf(s, ':') + 1..]
  {
  }

  /** `A1Range.toString()`: the text it was parsed from. */
  function ToString(r: A1Range): string
  {
    r.original
  }

  /** Parsing a sheet-qualified rectangular range recovers its three parts,
      and printing it gives the text back. */
  lemma {:induction false} QualifiedRangeRoundTrip(sheet: string, from: string, to: string)
    requires '!' !in sheet && ':' !in sheet
    requires '!' !in from && ':' !in from && '!' !in to
    ensures ParseA1Range(GetA1Range(sheet, from + ":" + to))
      == A1Range(GetA1Range(sheet, from + ":" + to), sheet, from, to)
  {
    var range := from + ":" + to;
    var s := GetA1Range(sheet, range);
    var e := |sheet|;
    var c := |sheet| + 1 + |from|;
    assert range[..|from|] == from && range[|from|] == ':' && range[|from| + 1..] == to;
    assert s[e + 1..] == range;
    assert s[e + 1..c] == from by {
      assert s[e + 1..c] == s[e + 1..][..|from|];
    }
    assert s[c] == ':' by {
      assert s[c] == s[e + 1..][|from|];
    }
    assert s[c + 1..] == to by {
      assert s[c + 1..] == s[e + 1..][|from| + 1..];
    }
    IndexOfAt(s, e, '!');
    assert s[..c] == s[..e] + [s[e]] + s[e + 1..c];
    assert ':' !in s[..c];
    IndexOfAt(s, c, ':');
    ParseA1RangeAt(s, e, c);
  }

  /** With the first `!` before the first `:`, the parts are the slices
      between them. */
  lemma {:induction false} ParseA1RangeAt(s: string, e: int, c: int)
    requires 0 <= e < c < |s| && IndexOf(s, '!') == e && IndexOf(s, ':') == c
    ensures ParseA1Range(s) == A1Range(s, s[..e], s[e + 1..c], s[c + 1..])
  {
  }

  /** A position holding the first occurrence of a character is what
      `indexOf` finds. */
  lemma {:induction false} IndexOfAt(s: string, i: int, ch: char)
    requires 0 <= i < |s| && s[i] == ch && ch !in s[..i]
    ensures IndexOf(s, ch) == i
  {
    assert ch in s;
  }

  /** Parsing a sheet-qualified single cell gives that cell as both ends. */
  lemma {:induction false} QualifiedCellRoundTrip(sheet: string, cell: string)
    requires '!' !in sheet && ':' !in sheet && ':' !in cell
    ensures ParseA1Range(GetA1Range(sheet, cell)) == A1Range(GetA1Range(sheet, cell), sheet, cell, cell)
  {
    var s := GetA1Range(sheet, cell);
    assert s[|sheet|] == '!';
    assert s[..|sheet|] == sheet;
    assert s[|sheet| + 1..] == cell;
    assert ':' !in s by {
      assert s == sheet + "!" + cell;
    }
  }

  /** An unqualified rectangular range parses to its two cells. */
  lemma {:induction false} RangeRoundTrip(from: string, to: string)
    requires '!' !in from && ':' !in from && '!' !in to
    ensures ParseA1Range(from + ":" + to) == A1Range(from + ":" + to, "", from, to)
  {
    var s := from + ":" + to;
    assert s[|from|] == ':';
    assert s[..|from|] == from;
    assert s[|from| + 1..] == to;
    assert '!' !in s by {
      forall x | x in s ensures x != '!' {
        assert x in from || x == ':' || x in to;
      }
    }
  }

  /** The cases of JSFreeDB's unit tests, including the empty string. */
  lemma {:induction false} ParseA1RangeExamples()
    ensures ParseA1Range("A1") == A1Range("A1", "", "A1", "A1")
    ensures ParseA1Range("A1:A2") == A1Range("A1:A2", "", "A1", "A2")
    ensures ParseA1Range("Sheet1!A1") == A1Range("Sheet1!A1", "Sheet1", "A1", "A1")
    ensures ParseA1Range("Sheet1!A1:A2") == A1Range("Sheet1!A1:A2", "Sheet1", "A1", "A2")
    ensures ParseA1Range("") == A1Range("", "", "", "")
  {
    QualifiedRangeExample();
    QualifiedCellExample();
    RangeExample();
    CellExample();
    ParseA1RangeCell("");
  }

  lemma {:induction false} CellExample()
    ensures ParseA1Range("A1") == A1Range("A1", "", "A1", "A1")
  {
    assert '!' !in "A1" && ':' !in "A1";
    ParseA1RangeCell("A1");
  }

  lemma {:induction false} QualifiedRangeExample()
    ensures ParseA1Range("Sheet1!A1:A2") == A1Range("Sheet1!A1:A2", "Sheet1", "A1", "A2")
  {
    var q := GetA1Range("Sheet1", "A1" + ":" + "A2");
    assert q == "Sheet1!A1:A2";
    QualifiedRangeRoundTrip("Sheet1", "A1", "A2");
  }

  lemma {:induction false} QualifiedCellExample()
    ensures ParseA1Range("Sheet1!A1") == A1Range("Sheet1!A1", "Sheet1", "A1", "A1")
  {
    var c := GetA1Range("Sheet1", "A1");
    assert c == "Sheet1!A1";
    QualifiedCellRoundTrip("Sheet1", "A1");
  }

  lemma {:induction false} RangeExample()
    ensures ParseA1Range("A1:A2") == A1Range("A1:A2", "", "A1", "A2")
  {
    var u := "A1" + ":" + "A2";
    assert u == "A1:A2";
    RangeRoundTrip("A1", "A2");
  }

  /** `BatchUpdateRowsRequest`: one range and the rows written into it. */
  datatype BatchUpdateRowsRequest = BatchUpdateRowsRequest(a1Range: string, values: seq<seq<Value>>)
}
