/**
 * String operations of the JavaScript runtime that the front end relies on,
 * stated over `seq<char>`.
 */
module Strings {

  /** The characters `String.prototype.trim` removes: WhiteSpace and LineTerminator of ECMAScript. */
  predicate IsWhitespace(c: char) {
    c == ' ' || c == '\t' || c == '\n' || c == '\r' || c == '\U{000B}' || c == '\U{000C}'
    || c == '\U{00A0}' || c == '\U{1680}' || ('\U{2000}' <= c <= '\U{200A}')
    || c == '\U{2028}' || c == '\U{2029}' || c == '\U{202F}' || c == '\U{205F}'
    || c == '\U{3000}' || c == '\U{FEFF}'
  }

  predicate AllWhitespace(s: string) {
    forall i :: 0 <= i < |s| ==> IsWhitespace(s[i])
  }

  /** Drops leading whitespace: the result is a suffix of `s` and everything dropped is whitespace. */
  function TrimStart(s: string): (r: string)
    ensures |r| <= |s| && r == s[|s| - |r|..]
    ensures AllWhitespace(s[..|s| - |r|])
    ensures r == [] || !IsWhitespace(r[0])
    decreases |s|
  {
    if s != [] && IsWhitespace(s[0]) then
      var t := TrimStart(s[1..]);
      assert s[..|s| - |t|] == [s[0]] + s[1..][..|s| - 1 - |t|];
      t
    else s
  }

  /** Drops trailing whitespace: the result is a prefix of `s` and everything dropped is whitespace. */
  function TrimEnd(s: string): (r: string)
    ensures |r| <= |s| && r == s[..|r|]
    ensures AllWhitespace(s[|r|..])
    ensures r == [] || !IsWhitespace(r[|r| - 1])
    decreases |s|
  {
    if s != [] && IsWhitespace(s[|s| - 1]) then
      var t := TrimEnd(s[..|s| - 1]);
      assert s[|t|..] == s[..|s| - 1][|t|..] + [s[|s| - 1]];
      t
    else s
  }

  /** Neither end of `t` is whitespace, as after a trim. */
  predicate Trimmed(t: string) {
    t == [] || (!IsWhitespace(t[0]) && !IsWhitespace(t[|t| - 1]))
  }

  /** `r` occurs in `s` at `k` with nothing but whitespace before and after it. */
  predicate WhitespaceAround(s: string, r: string, k: int) {
    OccursAt(s, r, k) && AllWhitespace(s[..k]) && AllWhitespace(s[k + |r|..])
  }

  /** `String.prototype.trim`: the slice of `s` left once its leading and trailing
      whitespace are removed; it neither starts nor ends with whitespace, and it is empty
      exactly when `s` is all whitespace. `TrimUnique` shows these facts fix the result. */
  function Trim(s: string): (r: string)
    ensures exists k :: WhitespaceAround(s, r, k)
    ensures Trimmed(r)
    ensures r == [] <==> AllWhitespace(s)
  {
    var a := TrimStart(s);
    var r := TrimEnd(a);
    TrimSlice(s, a, r);
    assert WhitespaceAround(s, r, |s| - |a|);
    r
  }

  /** What `Trim` needs from its two halves, stated on the slices alone. */
  lemma TrimSlice(s: string, a: string, r: string)
    requires |a| <= |s| && a == s[|s| - |a|..] && AllWhitespace(s[..|s| - |a|])
    requires a == [] || !IsWhitespace(a[0])
    requires |r| <= |a| && r == a[..|r|] && AllWhitespace(a[|r|..])
    ensures OccursAt(s, r, |s| - |a|)
    ensures AllWhitespace(s[..|s| - |a|]) && AllWhitespace(s[|s| - |a| + |r|..])
    ensures r == [] || !IsWhitespace(r[0])
    ensures r == [] <==> AllWhitespace(s)
  {
    var k := |s| - |a|;
    assert s[k + |r|..] == a[|r|..];
    if r == [] {
      assert a[|r|..] == a;
      assert a == [];
      assert s[..k] == s;
    } else {
      assert r[0] == a[0];
      assert s[k] == a[0];
    }
  }

  /** An all-whitespace prefix, index by index. */
  lemma PrefixWhitespace(s: string, k: int)
    requires 0 <= k <= |s| && AllWhitespace(s[..k])
    ensures forall i :: 0 <= i < k ==> IsWhitespace(s[i])
  {
    forall i | 0 <= i < k ensures IsWhitespace(s[i]) {
      assert s[..k][i] == s[i];
    }
  }

  /** An all-whitespace suffix, index by index. */
  lemma SuffixWhitespace(s: string, e: int)
    requires 0 <= e <= |s| && AllWhitespace(s[e..])
    ensures forall i :: e <= i < |s| ==> IsWhitespace(s[i])
  {
    forall i | e <= i < |s| ensures IsWhitespace(s[i]) {
      assert s[e..][i - e] == s[i];
    }
  }

  /** Whitespace on both sides of an empty slice makes all of `s` whitespace. */
  lemma FlanksCover(s: string, k: int)
    requires 0 <= k <= |s| && AllWhitespace(s[..k]) && AllWhitespace(s[k..])
    ensures AllWhitespace(s)
  {
    assert s == s[..k] + s[k..];
  }

  /** The two end characters of a non-empty slice, read off `s`. */
  lemma SliceEnds(s: string, t: string, k: int)
    requires OccursAt(s, t, k) && t != []
    ensures s[k] == t[0] && s[k + |t| - 1] == t[|t| - 1]
  {
    assert s[k..k + |t|][0] == s[k];
    assert s[k..k + |t|][|t| - 1] == s[k + |t| - 1];
  }

  /** Two non-empty slices with whitespace alone around them and none at their ends are
      the same slice. */
  lemma SameTrimmedSlice(s: string, t: string, k: int, u: string, m: int)
    requires WhitespaceAround(s, t, k) && t != [] && Trimmed(t)
    requires WhitespaceAround(s, u, m) && u != [] && Trimmed(u)
    ensures t == u
  {
    SliceEnds(s, t, k);
    SliceEnds(s, u, m);
    PrefixWhitespace(s, k);
    PrefixWhitespace(s, m);
    SuffixWhitespace(s, k + |t|);
    SuffixWhitespace(s, m + |u|);
    assert k == m && |t| == |u|;
  }

  /** The trim is the only slice of `s` with whitespace alone around it and none at its
      ends: any such slice is `Trim(s)`. */
  lemma TrimUnique(s: string, t: string, k: int)
    requires WhitespaceAround(s, t, k) && Trimmed(t)
    ensures t == Trim(s)
  {
    if t == [] {
      FlanksCover(s, k);
    } else {
      SliceEnds(s, t, k);
      assert !IsWhitespace(s[k]);
      var r := Trim(s);
      var m :| WhitespaceAround(s, r, m);
      SameTrimmedSlice(s, t, k, r, m);
    }
  }

  /** `String.prototype.toLowerCase` on the ASCII letters `A`-`Z`. */
  function LowerChar(c: char): char {
    if 'A' <= c <= 'Z' then (c as int + 32) as char else c
  }

  function ToLower(s: string): string {
    seq(|s|, i requires 0 <= i < |s| => LowerChar(s[i]))
  }

  /** `s.startsWith(p)`. */
  predicate StartsWith(s: string, p: string) {
    |p| <= |s| && s[..|p|] == p
  }

  /** `needle` occurs in `hay` starting at index `i`. */
  predicate OccursAt(hay: string, needle: string, i: int) {
    0 <= i && i + |needle| <= |hay| && hay[i..i + |needle|] == needle
  }

  /** `hay.includes(needle)`: true exactly when `needle` occurs somewhere in `hay`. */
  function Includes(hay: string, needle: string): (r: bool)
    ensures r <==> exists i :: OccursAt(hay, needle, i)
    decreases |hay|
  {
    if StartsWith(hay, needle) then
      assert OccursAt(hay, needle, 0);
      true
    else if hay == [] then
      false
    else
      var rest := Includes(hay[1..], needle);
      if rest then
        var j :| OccursAt(hay[1..], needle, j);
        assert OccursAt(hay, needle, j + 1) by {
          assert hay[j + 1..j + 1 + |needle|] == hay[1..][j..j + |needle|];
        }
        true
      else
        assert !OccursAt(hay, needle, 0) by {
          if |needle| <= |hay| { assert hay[..|needle|] == hay[0..|needle|]; }
        }
        forall i | OccursAt(hay, needle, i) && i >= 1 ensures OccursAt(hay[1..], needle, i - 1) {
          assert hay[1..][i - 1..i - 1 + |needle|] == hay[i..i + |needle|];
        }
        false
  }

  /** The empty string occurs in every string. */
  lemma IncludesEmpty(hay: string)
    ensures Includes(hay, "")
  {
    assert OccursAt(hay, "", 0);
  }

  /** A string that does not start with whitespace keeps its start. */
  lemma TrimStartClean(s: string)
    requires s == [] || !IsWhitespace(s[0])
    ensures TrimStart(s) == s
  {
  }

  /** A string that neither starts nor ends with whitespace is its own trim. */
  lemma TrimClean(s: string)
    requires Trimmed(s)
    ensures Trim(s) == s
  {
    assert TrimStart(s) == s;
    assert TrimEnd(s) == s;
  }
}
