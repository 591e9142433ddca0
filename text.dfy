/**
 * The three string primitives the dispatcher relies on: `toLowerCase`,
 * `trim` and `includes` of JavaScript strings, as functions on `string`
 * (a sequence of Unicode scalar values).
 */
module Text {

  /** ECMAScript WhiteSpace and LineTerminator code points: exactly what `trim` strips. */
  predicate IsWhitespace(c: char) {
    || c == '\t' || c == '\n' || c == '\U{000B}' || c == '\U{000C}' || c == '\r' || c == ' '
    || c == '\U{00A0}' || c == '\U{1680}' || ('\U{2000}' <= c <= '\U{200A}')
    || c == '\U{2028}' || c == '\U{2029}' || c == '\U{202F}' || c == '\U{205F}'
    || c == '\U{3000}' || c == '\U{FEFF}'
  }

  predicate AllWhitespace(s: string) {
    forall i :: 0 <= i < |s| ==> IsWhitespace(s[i])
  }

  /** Leading whitespace removed: the longest suffix of `s` that does not start with whitespace. */
  function TrimStart(s: string): (r: string)
    ensures |r| <= |s| && r == s[|s| - |r|..]
    ensures AllWhitespace(s[..|s| - |r|])
    ensures r == [] || !IsWhitespace(r[0])
  {
    if s != [] && IsWhitespace(s[0]) then
      var r := TrimStart(s[1..]);
      StripFirst(s, r);
      r
    else
      s
  }

  /** A trimmed suffix of `s[1..]` is a suffix of `s`, and a leading whitespace joins what was dropped. */
  lemma StripFirst(s: string, r: string)
    requires s != [] && IsWhitespace(s[0])
    requires |r| <= |s| - 1 && r == s[1..][|s| - 1 - |r|..]
    requires AllWhitespace(s[1..][..|s| - 1 - |r|])
    ensures |r| <= |s| && r == s[|s| - |r|..]
    ensures AllWhitespace(s[..|s| - |r|])
  {
    assert s[..|s| - |r|] == [s[0]] + s[1..][..|s| - 1 - |r|];
  }

  /** Trailing whitespace removed: the longest prefix of `s` that does not end with whitespace. */
  function TrimEnd(s: string): (r: string)
    ensures |r| <= |s| && r == s[..|r|]
    ensures AllWhitespace(s[|r|..])
    ensures r == [] || !IsWhitespace(r[|r| - 1])
  {
    if s != [] && IsWhitespace(s[|s| - 1]) then
      var r := TrimEnd(s[..|s| - 1]);
      assert s[|r|..] == s[..|s| - 1][|r|..] + [s[|s| - 1]];
      r
    else
      s
  }

  /** `r` occurs in `s` at position `lo` with nothing but whitespace before and after it. */
  predicate PaddedAt(s: string, lo: int, r: string) {
    && 0 <= lo && lo + |r| <= |s| && s[lo..lo + |r|] == r
    && AllWhitespace(s[..lo]) && AllWhitespace(s[lo + |r|..])
  }

  /**
   * `String.prototype.trim`: the result sits inside `s` with only whitespace
   * before and after it, and neither starts nor ends with whitespace.
   */
  function Trim(s: string): (r: string)
    ensures r == [] || (!IsWhitespace(r[0]) && !IsWhitespace(r[|r| - 1]))
    ensures exists lo :: PaddedAt(s, lo, r)
  {
    var t := TrimStart(s);
    var r := TrimEnd(t);
    PaddedInside(s, |s| - |t|, t, r);
    r
  }

  /** A prefix `r` of the suffix `t` of `s`, with whitespace around it, is padded in `s`. */
  lemma PaddedInside(s: string, lo: int, t: string, r: string)
    requires 0 <= lo <= |s| && t == s[lo..] && AllWhitespace(s[..lo])
    requires |r| <= |t| && r == t[..|r|] && AllWhitespace(t[|r|..])
    ensures PaddedAt(s, lo, r)
  {
    assert s[lo..lo + |r|] == t[..|r|];
    assert s[lo + |r|..] == t[|r|..];
  }

  /** The code points whose JavaScript lower case differs from themselves and contains an ASCII letter. */
  predicate HasAsciiLowering(c: char) {
    ('A' <= c <= 'Z') || c == '\U{0130}' || c == '\U{212A}'
  }

  /** Lower case of one code point: A-Z, LATIN CAPITAL I WITH DOT ABOVE (to "i" and a combining dot) and KELVIN SIGN (to "k"). */
  function LowerChar(c: char): string {
    if 'A' <= c <= 'Z' then [(c as int + 32) as char]
    else if c == '\U{0130}' then "i\U{0307}"
    else if c == '\U{212A}' then "k"
    else [c]
  }

  /**
   * `String.prototype.toLowerCase`, restricted to the code points whose lower
   * case holds an ASCII letter. The result has none of them left, and a string
   * without any of them is its own lower case.
   */
  function ToLower(s: string): (r: string)
    ensures |r| >= |s|
    ensures forall i :: 0 <= i < |r| ==> !HasAsciiLowering(r[i])
    ensures (forall i :: 0 <= i < |s| ==> !HasAsciiLowering(s[i])) ==> r == s
    ensures (forall i :: 0 <= i < |s| ==> s[i] != '\U{0130}') ==>
      |r| == |s| && forall i :: 0 <= i < |s| ==> [r[i]] == LowerChar(s[i])
  {
    if s == [] then [] else
      var rest := ToLower(s[1..]);
      assert forall i :: 1 <= i < |s| ==> s[i] == s[1..][i - 1];
      LowerChar(s[0]) + rest
  }

  /** Trimming a string with no upper-case letter leaves none. */
  lemma TrimKeepsLowered(l: string)
    requires forall i :: 0 <= i < |l| ==> !HasAsciiLowering(l[i])
    ensures forall i :: 0 <= i < |Trim(l)| ==> !HasAsciiLowering(Trim(l)[i])
  {
    var m := Trim(l);
    var lo :| PaddedAt(l, lo, m);
    forall i | 0 <= i < |m|
      ensures !HasAsciiLowering(m[i])
    {
      assert m[i] == l[lo + i];
    }
  }

  /** `pat` occurs in `s` starting at index `i`. */
  predicate OccursAt(s: string, pat: string, i: int) {
    0 <= i && i + |pat| <= |s| && s[i..i + |pat|] == pat
  }

  /** `String.prototype.includes`: `pat` occurs in `s` at some position. */
  function Contains(s: string, pat: string): (r: bool)
    ensures r <==> exists i :: OccursAt(s, pat, i)
  {
    if pat <= s then
      assert OccursAt(s, pat, 0);
      true
    else if s == [] then
      false
    else
      var r := Contains(s[1..], pat);
      assert forall i :: OccursAt(s, pat, i) ==> i >= 1 && OccursAt(s[1..], pat, i - 1);
      assert forall i :: OccursAt(s[1..], pat, i) ==> OccursAt(s, pat, i + 1);
      r
  }

  lemma {:induction false} ToLowerAppend(a: string, b: string)
    ensures ToLower(a + b) == ToLower(a) + ToLower(b)
  {
    if a != [] {
      assert (a + b)[1..] == a[1..] + b;
      ToLowerAppend(a[1..], b);
    } else {
      assert a + b == b;
    }
  }

  /** Strings that agree letter by letter up to case have the same lower case. */
  lemma {:induction false} SameLowering(s: string, t: string)
    requires |s| == |t|
    requires forall i :: 0 <= i < |s| ==> LowerChar(s[i]) == LowerChar(t[i])
    ensures ToLower(s) == ToLower(t)
  {
    if s != [] {
      SameLowering(s[1..], t[1..]);
    }
  }

  /** Lower-casing twice is lower-casing once. */
  lemma ToLowerIdempotent(s: string)
    ensures ToLower(ToLower(s)) == ToLower(s)
  {
  }

  /** Whitespace has no case: lower-casing leaves it as it is. */
  lemma ToLowerWhitespace(s: string)
    requires AllWhitespace(s)
    ensures ToLower(s) == s
  {
  }

  lemma {:induction false} TrimStartPadding(a: string, s: string)
    requires AllWhitespace(a)
    ensures TrimStart(a + s) == TrimStart(s)
  {
    if a == [] {
      assert a + s == s;
    } else {
      assert (a + s)[1..] == a[1..] + s;
      TrimStartPadding(a[1..], s);
    }
  }

  lemma {:induction false} TrimEndPadding(s: string, b: string)
    requires AllWhitespace(b)
    ensures TrimEnd(s + b) == TrimEnd(s)
  {
    if b == [] {
      assert s + b == s;
    } else {
      assert (s + b)[..|s + b| - 1] == s + b[..|b| - 1];
      TrimEndPadding(s, b[..|b| - 1]);
    }
  }

  lemma {:induction false} TrimStartAppend(s: string, b: string)
    requires !AllWhitespace(s)
    ensures TrimStart(s + b) == TrimStart(s) + b
  {
    assert s != [];
    if IsWhitespace(s[0]) {
      assert (s + b)[1..] == s[1..] + b;
      TrimStartAppend(s[1..], b);
    }
  }

  lemma TrimStartAllWhitespace(s: string)
    requires AllWhitespace(s)
    ensures TrimStart(s) == []
  {
  }

  /** A string with no whitespace at either end is its own trim. */
  lemma TrimUnpadded(s: string)
    requires s != [] && !IsWhitespace(s[0]) && !IsWhitespace(s[|s| - 1])
    ensures Trim(s) == s
  {
    assert TrimStart(s) == s;
    assert TrimEnd(s) == s;
  }

  /** Whitespace around a string does not change what `trim` returns. */
  lemma TrimPadding(a: string, s: string, b: string)
    requires AllWhitespace(a) && AllWhitespace(b)
    ensures Trim(a + s + b) == Trim(s)
  {
    var t := TrimStart(a + s + b);
    assert t == TrimStart(s + b) by {
      assert a + s + b == a + (s + b);
      TrimStartPadding(a, s + b);
    }
    if AllWhitespace(s) {
      assert AllWhitespace(s + b);
      TrimStartAllWhitespace(s + b);
      TrimStartAllWhitespace(s);
    } else {
      calc {
        TrimEnd(t);
        { TrimStartAppend(s, b); }
        TrimEnd(TrimStart(s) + b);
        { TrimEndPadding(TrimStart(s), b); }
        TrimEnd(TrimStart(s));
      }
    }
  }

  /** Trimming a trimmed string changes nothing. */
  lemma TrimIdempotent(s: string)
    ensures Trim(Trim(s)) == Trim(s)
  {
  }

  /** A pattern holding a character that `s` lacks does not occur in `s`. */
  lemma MissingCharBlocks(s: string, pat: string, c: char)
    requires c in pat && c !in s
    ensures !Contains(s, pat)
  {
    var j :| 0 <= j < |pat| && pat[j] == c;
    forall i | 0 <= i && i + |pat| <= |s|
      ensures !OccursAt(s, pat, i)
    {
      assert s[i..i + |pat|][j] == s[i + j] != c;
    }
  }

  /** An occurrence of an occurrence is an occurrence. */
  lemma ContainsTransitive(s: string, p: string, q: string)
    requires Contains(s, p) && Contains(p, q)
    ensures Contains(s, q)
  {
    var i :| OccursAt(s, p, i);
    var j :| OccursAt(p, q, j);
    forall k | 0 <= k < |q|
      ensures s[i + j + k] == q[k]
    {
      assert q[k] == p[j..j + |q|][k] == p[j + k];
      assert p[j + k] == s[i..i + |p|][j + k] == s[i + j + k];
    }
    assert s[i + j..i + j + |q|] == q;
    assert OccursAt(s, q, i + j);
  }
}
