/**
 * The pieces of Go's `strings` package that the page analyser uses:
 * `TrimSpace`, `ToLower` and `Contains`. A Go string is modelled as the
 * sequence of its code points.
 */
module Strings {

  /** `unicode.IsSpace`: the code points with the Unicode White_Space property. */
  predicate IsSpace(c: char)
  {
    || c == '\t' || c == '\n' || c == '\U{0B}' || c == '\U{0C}' || c == '\r' || c == ' '
    || c == '\U{85}' || c == '\U{A0}' || c == '\U{1680}'
    || ('\U{2000}' <= c <= '\U{200A}')
    || c == '\U{2028}' || c == '\U{2029}' || c == '\U{202F}' || c == '\U{205F}' || c == '\U{3000}'
  }

  predicate AllSpace(s: string)
  {
    forall i :: 0 <= i < |s| ==> IsSpace(s[i])
  }

  /** Neither end of `s` is white space. */
  predicate Unpadded(s: string)
  {
    s == [] || (!IsSpace(s[0]) && !IsSpace(s[|s| - 1]))
  }

  /**
   * The first index in `from..to` whose character is not white space, or
   * `to` when there is none.
   */
  function SkipSpace(s: string, from: nat, to: nat): (r: nat)
    requires from <= to <= |s|
    ensures from <= r <= to
    ensures forall k :: from <= k < r ==> IsSpace(s[k])
    ensures r < to ==> !IsSpace(s[r])
    decreases (to as int) - from
  {
    if from == to || !IsSpace(s[from]) then from else SkipSpace(s, from + 1, to)
  }

  /**
   * The index just past the last character before `to` that is not white
   * space, or 0 when there is none.
   */
  function SkipSpaceBack(s: string, to: nat): (r: nat)
    requires to <= |s|
    ensures r <= to
    ensures forall k :: r <= k < to ==> IsSpace(s[k])
    ensures 0 < r ==> !IsSpace(s[r - 1])
  {
    if to == 0 || !IsSpace(s[to - 1]) then to else SkipSpaceBack(s, to - 1)
  }

  /** `strings.TrimSpace`: drops the white space at both ends. */
  function TrimSpace(s: string): (r: string)
    ensures Unpadded(r)
  {
    var e := SkipSpaceBack(s, |s|);
    s[SkipSpace(s, 0, e)..e]
  }

  /** `r` sits in `s` at index `i`. */
  predicate InfixAt(s: string, r: string, i: int)
  {
    0 <= i && i + |r| <= |s| && s[i..i + |r|] == r
  }

  /**
   * `TrimSpace(s)` is an infix of `s` with only white space around it, so
   * it is the longest infix of `s` that neither starts nor ends with white
   * space.
   */
  lemma TrimSpaceInfix(s: string)
    ensures exists i :: InfixAt(s, TrimSpace(s), i) && AllSpace(s[..i]) && AllSpace(s[i + |TrimSpace(s)|..])
  {
    var e := SkipSpaceBack(s, |s|);
    var b := SkipSpace(s, 0, e);
    assert InfixAt(s, TrimSpace(s), b);
    assert AllSpace(s[..b]) by {
      forall k | 0 <= k < b ensures IsSpace(s[..b][k]) {
        assert s[..b][k] == s[k];
      }
    }
    assert AllSpace(s[e..]) by {
      forall k | 0 <= k < |s| - e ensures IsSpace(s[e..][k]) {
        assert s[e..][k] == s[e + k];
      }
    }
  }

  /** `SkipSpace` is the only index with its two properties. */
  lemma SkipSpaceUnique(s: string, from: nat, to: nat, r: nat)
    requires from <= r <= to <= |s|
    requires forall k :: from <= k < r ==> IsSpace(s[k])
    requires r < to ==> !IsSpace(s[r])
    ensures SkipSpace(s, from, to) == r
  {
  }

  /** `SkipSpaceBack` is the only index with its two properties. */
  lemma SkipSpaceBackUnique(s: string, to: nat, r: nat)
    requires r <= to <= |s|
    requires forall k :: r <= k < to ==> IsSpace(s[k])
    requires 0 < r ==> !IsSpace(s[r - 1])
    ensures SkipSpaceBack(s, to) == r
  {
  }

  /** The bounds that `TrimSpace` finds in `s`. */
  predicate TrimBounds(s: string, b: nat, e: nat)
  {
    && b <= e <= |s|
    && (forall k :: 0 <= k < b ==> IsSpace(s[k]))
    && (forall k :: e <= k < |s| ==> IsSpace(s[k]))
    && (b < e ==> !IsSpace(s[b]) && !IsSpace(s[e - 1]))
  }

  /**
   * When `x` is white space outside `b..e`, and `x[b]` and `x[e - 1]` are
   * not, `TrimSpace` keeps exactly `x[b..e]`.
   */
  lemma TrimSpaceBetween(x: string, b: nat, e: nat)
    requires TrimBounds(x, b, e)
    ensures TrimSpace(x) == x[b..e]
  {
    if b == e {
      SkipSpaceBackUnique(x, |x|, 0);
    } else {
      SkipSpaceBackUnique(x, |x|, e);
      SkipSpaceUnique(x, 0, e, b);
    }
  }

  /**
   * Only white space around an unpadded string: `TrimSpace` returns that
   * string.
   */
  lemma TrimSpaceOf(x: string, a: string, r: string, c: string)
    requires x == a + r + c && AllSpace(a) && AllSpace(c) && Unpadded(r)
    ensures TrimSpace(x) == r
  {
    var b, e := |a|, |a| + |r|;
    forall k | 0 <= k < b ensures IsSpace(x[k]) {
      assert x[k] == a[k];
    }
    forall k | e <= k < |x| ensures IsSpace(x[k]) {
      assert x[k] == c[k - e];
    }
    if b < e {
      assert x[b] == r[0] && x[e - 1] == r[|r| - 1];
    }
    TrimSpaceBetween(x, b, e);
    assert x[b..e] == r;
  }

  /** The bounds of `s` shift by the length of leading white space. */
  lemma TrimBoundsAfter(pre: string, s: string, b: nat, e: nat)
    requires AllSpace(pre) && TrimBounds(s, b, e)
    ensures TrimBounds(pre + s, |pre| + b, |pre| + e)
    ensures (pre + s)[|pre| + b..|pre| + e] == s[b..e]
  {
    var x, p := pre + s, |pre|;
    forall k | 0 <= k < p + b ensures IsSpace(x[k]) {
      if k < p { assert x[k] == pre[k]; } else { assert x[k] == s[k - p]; }
    }
    forall k | p + e <= k < |x| ensures IsSpace(x[k]) {
      assert x[k] == s[k - p];
    }
    assert b < e ==> x[p + b] == s[b] && x[p + e - 1] == s[e - 1];
    assert x[p..] == s;
  }

  /** The bounds of `s` stay put under trailing white space. */
  lemma TrimBoundsBefore(s: string, post: string, b: nat, e: nat)
    requires AllSpace(post) && TrimBounds(s, b, e)
    ensures TrimBounds(s + post, b, e)
    ensures (s + post)[b..e] == s[b..e]
  {
    var x := s + post;
    forall k | 0 <= k < b ensures IsSpace(x[k]) {
      assert x[k] == s[k];
    }
    forall k | e <= k < |x| ensures IsSpace(x[k]) {
      if k < |s| { assert x[k] == s[k]; } else { assert x[k] == post[k - |s|]; }
    }
    assert b < e ==> x[b] == s[b] && x[e - 1] == s[e - 1];
    assert x[..|s|] == s;
  }

  /** Leading white space does not change what `TrimSpace` returns. */
  lemma TrimSpaceIgnoresPrefix(pre: string, s: string)
    requires AllSpace(pre)
    ensures TrimSpace(pre + s) == TrimSpace(s)
  {
    var e := SkipSpaceBack(s, |s|);
    var b := SkipSpace(s, 0, e);
    TrimBoundsAfter(pre, s, b, e);
    TrimSpaceBetween(pre + s, |pre| + b, |pre| + e);
  }

  /** Trailing white space does not change what `TrimSpace` returns. */
  lemma TrimSpaceIgnoresSuffix(s: string, post: string)
    requires AllSpace(post)
    ensures TrimSpace(s + post) == TrimSpace(s)
  {
    var e := SkipSpaceBack(s, |s|);
    var b := SkipSpace(s, 0, e);
    TrimBoundsBefore(s, post, b, e);
    TrimSpaceBetween(s + post, b, e);
  }

  /** White space around a string does not change what `TrimSpace` returns. */
  lemma TrimSpaceIgnoresPadding(pre: string, s: string, post: string)
    requires AllSpace(pre) && AllSpace(post)
    ensures TrimSpace(pre + s + post) == TrimSpace(s)
  {
    TrimSpaceIgnoresSuffix(pre + s, post);
    TrimSpaceIgnoresPrefix(pre, s);
  }

  /**
   * `unicode.ToLower` on the characters it maps to ASCII: the letters `A`
   * to `Z`, U+0130 (capital I with dot above) to `i`, and U+212A (Kelvin
   * sign) to `k`. Every other character is kept as it is.
   */
  function LowerChar(c: char): (d: char)
    ensures 'A' <= c <= 'Z' ==> d as int == c as int + 32
    ensures c == '\U{0130}' ==> d == 'i'
    ensures c == '\U{212A}' ==> d == 'k'
    ensures !('A' <= c <= 'Z') && c != '\U{0130}' && c != '\U{212A}' ==> d == c
  {
    if 'A' <= c <= 'Z' then (c as int + 32) as char
    else if c == '\U{0130}' then 'i'
    else if c == '\U{212A}' then 'k'
    else c
  }

  /** `strings.ToLower`, character by character with `LowerChar`. */
  function ToLower(s: string): (r: string)
    ensures |r| == |s| && forall i :: 0 <= i < |s| ==> r[i] == LowerChar(s[i])
  {
    seq(|s|, i requires 0 <= i < |s| => LowerChar(s[i]))
  }

  /**
   * Lower-casing yields an ASCII character only from an ASCII character or
   * from one of the two characters that `unicode.ToLower` maps to ASCII.
   */
  lemma LowerCharAscii(c: char)
    ensures LowerChar(c) < '\U{80}' <==> c < '\U{80}' || c == '\U{0130}' || c == '\U{212A}'
  {
  }

  /** Lower-casing works character by character, so it distributes over concatenation. */
  lemma ToLowerAppend(a: string, b: string)
    ensures ToLower(a + b) == ToLower(a) + ToLower(b)
  {
  }

  /** `s` and `t` are equal once ASCII letters are folded to lower case. */
  predicate EqualFold(s: string, t: string)
  {
    |s| == |t| && forall i :: 0 <= i < |s| ==> LowerChar(s[i]) == LowerChar(t[i])
  }

  /** Case folding never turns white space into anything else, or back. */
  lemma FoldKeepsSpace(c: char, d: char)
    requires LowerChar(c) == LowerChar(d)
    ensures IsSpace(c) <==> IsSpace(d)
  {
  }

  /** Strings equal under case folding have white space at the same places. */
  lemma FoldKeepsSpaces(s: string, t: string)
    requires EqualFold(s, t)
    ensures forall k :: 0 <= k < |s| ==> (IsSpace(s[k]) <==> IsSpace(t[k]))
  {
    forall k | 0 <= k < |s| ensures IsSpace(s[k]) <==> IsSpace(t[k]) {
      FoldKeepsSpace(s[k], t[k]);
    }
  }

  /** Strings equal under case folding lower-case to the same slices. */
  lemma FoldLowerSlice(s: string, t: string, b: nat, e: nat)
    requires EqualFold(s, t) && b <= e <= |s|
    ensures ToLower(s[b..e]) == ToLower(t[b..e])
  {
    forall k | 0 <= k < e - b ensures LowerChar(s[b..e][k]) == LowerChar(t[b..e][k]) {
      assert s[b..e][k] == s[b + k] && t[b..e][k] == t[b + k];
    }
  }

  /** Changing the case of ASCII letters does not change the lower-cased, trimmed text. */
  lemma LowerTrimIgnoresCase(s: string, t: string)
    requires EqualFold(s, t)
    ensures ToLower(TrimSpace(s)) == ToLower(TrimSpace(t))
  {
    var e := SkipSpaceBack(s, |s|);
    var b := SkipSpace(s, 0, e);
    FoldKeepsSpaces(s, t);
    TrimSpaceBetween(t, b, e);
    FoldLowerSlice(s, t, b, e);
  }

  /** `sub` occurs in `s` at index `i`. */
  predicate OccursAt(s: string, sub: string, i: int)
  {
    0 <= i && i + |sub| <= |s| && s[i..i + |sub|] == sub
  }

  /** `strings.Contains`: `sub` occurs somewhere in `s`. */
  function Contains(s: string, sub: string): (r: bool)
    ensures r <==> exists i :: OccursAt(s, sub, i)
    decreases |s|
  {
    if |sub| > |s| then false
    else if s[..|sub|] == sub then
      assert OccursAt(s, sub, 0);
      true
    else
      var r := Contains(s[1..], sub);
      assert forall i :: OccursAt(s[1..], sub, i) <==> OccursAt(s, sub, i + 1);
      assert forall i :: OccursAt(s, sub, i) ==> i >= 1 && OccursAt(s[1..], sub, i - 1);
      r
  }

  /** An occurrence of an occurrence is an occurrence. */
  lemma ContainsTransitive(s: string, t: string, u: string)
    requires Contains(s, t) && Contains(t, u)
    ensures Contains(s, u)
  {
    var i :| OccursAt(s, t, i);
    var j :| OccursAt(t, u, j);
    forall k | 0 <= k < |u|
      ensures s[i + j + k] == u[k]
    {
      assert u[k] == t[j + k] == s[i + j + k];
    }
    assert s[i + j..i + j + |u|] == u;
    assert OccursAt(s, u, i + j);
  }
}
