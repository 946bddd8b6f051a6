/**
 * A scanner with the behaviour of Go's `regexp` on the doctype pattern
 * `(?i)<!DOCTYPE\s+([^>]+)>` used by `DetectHTMLVersion`: the leftmost match,
 * with the greedy `\s+` taking the longest white-space run it can, and the
 * first capture group returned (`FindStringSubmatch(...)[1]`).
 */
module DoctypeRegex {
  import opened Wrappers
  import opened Strings

  /** `\s` in Go's regular-expression syntax: `[\t\n\f\r ]`. */
  predicate IsRegexSpace(c: char)
  {
    c == '\t' || c == '\n' || c == '\U{0C}' || c == '\r' || c == ' '
  }

  predicate AllRegexSpace(w: string)
  {
    forall k :: 0 <= k < |w| ==> IsRegexSpace(w[k])
  }

  /** The literal part of the pattern; `(?i)` folds the case of its letters. */
  const Keyword: string := "<!doctype"

  /** `(?i)<!DOCTYPE` matches at index `i` of `s`. */
  predicate KeywordAt(s: string, i: nat)
  {
    i + |Keyword| <= |s| && ToLower(s[i..i + |Keyword|]) == Keyword
  }

  /** The `!` of the keyword has no other case. */
  lemma KeywordHasBang(s: string, i: nat)
    requires KeywordAt(s, i)
    ensures s[i + 1] == '!'
  {
    assert s[i..i + |Keyword|][1] == s[i + 1];
    assert LowerChar(s[i + 1]) == Keyword[1];
  }

  /**
   * The pattern matches at index `i` of `s`, with `w` the text taken by `\s+`
   * and `g` the text taken by the group `([^>]+)`.
   */
  predicate IsMatch(s: string, i: nat, w: string, g: string)
  {
    && KeywordAt(s, i)
    && |w| >= 1 && AllRegexSpace(w)
    && |g| >= 1 && '>' !in g
    && InfixAt(s, w + g + ">", i + |Keyword|)
  }

  /** Index of the first `>` of `s` at or after `from`. */
  function FirstGt(s: string, from: nat): (r: Option<nat>)
    ensures r.Some? ==> from <= r.value < |s| && s[r.value] == '>'
                        && forall k :: from <= k < r.value ==> s[k] != '>'
    ensures r.None? ==> forall k :: from <= k < |s| ==> s[k] != '>'
    decreases |s| - from
  {
    if from >= |s| then None
    else if s[from] == '>' then Some(from)
    else FirstGt(s, from + 1)
  }

  /** The end of the run of `\s` in `u` that starts at `from`. */
  function SpaceEnd(u: string, from: nat): (k: nat)
    requires from <= |u|
    ensures from <= k <= |u|
    ensures forall m :: from <= m < k ==> IsRegexSpace(u[m])
    ensures k < |u| ==> !IsRegexSpace(u[k])
    decreases |u| - from
  {
    if from < |u| && IsRegexSpace(u[from]) then SpaceEnd(u, from + 1) else from
  }

  /** Length of the leading run of `\s` in `u`. */
  function SpaceRun(u: string): (k: nat)
  {
    SpaceEnd(u, 0)
  }

  /**
   * What `\s+([^>]+)` captures from `u`, the `>`-free text between the
   * keyword and the next `>`: the greedy `\s+` keeps the whole white-space
   * run unless that would leave the group empty, in which case it gives
   * the group the run's last character.
   */
  function GreedyCapture(u: string): (g: string)
    requires |u| >= 2 && IsRegexSpace(u[0])
  {
    var k := SpaceRun(u);
    if k < |u| then u[k..] else u[|u| - 1..]
  }

  /** The group captured by a match starting at index `i`, if one does. */
  function MatchAt(s: string, i: nat): (capture: Option<string>)
  {
    if !KeywordAt(s, i) then None
    else
      match FirstGt(s, i + |Keyword|)
      case None => None
      case Some(e) =>
        var u := s[i + |Keyword|..e];
        if |u| >= 2 && IsRegexSpace(u[0]) then Some(GreedyCapture(u)) else None
  }

  /** The leftmost match at or after `from`. */
  function FindFrom(s: string, from: nat): (r: Option<string>)
    ensures r.Some? ==> exists i :: from <= i <= |s| && MatchAt(s, i) == r
                                    && forall j :: from <= j < i ==> MatchAt(s, j).None?
    ensures r.None? ==> forall j :: from <= j ==> MatchAt(s, j).None?
    decreases |s| - from
  {
    if from > |s| then None
    else if MatchAt(s, from).Some? then MatchAt(s, from)
    else FindFrom(s, from + 1)
  }

  /** `FindStringSubmatch(s)[1]`; `None` when the result has fewer than two entries. */
  function DoctypeCapture(s: string): (capture: Option<string>)
    ensures capture.Some? ==> exists i: nat :: MatchAt(s, i) == capture
                                             && forall j: nat :: j < i ==> MatchAt(s, j).None?
    ensures capture.None? ==> forall i: nat :: MatchAt(s, i).None?
  {
    FindFrom(s, 0)
  }

  /** Every capture the scanner reports is a match of the pattern. */
  lemma MatchAtSound(s: string, i: nat)
    requires MatchAt(s, i).Some?
    ensures exists w :: IsMatch(s, i, w, MatchAt(s, i).value)
  {
    var start := i + |Keyword|;
    var e := FirstGt(s, start).value;
    var u := s[start..e];
    var k := SpaceRun(u);
    var n := if k < |u| then k else |u| - 1;
    var w, g := u[..n], u[n..];
    assert MatchAt(s, i) == Some(g);
    assert AllRegexSpace(w) by {
      forall m | 0 <= m < n ensures IsRegexSpace(w[m]) {
        assert w[m] == u[m];
      }
    }
    assert '>' !in g by {
      forall m | 0 <= m < |g| ensures g[m] != '>' {
        assert g[m] == s[start + n + m];
      }
    }
    assert InfixAt(s, w + g + ">", start) by {
      assert w + g == u;
      assert s[start..e + 1] == u + [s[e]];
    }
    assert IsMatch(s, i, w, g);
  }

  /** After a match's keyword, the first `>` is the one that closes the match. */
  lemma MatchCloses(s: string, i: nat, w: string, g: string)
    requires IsMatch(s, i, w, g)
    ensures FirstGt(s, i + |Keyword|) == Some(i + |Keyword| + |w| + |g|)
    ensures s[i + |Keyword|..i + |Keyword| + |w| + |g|] == w + g
  {
    var start := i + |Keyword|;
    var e := start + |w| + |g|;
    assert s[start..e + 1] == w + g + ">";
    forall k | start <= k < e ensures s[k] != '>' {
      if k < start + |w| {
        assert s[k] == w[k - start];
      } else {
        assert s[k] == g[k - start - |w|];
      }
    }
    assert s[e] == '>';
    assert s[start..e] == s[start..e + 1][..|w| + |g|] == (w + g + ">")[..|w| + |g|];
  }

  /** The white-space run at the start of `w + g` covers all of `w`. */
  lemma SpaceRunCovers(w: string, g: string)
    requires AllRegexSpace(w)
    ensures |w| <= SpaceRun(w + g)
  {
    forall m | 0 <= m < |w| ensures IsRegexSpace((w + g)[m]) {
      assert (w + g)[m] == w[m];
    }
  }

  /** Dropping leading white space does not change what `TrimSpace` returns. */
  lemma TrimSpaceDropsSpace(x: string, j: nat)
    requires j <= |x| && AllSpace(x[..j])
    ensures TrimSpace(x[j..]) == TrimSpace(x)
  {
    TrimSpaceIgnoresPadding(x[..j], x[j..], []);
    assert x[..j] + x[j..] + [] == x;
  }

  /**
   * However a white-space prefix `w` and the rest `g` split `u`, the
   * greedy capture trims to the same text as `g`.
   */
  lemma GreedyCaptureTrim(u: string, w: string, g: string)
    requires u == w + g && |w| >= 1 && AllRegexSpace(w) && |g| >= 1
    ensures |u| >= 2 && IsRegexSpace(u[0])
    ensures TrimSpace(GreedyCapture(u)) == TrimSpace(g)
  {
    assert u[0] == w[0];
    var k := SpaceRun(u);
    SpaceRunCovers(w, g);
    var n := if k < |u| then k else |u| - 1;
    var j := n - |w|;
    assert g[j..] == GreedyCapture(u);
    assert AllSpace(g[..j]) by {
      forall m | 0 <= m < j ensures IsSpace(g[..j][m]) {
        assert g[..j][m] == u[|w| + m];
      }
    }
    TrimSpaceDropsSpace(g, j);
  }

  /** The group `MatchAt` captures when the keyword and its closing `>` are known. */
  lemma MatchAtCloses(s: string, i: nat, e: nat)
    requires KeywordAt(s, i) && FirstGt(s, i + |Keyword|) == Some(e)
    requires var u := s[i + |Keyword|..e]; |u| >= 2 && IsRegexSpace(u[0])
    ensures MatchAt(s, i) == Some(GreedyCapture(s[i + |Keyword|..e]))
  {
  }

  /**
   * Wherever the pattern can match, the scanner finds a match, and however
   * the regular expression splits the white space between `\s+` and the
   * group, the trimmed group is the same.
   */
  lemma MatchAtComplete(s: string, i: nat, w: string, g: string)
    requires IsMatch(s, i, w, g)
    ensures MatchAt(s, i).Some?
    ensures TrimSpace(MatchAt(s, i).value) == TrimSpace(g)
  {
    var e := i + |Keyword| + |w| + |g|;
    MatchCloses(s, i, w, g);
    GreedyCaptureTrim(s[i + |Keyword|..e], w, g);
    MatchAtCloses(s, i, e);
  }

  /**
   * `FindStringSubmatch` finds a capture exactly when the pattern matches
   * somewhere: a capture comes from a match, and no capture means that no
   * index, white-space run and group form a match.
   */
  lemma DoctypeCaptureMeaning(s: string)
    ensures DoctypeCapture(s).Some? ==> exists i: nat, w :: IsMatch(s, i, w, DoctypeCapture(s).value)
    ensures DoctypeCapture(s).None? ==> forall i: nat, w, g :: !IsMatch(s, i, w, g)
  {
    if DoctypeCapture(s).Some? {
      var i: nat :| MatchAt(s, i) == DoctypeCapture(s);
      MatchAtSound(s, i);
    } else {
      forall i: nat, w, g | IsMatch(s, i, w, g) ensures false {
        MatchAtComplete(s, i, w, g);
      }
    }
  }
}
