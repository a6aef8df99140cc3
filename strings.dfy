/**
 * The .NET string operations the console relies on, stated over `seq<char>`:
 * ordinal `LastIndexOf`, `LastIndexOfAny` and `Trim`.
 */
module Strings {

  /** `pat` occurs in `s` at index `i`, compared character by character (ordinal). */
  predicate OccursAt(s: string, pat: string, i: int)
  {
    0 <= i && i + |pat| <= |s| && s[i..i + |pat|] == pat
  }

  /** The last index `<= from` at which `pat` occurs in `s`, or -1. */
  function LastIndexAtOrBefore(s: string, pat: string, from: int): (r: int)
    ensures r == -1 || 0 <= r <= from
    ensures r == -1 ==> forall i :: 0 <= i <= from ==> !OccursAt(s, pat, i)
    ensures r != -1 ==> OccursAt(s, pat, r) && forall i :: r < i <= from ==> !OccursAt(s, pat, i)
    decreases from + 1
  {
    if from < 0 then -1
    else if OccursAt(s, pat, from) then from
    else LastIndexAtOrBefore(s, pat, from - 1)
  }

  /** `s.LastIndexOf(pat, StringComparison.Ordinal)`: the start of the last occurrence, or -1. */
  function LastIndexOf(s: string, pat: string): (r: int)
    ensures r == -1 <==> forall i :: !OccursAt(s, pat, i)
    ensures r != -1 ==> OccursAt(s, pat, r) && forall i :: r < i ==> !OccursAt(s, pat, i)
  {
    LastIndexAtOrBefore(s, pat, |s| - |pat|)
  }

  /** `s.LastIndexOfAny(anyOf)`: the index of the last character of `s` in `anyOf`, or -1. */
  function LastIndexOfAny(s: string, anyOf: set<char>): (r: int)
    ensures r == -1 || 0 <= r < |s|
    ensures r == -1 <==> forall i :: 0 <= i < |s| ==> s[i] !in anyOf
    ensures r != -1 ==> s[r] in anyOf && forall i :: r < i < |s| ==> s[i] !in anyOf
    decreases |s|
  {
    if s == [] then -1
    else if s[|s| - 1] in anyOf then |s| - 1
    else LastIndexOfAny(s[..|s| - 1], anyOf)
  }

  /** `Char.IsWhiteSpace`: the Unicode space, line and paragraph separators and the controls U+0009..U+000D, U+0085. */
  predicate IsWhiteSpace(c: char)
  {
    || '\U{9}' <= c <= '\U{D}'
    || c == ' '
    || c == '\U{85}'
    || c == '\U{A0}'
    || c == '\U{1680}'
    || '\U{2000}' <= c <= '\U{200A}'
    || c == '\U{2028}'
    || c == '\U{2029}'
    || c == '\U{202F}'
    || c == '\U{205F}'
    || c == '\U{3000}'
  }

  predicate AllWhiteSpace(s: string)
  {
    forall i :: 0 <= i < |s| ==> IsWhiteSpace(s[i])
  }

  /** `s.TrimStart()`: the suffix of `s` left after dropping its leading white space. */
  function TrimStart(s: string): (r: string)
    ensures |r| <= |s| && r == s[|s| - |r|..]
    ensures AllWhiteSpace(s[..|s| - |r|])
    ensures r == [] || !IsWhiteSpace(r[0])
    decreases |s|
  {
    if s != [] && IsWhiteSpace(s[0]) then
      var r := TrimStart(s[1..]);
      assert s[..|s| - |r|] == [s[0]] + s[1..][..|s| - 1 - |r|];
      r
    else s
  }

  /** `s.TrimEnd()`: the prefix of `s` left after dropping its trailing white space. */
  function TrimEnd(s: string): (r: string)
    ensures |r| <= |s| && r == s[..|r|]
    ensures AllWhiteSpace(s[|r|..])
    ensures r == [] || !IsWhiteSpace(r[|r| - 1])
    decreases |s|
  {
    if s != [] && IsWhiteSpace(s[|s| - 1]) then
      var r := TrimEnd(s[..|s| - 1]);
      assert s[|r|..] == s[..|s| - 1][|r|..] + [s[|s| - 1]];
      r
    else s
  }

  /** `s.Trim()`: white space removed from both ends. */
  function Trim(s: string): (r: string)
    ensures var k := |s| - |TrimStart(s)|;
      && 0 <= k && k + |r| <= |s| && r == s[k..k + |r|]
      && AllWhiteSpace(s[..k]) && AllWhiteSpace(s[k + |r|..])
    ensures r == [] || (!IsWhiteSpace(r[0]) && !IsWhiteSpace(r[|r| - 1]))
    ensures r == [] <==> AllWhiteSpace(s)
  {
    var r := TrimEnd(TrimStart(s));
    TrimKeepsMiddle(s, r);
    TrimEndsVisible(s, r);
    r
  }

  /** What `Trim` keeps is the middle of `s`, between its leading and its trailing white space. */
  lemma {:induction false} TrimKeepsMiddle(s: string, r: string)
    requires r == TrimEnd(TrimStart(s))
    ensures var k := |s| - |TrimStart(s)|;
      && 0 <= k && k + |r| <= |s| && r == s[k..k + |r|]
      && AllWhiteSpace(s[..k]) && AllWhiteSpace(s[k + |r|..])
  {
    var t := TrimStart(s);
    var k := |s| - |t|;
    SlicesOfSuffix(s, k, |r|);
  }

  /** A prefix and a suffix of `s[k..]`, as slices of `s`. */
  lemma SlicesOfSuffix(s: string, k: nat, n: nat)
    requires k + n <= |s|
    ensures s[k..][..n] == s[k..k + n] && s[k..][n..] == s[k + n..]
  {
  }

  /** TrimStart empties exactly the strings that are white space only. */
  lemma TrimStartEmptyIff(s: string)
    ensures TrimStart(s) == [] <==> AllWhiteSpace(s)
  {
    var t := TrimStart(s);
    if t == [] {
      assert s[..|s|] == s;
    } else {
      assert t[0] == s[|s| - |t|];
    }
  }

  /** TrimEnd empties exactly the strings that are white space only. */
  lemma TrimEndEmptyIff(s: string)
    ensures TrimEnd(s) == [] <==> AllWhiteSpace(s)
  {
    var t := TrimEnd(s);
    if t == [] {
      assert s[0..] == s;
    } else {
      assert t[0] == s[0];
    }
  }

  /** `Trim` leaves no white space at either end, and empties exactly the all-white-space strings. */
  lemma {:induction false} TrimEndsVisible(s: string, r: string)
    requires r == TrimEnd(TrimStart(s))
    ensures r == [] || (!IsWhiteSpace(r[0]) && !IsWhiteSpace(r[|r| - 1]))
    ensures r == [] <==> AllWhiteSpace(s)
  {
    var t := TrimStart(s);
    TrimStartEmptyIff(s);
    TrimEndEmptyIff(t);
    if r != [] {
      assert r[0] == t[0];
    }
  }

  /** When `s[..k]` is exactly the leading white space of `s`, TrimStart keeps `s[k..]`. */
  lemma {:induction false} TrimStartAt(s: string, k: nat)
    requires k <= |s| && AllWhiteSpace(s[..k])
    requires k == |s| || !IsWhiteSpace(s[k])
    ensures TrimStart(s) == s[k..]
    decreases k
  {
    if k > 0 {
      assert s[..k][0] == s[0];
      assert s[1..][..k - 1] == s[..k][1..];
      TrimStartAt(s[1..], k - 1);
    }
  }

  /** When `s[m..]` is exactly the trailing white space of `s`, TrimEnd keeps `s[..m]`. */
  lemma {:induction false} TrimEndAt(s: string, m: nat)
    requires m <= |s| && AllWhiteSpace(s[m..])
    requires m == 0 || !IsWhiteSpace(s[m - 1])
    ensures TrimEnd(s) == s[..m]
    decreases |s| - m
  {
    if m < |s| {
      var p := s[..|s| - 1];
      assert s[m..][|s| - 1 - m] == s[|s| - 1];
      assert p[m..] == s[m..][..|s| - 1 - m];
      TrimEndAt(p, m);
      assert p[..m] == s[..m];
    }
  }

  lemma AllWhiteSpaceConcat(a: string, b: string)
    requires AllWhiteSpace(a) && AllWhiteSpace(b)
    ensures AllWhiteSpace(a + b)
  {
    forall i | 0 <= i < |a + b| ensures IsWhiteSpace((a + b)[i]) {
      if i >= |a| { assert (a + b)[i] == b[i - |a|]; }
    }
  }

  /** Trailing white space appended to `t` is dropped again by TrimEnd. */
  lemma TrimEndIgnoresWhiteSpace(t: string, w: string)
    requires AllWhiteSpace(w)
    ensures TrimEnd(t + w) == TrimEnd(t)
  {
    var e := TrimEnd(t);
    assert (t + w)[|e|..] == t[|e|..] + w;
    AllWhiteSpaceConcat(t[|e|..], w);
    assert e != [] ==> (t + w)[|e| - 1] == e[|e| - 1];
    TrimEndAt(t + w, |e|);
    assert (t + w)[..|e|] == e;
  }

  lemma SliceOfConcat(a: string, b: string, k: nat)
    requires k <= |a|
    ensures (a + b)[..k] == a[..k] && (a + b)[k..] == a[k..] + b
  {
  }

  /** Once `s` has a visible character, TrimStart of `s + w` keeps all of `w`. */
  lemma TrimStartAppend(s: string, w: string)
    requires TrimStart(s) != []
    ensures TrimStart(s + w) == TrimStart(s) + w
  {
    var t := TrimStart(s);
    var k := |s| - |t|;
    var x := s + w;
    SliceOfConcat(s, w, k);
    assert x[k] == s[k] == t[0];
    TrimStartAt(x, k);
  }

  /** Appending only white space does not change what Trim keeps. */
  lemma TrimIgnoresTrailingWhiteSpace(s: string, w: string)
    requires AllWhiteSpace(w)
    ensures Trim(s + w) == Trim(s)
  {
    var t := TrimStart(s);
    if t == [] {
      assert s[..|s|] == s;
      AllWhiteSpaceConcat(s, w);
      TrimStartAt(s + w, |s + w|);
    } else {
      TrimStartAppend(s, w);
      TrimEndIgnoresWhiteSpace(t, w);
    }
  }

  /** Appending text with a visible (non-white-space) character makes the trimmed string strictly longer. */
  lemma TrimGrowsWithVisibleSuffix(s: string, w: string, j: int)
    requires 0 <= j < |w| && !IsWhiteSpace(w[j])
    ensures |Trim(s + w)| > |Trim(s)|
  {
    var x := s + w;
    var v := |s| + j;
    assert x[v] == w[j];
    var a := TrimStart(x);
    var start := |x| - |a|;
    assert start <= v;
    var e := TrimEnd(a);
    assert |e| > v - start;
    var t := TrimStart(s);
    var k := |s| - |t|;
    if t != [] {
      assert x[..k] == s[..k];
      assert x[k] == t[0];
      TrimStartAt(x, k);
    } else {
      assert TrimEnd(t) == [];
    }
  }

  /** Trim(s + w) == Trim(s) exactly when `w` is all white space. */
  lemma TrimUnchangedIff(s: string, w: string)
    ensures Trim(s + w) == Trim(s) <==> AllWhiteSpace(w)
  {
    if AllWhiteSpace(w) {
      TrimIgnoresTrailingWhiteSpace(s, w);
    } else {
      var j :| 0 <= j < |w| && !IsWhiteSpace(w[j]);
      TrimGrowsWithVisibleSuffix(s, w, j);
    }
  }
}
