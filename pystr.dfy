/**
 * The Python string operations the resolve pipeline is built from, with
 * Python's own semantics: `find`/`rfind` answer -1 when nothing is found, a
 * slice bound that is negative counts from the end and every bound is clamped,
 * `replace` rewrites every non-overlapping occurrence from left to right,
 * `strip` removes a set of characters from both ends.
 */
module PyStr {

  /** `sub` occurs in `s` starting at index `i`. */
  predicate OccursAt(s: string, sub: string, i: int) {
    0 <= i && i + |sub| <= |s| && s[i..i + |sub|] == sub
  }

  /** `i` is the first occurrence of `sub` in `s` at or after `from`. */
  ghost predicate FirstAt(s: string, sub: string, from: int, i: int) {
    from <= i && OccursAt(s, sub, i) && forall k :: from <= k < i ==> !OccursAt(s, sub, k)
  }

  /** `i` is the last occurrence of `sub` in `s`. */
  ghost predicate LastAt(s: string, sub: string, i: int) {
    OccursAt(s, sub, i) && forall k :: i < k ==> !OccursAt(s, sub, k)
  }

  lemma OneCharOccurs(s: string, c: char, i: int)
    ensures OccursAt(s, [c], i) <==> 0 <= i < |s| && s[i] == c
  {
    if 0 <= i < |s| {
      assert s[i..i + 1] == [s[i]];
    }
  }

  /** Python's normalisation of a search start: a negative start counts from the end. */
  function StartIndex(start: int, n: nat): (r: int)
    ensures r >= 0
    ensures start >= 0 ==> r == start
    ensures start < 0 ==> r < n || n == 0
  {
    if start >= 0 then start else if start + n < 0 then 0 else start + n
  }

  /** Python's normalisation of a slice bound: negatives count from the end, then clamp to [0, n]. */
  function SliceIndex(i: int, n: nat): (r: nat)
    ensures r <= n
    ensures 0 <= i <= n ==> r == i
    ensures i < 0 ==> r == StartIndex(i, n)
  {
    if i < 0 then (if i + n < 0 then 0 else i + n) else if i > n then n else i
  }

  /** `s[i:j]` in Python. */
  function Slice(s: string, i: int, j: int): (r: string)
    ensures |r| <= |s|
    ensures 0 <= i <= j <= |s| ==> r == s[i..j]
    ensures j <= i && i >= 0 && j >= 0 ==> r == ""
  {
    var a := SliceIndex(i, |s|);
    var b := SliceIndex(j, |s|);
    if a <= b then s[a..b] else ""
  }

  /** The first index at or after `i` where `sub` occurs, or -1. */
  function FindFrom(s: string, sub: string, i: nat): (r: int)
    requires i <= |s|
    decreases |s| - i
    ensures r == -1 || (i <= r && OccursAt(s, sub, r))
    ensures r != -1 ==> forall k :: i <= k < r ==> !OccursAt(s, sub, k)
    ensures r == -1 ==> forall k :: i <= k ==> !OccursAt(s, sub, k)
  {
    if i + |sub| > |s| then -1
    else if s[i..i + |sub|] == sub then i
    else FindFrom(s, sub, i + 1)
  }

  /** `s.find(sub, start)` in Python. */
  function Find(s: string, sub: string, start: int): (r: int)
    ensures r == -1 || FirstAt(s, sub, StartIndex(start, |s|), r)
    ensures r == -1 <==> forall k :: StartIndex(start, |s|) <= k ==> !OccursAt(s, sub, k)
  {
    var n := StartIndex(start, |s|);
    if n > |s| then -1 else FindFrom(s, sub, n)
  }

  /** A first occurrence is what `find` returns. */
  lemma FindIsFirst(s: string, sub: string, from: nat, i: int)
    requires FirstAt(s, sub, from, i)
    ensures Find(s, sub, from) == i
  {
  }

  /** `sub in s` in Python. */
  function Contains(s: string, sub: string): (r: bool)
    ensures r <==> exists k :: OccursAt(s, sub, k)
  {
    Find(s, sub, 0) != -1
  }

  /** The last index at or below `i` where `sub` occurs, or -1. */
  function RFindBelow(s: string, sub: string, i: int): (r: int)
    decreases i + 1
    ensures r == -1 || (r <= i && OccursAt(s, sub, r))
    ensures forall k :: r < k <= i ==> !OccursAt(s, sub, k)
  {
    if i < 0 then -1
    else if OccursAt(s, sub, i) then i
    else RFindBelow(s, sub, i - 1)
  }

  /** `s.rfind(sub)` in Python. */
  function RFind(s: string, sub: string): (r: int)
    ensures r == -1 || LastAt(s, sub, r)
    ensures r == -1 <==> forall k :: !OccursAt(s, sub, k)
  {
    RFindBelow(s, sub, |s| - |sub|)
  }

  /** A last occurrence is what `rfind` returns. */
  lemma RFindIsLast(s: string, sub: string, i: int)
    requires LastAt(s, sub, i)
    ensures RFind(s, sub) == i
  {
  }

  /** `s.startswith(p)` in Python. */
  predicate StartsWith(s: string, p: string) {
    |p| <= |s| && s[..|p|] == p
  }

  /** `s.endswith(p)` in Python. */
  predicate EndsWith(s: string, p: string) {
    |p| <= |s| && s[|s| - |p|..] == p
  }

  /** `s[i]` in Python, where a negative index counts from the end. */
  function At(s: string, i: int): char
    requires -|s| <= i < |s|
  {
    if i < 0 then s[|s| + i] else s[i]
  }

  /** `s.replace(pat, rep)` in Python (for a non-empty `pat`). */
  function Replace(s: string, pat: string, rep: string): string
    requires |pat| > 0
    decreases |s|
  {
    if |s| < |pat| then s
    else if s[..|pat|] == pat then rep + Replace(s[|pat|..], pat, rep)
    else [s[0]] + Replace(s[1..], pat, rep)
  }

  /** Without an occurrence, `replace` changes nothing. */
  lemma {:induction false} ReplaceAbsent(s: string, pat: string, rep: string)
    requires |pat| > 0
    requires forall k :: !OccursAt(s, pat, k)
    ensures Replace(s, pat, rep) == s
    decreases |s|
  {
    if |s| >= |pat| {
      assert !OccursAt(s, pat, 0);
      forall k ensures !OccursAt(s[1..], pat, k) {
        OccursShift(s, pat, 1, k);
      }
      ReplaceAbsent(s[1..], pat, rep);
    }
  }

  /** An occurrence at the front becomes `rep`, and the scan goes on after it. */
  lemma ReplaceHit(pat: string, s: string, rep: string)
    requires |pat| > 0
    ensures Replace(pat + s, pat, rep) == rep + Replace(s, pat, rep)
  {
    assert (pat + s)[..|pat|] == pat && (pat + s)[|pat|..] == s;
  }

  /** An occurrence in a suffix is an occurrence in the whole string, shifted. */
  lemma OccursShift(s: string, sub: string, m: nat, k: int)
    requires m <= |s|
    ensures OccursAt(s[m..], sub, k) <==> k >= 0 && OccursAt(s, sub, k + m)
  {
    if k >= 0 && k + |sub| <= |s| - m {
      assert s[m..][k..k + |sub|] == s[k + m..k + m + |sub|];
    }
  }

  /** No occurrence of `pat` in `a + b` starts inside `a` and ends inside `b`. */
  ghost predicate NoStraddle(a: string, b: string, pat: string) {
    forall k :: 0 <= k < |a| < k + |pat| ==> !OccursAt(a + b, pat, k)
  }

  lemma NoStraddleSuffix(a: string, b: string, pat: string, m: nat)
    requires m <= |a| && NoStraddle(a, b, pat)
    ensures NoStraddle(a[m..], b, pat)
  {
    assert (a + b)[m..] == a[m..] + b;
    forall k | 0 <= k < |a[m..]| < k + |pat|
      ensures !OccursAt(a[m..] + b, pat, k)
    {
      OccursShift(a + b, pat, m, k);
    }
  }

  /**
   * When no occurrence of `pat` straddles the boundary between `a` and `b`,
   * `replace` works on the two halves independently.
   */
  lemma {:induction false} ReplaceConcat(a: string, b: string, pat: string, rep: string)
    requires |pat| > 0 && NoStraddle(a, b, pat)
    ensures Replace(a + b, pat, rep) == Replace(a, pat, rep) + Replace(b, pat, rep)
    decreases |a|
  {
    if a == [] {
      assert a + b == b;
    } else {
      var m := if |a| >= |pat| && a[..|pat|] == pat then |pat| else 1;
      NoStraddleSuffix(a, b, pat, m);
      ReplaceConcat(a[m..], b, pat, rep);
      ReplaceConcatStep(a, b, pat, rep, m);
    }
  }

  /** One step of `replace` over `a + b`, given the result for the rest of `a`. */
  lemma ReplaceConcatStep(a: string, b: string, pat: string, rep: string, m: nat)
    requires |pat| > 0 && NoStraddle(a, b, pat) && a != []
    requires m == if |a| >= |pat| && a[..|pat|] == pat then |pat| else 1
    requires Replace(a[m..] + b, pat, rep) == Replace(a[m..], pat, rep) + Replace(b, pat, rep)
    ensures Replace(a + b, pat, rep) == Replace(a, pat, rep) + Replace(b, pat, rep)
  {
    var ab := a + b;
    assert ab[m..] == a[m..] + b;
    if |a| < |pat| {
      if |ab| >= |pat| {
        assert !OccursAt(ab, pat, 0);
        assert Replace(ab, pat, rep) == [a[0]] + Replace(ab[1..], pat, rep);
        assert Replace(a[1..], pat, rep) == a[1..];
        assert [a[0]] + a[1..] == a;
      } else {
        assert Replace(ab, pat, rep) == ab;
        assert Replace(b, pat, rep) == b;
      }
    } else {
      assert ab[..|pat|] == a[..|pat|];
    }
  }

  /** The ASCII characters for which Python's `str.isspace()` holds. */
  const Whitespace: set<char> :=
    {' ', '\t', '\n', '\r', '\U{0B}', '\U{0C}', '\U{1C}', '\U{1D}', '\U{1E}', '\U{1F}'}

  predicate IsSpace(c: char) {
    c in Whitespace
  }

  function StripLeft(s: string, cs: set<char>): (r: string)
    decreases |s|
    ensures r == "" || r[0] !in cs
    ensures |r| <= |s| && r == s[|s| - |r|..]
    ensures forall k :: 0 <= k < |s| - |r| ==> s[k] in cs
  {
    if |s| > 0 && s[0] in cs then StripLeft(s[1..], cs) else s
  }

  function StripRight(s: string, cs: set<char>): (r: string)
    decreases |s|
    ensures r == "" || r[|r| - 1] !in cs
    ensures |r| <= |s| && r == s[..|r|]
    ensures forall k :: |r| <= k < |s| ==> s[k] in cs
  {
    if |s| > 0 && s[|s| - 1] in cs then StripRight(s[..|s| - 1], cs) else s
  }

  /** `s.strip(chars)` in Python: neither end of the result is in `cs`. */
  function Strip(s: string, cs: set<char>): (r: string)
    ensures r == "" || (r[0] !in cs && r[|r| - 1] !in cs)
    ensures |r| <= |s|
  {
    StripRight(StripLeft(s, cs), cs)
  }

  /**
   * The result of `strip` is the middle part of `s`, and everything cut off
   * either end is in `cs`.
   */
  lemma StripIsMiddle(s: string, cs: set<char>)
    ensures exists i, j :: 0 <= i <= j <= |s| && Strip(s, cs) == s[i..j]
                          && (forall k :: 0 <= k < i ==> s[k] in cs)
                          && (forall k :: j <= k < |s| ==> s[k] in cs)
  {
    var l := StripLeft(s, cs);
    var r := StripRight(l, cs);
    var i := |s| - |l|;
    assert r == s[i..i + |r|];
    assert forall k :: i + |r| <= k < |s| ==> s[k] == l[k - i];
  }

  /** A string whose ends are not in `cs` is left alone by `strip`. */
  lemma StripKeeps(s: string, cs: set<char>)
    requires s == "" || (s[0] !in cs && s[|s| - 1] !in cs)
    ensures Strip(s, cs) == s
  {
  }

  /** Python's `s.strip()` with no argument, on ASCII whitespace. */
  function StripSpace(s: string): (r: string)
    ensures r == "" || (!IsSpace(r[0]) && !IsSpace(r[|r| - 1]))
  {
    Strip(s, Whitespace)
  }

  /** `s.count(c)` in Python for a one-character `c`. */
  function CountChar(s: string, c: char): (r: nat)
    ensures r <= |s|
  {
    if s == "" then 0 else (if s[0] == c then 1 else 0) + CountChar(s[1..], c)
  }

  /** `s.count(c)` is the number of positions of `s` that hold `c`. */
  lemma {:induction false} CountIsMultiset(s: string, c: char)
    ensures CountChar(s, c) == multiset(s)[c]
  {
    if s != "" {
      assert s == [s[0]] + s[1..];
      CountIsMultiset(s[1..], c);
    }
  }
}
