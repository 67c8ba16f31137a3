/** Searching sequences: the first occurrence of a pattern, the first element of a kind. */
module Seqs {
  import opened Wrappers

  predicate At<T(==)>(s: seq<T>, pat: seq<T>, i: nat) {
    i + |pat| <= |s| && s[i..i + |pat|] == pat
  }

  function FindFrom<T(==)>(s: seq<T>, pat: seq<T>, from: nat): (r: Option<nat>)
    requires from <= |s|
    ensures r.Some? ==> r.value + |pat| <= |s|
    decreases |s| - from
  {
    if At(s, pat, from) then Some(from)
    else if from == |s| then None
    else FindFrom(s, pat, from + 1)
  }

  /** The first position of `pat`: `find` in both languages. */
  function Find<T(==)>(s: seq<T>, pat: seq<T>): (r: Option<nat>)
    ensures r.Some? ==> r.value + |pat| <= |s|
  {
    FindFrom(s, pat, 0)
  }

  lemma {:induction false} FindFromSpec<T>(s: seq<T>, pat: seq<T>, from: nat)
    requires from <= |s|
    ensures var r := FindFrom(s, pat, from);
            && (r.Some? ==> from <= r.value && At(s, pat, r.value))
            && forall j :: from <= j < (if r.Some? then r.value else |s| + 1) ==> !At(s, pat, j)
    decreases |s| - from
  {
    if !At(s, pat, from) && from < |s| {
      FindFromSpec(s, pat, from + 1);
    }
  }

  /** `Find` answers an occurrence, none lies before it, and None means there is none. */
  lemma FindSpec<T>(s: seq<T>, pat: seq<T>)
    ensures var r := Find(s, pat);
            && (r.Some? ==> At(s, pat, r.value))
            && forall j :: 0 <= j < (if r.Some? then r.value else |s| + 1) ==> !At(s, pat, j)
  {
    FindFromSpec(s, pat, 0);
  }

  lemma AtElement<T>(s: seq<T>, pat: seq<T>, i: nat, t: nat)
    requires At(s, pat, i) && t < |pat|
    ensures i + t < |s| && s[i + t] == pat[t]
  {
    assert s[i..i + |pat|][t] == s[i + t];
  }

  ghost predicate Contains<T>(s: seq<T>, pat: seq<T>) {
    exists i :: 0 <= i <= |s| && At(s, pat, i)
  }

  lemma FindDecidesContains<T>(s: seq<T>, pat: seq<T>)
    ensures Find(s, pat).Some? <==> Contains(s, pat)
  {
    FindSpec(s, pat);
  }

  /** A first occurrence is unique, so it is what `Find` returns. */
  lemma FindIs<T>(s: seq<T>, pat: seq<T>, i: nat)
    requires At(s, pat, i) && forall j :: 0 <= j < i ==> !At(s, pat, j)
    ensures Find(s, pat) == Some(i)
  {
    FindSpec(s, pat);
  }

  /** What stands before the first occurrence decides it: what follows may change. */
  lemma FindKept<T>(s: seq<T>, pat: seq<T>, k: nat, after: seq<T>)
    requires Find(s, pat) == Some(k)
    ensures k <= |s| && Find(s[..k] + pat + after, pat) == Some(k)
  {
    var n := |pat|;
    FindSpec(s, pat);
    var t := s[..k] + pat + after;
    assert t[..k + n] == s[..k + n];
    forall j | 0 <= j < k ensures !At(t, pat, j) {
      assert !At(s, pat, j);
      assert t[..k + n][j..j + n] == t[j..j + n] && s[..k + n][j..j + n] == s[j..j + n];
    }
    assert t[k..k + n] == pat;
    FindIs(t, pat, k);
  }

  /** Nothing before the first occurrence holds another. */
  lemma NoneBeforeFirst<T>(s: seq<T>, pat: seq<T>, k: nat)
    requires Find(s, pat) == Some(k) && pat != []
    ensures k <= |s| && !Contains(s[..k], pat)
  {
    FindSpec(s, pat);
    var head, n := s[..k], |pat|;
    forall j: nat | j <= k ensures !At(head, pat, j) {
      if j + n <= k {
        assert !At(s, pat, j);
        assert head[j..j + n] == s[j..j + n];
      }
    }
  }

  /** What a part of a sequence holds, the whole holds. */
  lemma PartContains<T>(a: seq<T>, part: seq<T>, z: seq<T>, pat: seq<T>)
    ensures Contains(part, pat) ==> Contains(a + part + z, pat)
  {
    if Contains(part, pat) {
      var s := a + part + z;
      var j: nat :| j <= |part| && At(part, pat, j);
      assert s[|a| + j..|a| + j + |pat|] == part[j..j + |pat|];
      assert At(s, pat, |a| + j);
    }
  }

  /** Position of the first element of a kind, or the length. */
  function Skip<T>(s: seq<T>, stop: T -> bool): (i: nat)
    ensures i <= |s|
    ensures forall j :: 0 <= j < i ==> !stop(s[j])
    ensures i < |s| ==> stop(s[i])
  {
    if s == [] || stop(s[0]) then 0 else 1 + Skip(s[1..], stop)
  }

  /** That position is determined by what comes before and what stops. */
  lemma {:induction false} SkipIs<T>(s: seq<T>, stop: T -> bool, i: nat)
    requires i <= |s| && (forall j :: 0 <= j < i ==> !stop(s[j])) && (i < |s| ==> stop(s[i]))
    ensures Skip(s, stop) == i
  {
    if i > 0 {
      SkipIs(s[1..], stop, i - 1);
    }
  }

  // ----- pigeonhole

  ghost predicate Distinct(s: seq<nat>) {
    forall i, j :: 0 <= i < j < |s| ==> s[i] != s[j]
  }

  lemma {:induction false} DistinctAreFew(s: seq<nat>, m: nat)
    requires Distinct(s) && forall i :: 0 <= i < |s| ==> s[i] < m
    ensures |s| <= m
    decreases m
  {
    if s != [] {
      assert s[0] < m;
      if i :| 0 <= i < |s| && s[i] == m - 1 {
        var t := s[..i] + s[i + 1..];
        forall j | 0 <= j < |t| ensures t[j] < m - 1 {
          assert t[j] == s[if j < i then j else j + 1];
        }
        DistinctAreFew(t, m - 1);
      } else {
        DistinctAreFew(s, m - 1);
      }
    }
  }
}
