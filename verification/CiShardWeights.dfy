/** What a file weighs in scripts/ci_shard.py: its recorded duration, or the median of the recorded ones. */
module CiShardWeights {
  import opened Wrappers
  import opened Sorting
  import opened CiShard
  import StringOrder

  // ----- counting

  function Count<T>(s: seq<T>, p: T -> bool): nat {
    if s == [] then 0 else (if p(s[0]) then 1 else 0) + Count(s[1..], p)
  }

  lemma {:induction false} CountConcat<T>(a: seq<T>, b: seq<T>, p: T -> bool)
    ensures Count(a + b, p) == Count(a, p) + Count(b, p)
  {
    if a == [] {
      assert a + b == b;
    } else {
      CountConcat(a[1..], b, p);
      assert (a + b)[1..] == a[1..] + b;
    }
  }

  lemma {:induction false} CountAll<T>(s: seq<T>, p: T -> bool)
    requires forall i :: 0 <= i < |s| ==> p(s[i])
    ensures Count(s, p) == |s|
  {
    if s != [] {
      CountAll(s[1..], p);
    }
  }

  lemma {:induction false} CountNone<T>(s: seq<T>, p: T -> bool)
    requires forall i :: 0 <= i < |s| ==> !p(s[i])
    ensures Count(s, p) == 0
  {
    if s != [] {
      CountNone(s[1..], p);
    }
  }

  lemma {:induction false} CountInserted<T>(x: T, s: seq<T>, le: (T, T) -> bool, p: T -> bool)
    ensures Count(Insert(x, s, le), p) == Count([x] + s, p)
  {
    CountConcat([x], s, p);
    if s != [] && !le(x, s[0]) {
      CountInserted(x, s[1..], le, p);
      CountConcat([x], s[1..], p);
    }
  }

  /** Sorting changes no count. */
  lemma {:induction false} CountSorted<T>(s: seq<T>, le: (T, T) -> bool, p: T -> bool)
    ensures Count(Sort(s, le), p) == Count(s, p)
  {
    if s != [] {
      CountSorted(s[1..], le, p);
      CountInserted(s[0], Sort(s[1..], le), le, p);
      CountConcat([s[0]], Sort(s[1..], le), p);
    }
  }

  function Below(x: real): real -> bool { r => r < x }

  function UpTo(x: real): real -> bool { r => r <= x }

  function From(x: real): real -> bool { r => r >= x }

  function Above(x: real): real -> bool { r => r > x }

  lemma AtPosition(s: seq<real>, k: nat)
    requires SortedBy(s, RealLe) && k < |s|
    ensures Count(s, Below(s[k])) <= k < Count(s, UpTo(s[k]))
    ensures Count(s, Above(s[k])) <= |s| - 1 - k < Count(s, From(s[k]))
  {
    var x, a, b := s[k], s[..k + 1], s[k + 1..];
    var c, d := s[..k], s[k..];
    assert s == a + b && s == c + d;
    CountConcat(a, b, UpTo(x));
    CountAll(a, UpTo(x));
    CountConcat(c, d, Below(x));
    CountNone(d, Below(x));
    CountAtMost(c, Below(x));
    CountConcat(c, d, From(x));
    CountAll(d, From(x));
    CountConcat(a, b, Above(x));
    CountNone(a, Above(x));
    CountAtMost(b, Above(x));
  }

  lemma {:induction false} CountAtMost<T>(s: seq<T>, p: T -> bool)
    ensures Count(s, p) <= |s|
  {
    if s != [] {
      CountAtMost(s[1..], p);
    }
  }

  // ----- the median

  /** m is halfway between two of n numbers that stand in their middle: fewer than half lie beyond either, and none lies
      between. */
  ghost predicate IsMiddle(known: seq<real>, m: real, lo: real, hi: real) {
    && lo in known && hi in known && lo <= hi && m == (lo + hi) / 2.0
    && 2 * Count(known, Below(lo)) < |known| <= 2 * Count(known, UpTo(lo))
    && 2 * Count(known, Above(hi)) < |known| <= 2 * Count(known, From(hi))
    && (forall r :: r in known ==> r <= lo || r >= hi)
    && (|known| % 2 == 1 ==> lo == hi)
  }

  lemma SortedHasSame(known: seq<real>, x: real)
    ensures x in Sort(known, RealLe) <==> x in known
  {
    hide Sort;
    assert x in multiset(Sort(known, RealLe)) <==> x in multiset(known);
  }

  lemma SortedMiddle(known: seq<real>, s: seq<real>, a: nat, b: nat)
    requires SortedBy(s, RealLe) && |s| == |known| && a <= b < |s| && b <= a + 1
    requires a == (|s| - 1) / 2 && b == |s| / 2
    requires forall x :: x in s <==> x in known
    requires forall x :: Count(s, Below(x)) == Count(known, Below(x)) && Count(s, UpTo(x)) == Count(known, UpTo(x))
    requires forall x :: Count(s, Above(x)) == Count(known, Above(x)) && Count(s, From(x)) == Count(known, From(x))
    ensures IsMiddle(known, (s[a] + s[b]) / 2.0, s[a], s[b])
  {
    hide Count;
    AtPosition(s, a);
    AtPosition(s, b);
    assert s[a] in s && s[b] in s;
    forall r | r in known ensures r <= s[a] || r >= s[b] {
      assert r in s;
      var k :| 0 <= k < |s| && s[k] == r;
      assert k <= a || k >= b;
    }
  }

  lemma MedianIsMiddle(known: seq<real>) returns (lo: real, hi: real)
    requires known != []
    ensures IsMiddle(known, Median(known), lo, hi)
  {
    hide Sort, IsMiddle, Count;
    var s := Sort(known, RealLe);
    RealLeIsTotalOrder();
    SortSorts(known, RealLe);
    var a, b := (|s| - 1) / 2, |s| / 2;
    forall x
      ensures x in s <==> x in known
      ensures Count(s, Below(x)) == Count(known, Below(x)) && Count(s, UpTo(x)) == Count(known, UpTo(x))
      ensures Count(s, Above(x)) == Count(known, Above(x)) && Count(s, From(x)) == Count(known, From(x))
    {
      SortedHasSame(known, x);
      CountSorted(known, RealLe, Below(x));
      CountSorted(known, RealLe, UpTo(x));
      CountSorted(known, RealLe, Above(x));
      CountSorted(known, RealLe, From(x));
    }
    SortedMiddle(known, s, a, b);
    lo, hi := s[a], s[b];
    assert |s| % 2 == 1 ==> a == b && (s[a] + s[b]) / 2.0 == s[b];
  }

  // ----- said of the files

  /** Recorded files whose duration is of a kind. */
  function TimedAs(d: Durations, p: real -> bool): string -> bool {
    f => f in d && p(d[f])
  }

  function Timed(d: Durations): string -> bool {
    f => f in d
  }

  lemma {:induction false} CountKnown(files: seq<string>, d: Durations, p: real -> bool)
    ensures Count(Known(files, d), p) == Count(files, TimedAs(d, p))
    ensures |Known(files, d)| == Count(files, Timed(d))
    ensures forall x :: x in Known(files, d) <==> exists f :: f in files && f in d && d[f] == x
  {
    if files != [] {
      CountKnown(files[1..], d, p);
      CountConcat(KnownOf(files[0], d), Known(files[1..], d), p);
    }
  }

  /** Halfway between two recorded durations lo <= hi: fewer than half of the recorded files take less than lo, at least
      half take lo or less, the mirrored counts hold for hi, none lies between, and an odd number has one middle. */
  ghost predicate IsMedianOf(files: seq<string>, d: Durations, m: real, lo: real, hi: real) {
    var n := Count(files, Timed(d));
    && (exists f :: f in files && f in d && d[f] == lo) && (exists f :: f in files && f in d && d[f] == hi)
    && lo <= hi && m == (lo + hi) / 2.0
    && 2 * Count(files, TimedAs(d, Below(lo))) < n <= 2 * Count(files, TimedAs(d, UpTo(lo)))
    && 2 * Count(files, TimedAs(d, Above(hi))) < n <= 2 * Count(files, TimedAs(d, From(hi)))
    && (forall f :: f in files && f in d ==> d[f] <= lo || d[f] >= hi)
    && (n % 2 == 1 ==> lo == hi)
  }

  /** A recorded file weighs its recorded duration. */
  lemma RecordedWeight(files: seq<string>, d: Durations, f: string)
    requires f in d
    ensures WeightOf(files, d)(f) == d[f]
  {
  }

  lemma {:induction false} KnownHas(files: seq<string>, d: Durations, f: string)
    requires f in files && f in d
    ensures d[f] in Known(files, d)
  {
    if f != files[0] {
      KnownHas(files[1..], d, f);
    }
  }

  lemma MiddleOfFiles(files: seq<string>, d: Durations, m: real, lo: real, hi: real)
    requires IsMiddle(Known(files, d), m, lo, hi)
    ensures IsMedianOf(files, d, m, lo, hi)
  {
    hide Count, Known;
    CountKnown(files, d, Below(lo));
    CountKnown(files, d, UpTo(lo));
    CountKnown(files, d, Above(hi));
    CountKnown(files, d, From(hi));
    forall f | f in files && f in d ensures d[f] <= lo || d[f] >= hi {
      KnownHas(files, d, f);
    }
  }

  /** A file nobody recorded weighs the median of the recorded files of the plan, or 1 when none is recorded. */
  lemma UnrecordedWeight(files: seq<string>, d: Durations, f: string) returns (lo: real, hi: real)
    requires f !in d
    ensures var w := WeightOf(files, d)(f);
            if Count(files, Timed(d)) == 0 then w == 1.0 else IsMedianOf(files, d, w, lo, hi)
  {
    hide Count, Known, IsMedianOf, IsMiddle, Median;
    CountKnown(files, d, Below(0.0));
    lo, hi := 1.0, 1.0;
    if Known(files, d) != [] {
      lo, hi := MedianIsMiddle(Known(files, d));
      MiddleOfFiles(files, d, Median(Known(files, d)), lo, hi);
    }
  }

  // ----- the plan depends on the weights of its files alone

  lemma {:induction false} SameInsert<T>(x: T, s: seq<T>, le: (T, T) -> bool, ge: (T, T) -> bool)
    requires forall i :: 0 <= i < |s| ==> le(x, s[i]) == ge(x, s[i])
    ensures Insert(x, s, le) == Insert(x, s, ge)
  {
    if s != [] && !le(x, s[0]) {
      SameInsert(x, s[1..], le, ge);
    }
  }

  lemma {:induction false} SameSort(s: seq<string>, le: (string, string) -> bool, ge: (string, string) -> bool)
    requires forall a, b :: a in s && b in s ==> le(a, b) == ge(a, b)
    ensures Sort(s, le) == Sort(s, ge)
  {
    if s != [] {
      SameSort(s[1..], le, ge);
      var r := Sort(s[1..], le);
      forall i | 0 <= i < |r| ensures le(s[0], r[i]) == ge(s[0], r[i]) {
        assert r[i] in multiset(r);
        assert r[i] in s[1..];
      }
      SameInsert(s[0], r, le, ge);
    }
  }

  lemma {:induction false} SameLoad(s: seq<string>, w: Weight, v: Weight)
    requires forall f :: f in s ==> w(f) == v(f)
    ensures Load(s, w) == Load(s, v)
  {
    if s != [] {
      SameLoad(s[..|s| - 1], w, v);
      assert s[|s| - 1] in s;
    }
  }

  lemma {:induction false} SameGreedy(s: seq<string>, w: Weight, v: Weight, n: nat)
    requires n > 0 && forall f :: f in s ==> w(f) == v(f)
    ensures Greedy(s, w, n) == Greedy(s, v, n)
  {
    hide Load, Lightest;
    if s != [] {
      var c := s[..|s| - 1];
      SameGreedy(c, w, v, n);
      var g := Greedy(c, w, n);
      forall k: nat | k < n ensures Load(g[k], w) == Load(g[k], v) {
        forall f | f in g[k] ensures w(f) == v(f) {
          MembersOfGreedy(c, w, n, k, f);
        }
        SameLoad(g[k], w, v);
      }
      assert Loads(g, w) == Loads(g, v);
    }
  }

  lemma SameWeightsSamePlan(n: int, files: seq<string>, d: Durations, e: Durations)
    requires forall f :: f in files ==> WeightOf(files, d)(f) == WeightOf(files, e)(f)
    ensures Planned(n, files, d) == Planned(n, files, e)
  {
    hide WeightOf, Sort, Greedy, SortEach;
    if n >= 1 {
      var w, v := WeightOf(files, d), WeightOf(files, e);
      SameSort(files, LongestFirst(w), LongestFirst(v));
      var sorted := Sort(files, LongestFirst(w));
      forall f | f in sorted ensures w(f) == v(f) {
        assert f in multiset(sorted);
        assert f in files;
      }
      SameGreedy(sorted, w, v, n);
    }
  }

  /** The recorded durations, completed with a default for the files nobody recorded. */
  function Completed(files: seq<string>, d: Durations, default: real): Durations {
    d + map f | f in files && f !in d :: default
  }

  /** Recording every unrecorded file with the weight it already has leaves the plan as it is. */
  lemma PlanOfCompleted(n: int, files: seq<string>, d: Durations, default: real)
    requires forall f :: f in files && f !in d ==> WeightOf(files, d)(f) == default
    ensures Planned(n, files, Completed(files, d, default)) == Planned(n, files, d)
  {
    hide WeightOf, Planned;
    var e := Completed(files, d, default);
    forall f | f in files ensures WeightOf(files, d)(f) == WeightOf(files, e)(f) {
      RecordedWeight(files, e, f);
      if f in d {
        RecordedWeight(files, d, f);
      }
    }
    SameWeightsSamePlan(n, files, d, e);
  }

  /** There is no plan exactly when there are files and no shard; without files there are as many empty shards as asked. */
  lemma PlanRefuses(n: int, files: seq<string>, d: Durations)
    ensures Planned(n, files, d).None? <==> n < 1 && files != []
    ensures Planned(n, files, d).Some? ==> |Planned(n, files, d).value| == if n < 1 then 0 else n
  {
  }

  /** The files are placed by weight, heaviest first; of equal weight, the name that comes first goes first. */
  lemma PlacedInOrder(files: seq<string>, w: Weight, i: nat, j: nat)
    requires i < j < |files|
    ensures var s := Sort(files, LongestFirst(w));
            w(s[i]) > w(s[j]) || (w(s[i]) == w(s[j]) && exists k: nat :: StringOrder.Decides(s[i], s[j], k))
  {
    hide StringOrder.Le, Sort;
    LongestFirstIsTotalOrder(w);
    SortSorts(files, LongestFirst(w));
    var s := Sort(files, LongestFirst(w));
    assert LongestFirst(w)(s[i], s[j]);
    StringOrder.LeMeans(s[i], s[j]);
  }
}
