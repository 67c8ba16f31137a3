/** The CI shard scheduler, scripts/ci_shard.py: what `plan` computes, and what it keeps. */
module CiShard {
  import opened Wrappers
  import opened Sorting
  import StringOrder

  type Durations = map<string, real>

  // ----- weights: a file nobody timed counts as the median

  /** The recorded durations of the files, in the order of the files. */
  function Known(files: seq<string>, durations: Durations): seq<real> {
    if files == [] then [] else KnownOf(files[0], durations) + Known(files[1..], durations)
  }

  function KnownOf(file: string, durations: Durations): seq<real> {
    if file in durations then [durations[file]] else []
  }

  predicate RealLe(a: real, b: real) {
    a <= b
  }

  function Median(known: seq<real>): real
    requires known != []
  {
    var s := Sort(known, RealLe);
    if |s| % 2 == 1 then s[|s| / 2] else (s[|s| / 2 - 1] + s[|s| / 2]) / 2.0
  }

  function Default(files: seq<string>, durations: Durations): real {
    var known := Known(files, durations);
    if known == [] then 1.0 else Median(known)
  }

  type Weight = string -> real

  function WeightOf(files: seq<string>, durations: Durations): Weight {
    var default := Default(files, durations);
    f => if f in durations then durations[f] else default
  }

  /** The sort key of `plan`: longest first, names break ties. */
  function LongestFirst(w: Weight): (string, string) -> bool {
    (a, b) => w(a) > w(b) || (w(a) == w(b) && StringOrder.Le(a, b))
  }

  // ----- loads

  function Load(files: seq<string>, w: Weight): real {
    if files == [] then 0.0 else Load(files[..|files| - 1], w) + w(files[|files| - 1])
  }

  function Loads(shards: seq<seq<string>>, w: Weight): (r: seq<real>)
    ensures |r| == |shards|
    ensures forall k :: 0 <= k < |r| ==> r[k] == Load(shards[k], w)
  {
    seq(|shards|, k requires 0 <= k < |shards| => Load(shards[k], w))
  }

  /** The elements of all the shards together. */
  function Union(shards: seq<seq<string>>): multiset<string> {
    if shards == [] then multiset{} else multiset(shards[0]) + Union(shards[1..])
  }

  /** The first shard of least load: `min(range(n), key=lambda k: (totals[k], k))`. */
  function Lightest(totals: seq<real>): (i: nat)
    requires totals != []
    ensures i < |totals|
    ensures forall k :: 0 <= k < |totals| ==> totals[i] <= totals[k]
    ensures forall k :: 0 <= k < i ==> totals[i] < totals[k]
  {
    if |totals| == 1 then 0
    else
      var j := Lightest(totals[..|totals| - 1]);
      if totals[|totals| - 1] < totals[j] then |totals| - 1 else j
  }

  // ----- what the greedy loop has built after a list of files

  function Place(shards: seq<seq<string>>, w: Weight, f: string): seq<seq<string>>
    requires shards != []
  {
    var i := Lightest(Loads(shards, w));
    shards[i := shards[i] + [f]]
  }

  function Greedy(files: seq<string>, w: Weight, n: nat): (r: seq<seq<string>>)
    requires n > 0
    ensures |r| == n
  {
    if files == [] then seq(n, _ => [])
    else Place(Greedy(files[..|files| - 1], w, n), w, files[|files| - 1])
  }

  function SortEach(shards: seq<seq<string>>): (r: seq<seq<string>>)
    ensures |r| == |shards|
    ensures forall k :: 0 <= k < |r| ==> r[k] == Sort(shards[k], StringOrder.Le)
  {
    seq(|shards|, k requires 0 <= k < |shards| => Sort(shards[k], StringOrder.Le))
  }

  /** The result of `plan`; None is the ValueError of `min` over no shard. */
  function Planned(n: int, files: seq<string>, durations: Durations): Option<seq<seq<string>>> {
    if n >= 1 then
      var w := WeightOf(files, durations);
      Some(SortEach(Greedy(Sort(files, LongestFirst(w)), w, n)))
    else if files == [] then Some([]) else None
  }

  // ----- the code

  method LightestOf(totals: array<real>) returns (i: nat)
    requires totals.Length > 0
    ensures i == Lightest(totals[..])
  {
    i := 0;
    for k := 1 to totals.Length
      invariant i < k
      invariant i == Lightest(totals[..k])
    {
      assert totals[..k + 1][..k] == totals[..k];
      if totals[k] < totals[i] {
        i := k;
      }
    }
    assert totals[..totals.Length] == totals[..];
  }

  method Plan(n: int, files: seq<string>, durations: Durations) returns (r: Option<seq<seq<string>>>)
    ensures r == Planned(n, files, durations)
  {
    if n < 1 {
      return if files == [] then Some([]) else None;
    }
    var w := WeightOf(files, durations);
    var weighted := Sort(files, LongestFirst(w));
    var shards := Assign(weighted, w, n);
    r := Some(SortEach(shards));
  }

  lemma GreedyStep(files: seq<string>, k: nat, w: Weight, n: nat)
    requires k < |files| && n > 0
    ensures Greedy(files[..k + 1], w, n) == Place(Greedy(files[..k], w, n), w, files[k])
  {
    assert files[..k + 1][..k] == files[..k];
  }

  lemma StartsEmpty(shards: seq<seq<string>>, totals: seq<real>, files: seq<string>, w: Weight, n: nat)
    requires n > 0 && |shards| == |totals| == n
    requires forall k :: 0 <= k < n ==> shards[k] == [] && totals[k] == 0.0
    ensures shards == Greedy(files[..0], w, n) && totals == Loads(shards, w)
  {
  }

  /** The greedy loop of `plan`. */
  method Assign(weighted: seq<string>, w: Weight, n: nat) returns (r: seq<seq<string>>)
    requires n > 0
    ensures r == Greedy(weighted, w, n)
  {
    hide Greedy, Load, Lightest;
    var shards := new seq<string>[n](_ => []);
    var totals := new real[n](_ => 0.0);
    StartsEmpty(shards[..], totals[..], weighted, w, n);
    for k := 0 to |weighted|
      invariant shards[..] == Greedy(weighted[..k], w, n)
      invariant totals[..] == Loads(shards[..], w)
    {
      var f := weighted[k];
      ghost var before, loads := shards[..], totals[..];
      var i := LightestOf(totals);
      LoadsAfterAppend(before, i, f, w);
      GreedyStep(weighted, k, w, n);
      shards[i] := shards[i] + [f];
      totals[i] := totals[i] + w(f);
      assert shards[..] == before[i := before[i] + [f]];
      assert totals[..] == loads[i := loads[i] + w(f)];
    }
    assert weighted[..|weighted|] == weighted;
    r := shards[..];
  }

  // ----- sums over shards

  lemma {:induction false} MembersOfGreedy(files: seq<string>, w: Weight, n: nat, k: nat, f: string)
    requires k < n && f in Greedy(files, w, n)[k]
    ensures f in files
  {
    if files != [] {
      var c := files[..|files| - 1];
      if f in Greedy(c, w, n)[k] {
        MembersOfGreedy(c, w, n, k, f);
      }
    }
  }

  lemma LoadAppend(s: seq<string>, f: string, w: Weight)
    ensures Load(s + [f], w) == Load(s, w) + w(f)
  {
    assert (s + [f])[..|s|] == s;
  }

  lemma LoadsAfterAppend(shards: seq<seq<string>>, i: nat, f: string, w: Weight)
    requires i < |shards|
    ensures Loads(shards[i := shards[i] + [f]], w) == Loads(shards, w)[i := Load(shards[i], w) + w(f)]
  {
    LoadAppend(shards[i], f, w);
  }

  lemma {:induction false} LoadConcat(a: seq<string>, b: seq<string>, w: Weight)
    ensures Load(a + b, w) == Load(a, w) + Load(b, w)
  {
    if b == [] {
      assert a + b == a;
    } else {
      var c, x := b[..|b| - 1], b[|b| - 1];
      LoadConcat(a, c, w);
      assert a + b == (a + c) + [x];
      LoadAppend(a + c, x, w);
    }
  }

  lemma SplitAt(s: seq<string>, x: string) returns (a: seq<string>, b: seq<string>)
    requires x in multiset(s)
    ensures s == a + [x] + b
    ensures multiset(a + b) == multiset(s) - multiset{x}
  {
    var i :| 0 <= i < |s| && s[i] == x;
    a, b := s[..i], s[i + 1..];
    assert s == a + [x] + b;
  }

  /** A load depends on which files a shard holds, not on their order. */
  lemma {:induction false} LoadOfPermutation(s: seq<string>, t: seq<string>, w: Weight)
    requires multiset(s) == multiset(t)
    ensures Load(s, w) == Load(t, w)
    decreases |s|
  {
    if s == [] {
      assert |t| == |multiset(t)| == 0;
    } else {
      var c, x := s[..|s| - 1], s[|s| - 1];
      assert s == c + [x];
      assert x in multiset(s);
      var a, b := SplitAt(t, x);
      LoadOfPermutation(c, a + b, w);
      LoadConcat(a, b, w);
      LoadConcat(a + [x], b, w);
      LoadAppend(a, x, w);
    }
  }

  function Sum(r: seq<real>): real {
    if r == [] then 0.0 else r[0] + Sum(r[1..])
  }

  /** Conservation: however files are spread over shards, the loads add up to the load of the files. */
  lemma {:induction false} LoadsAddUp(shards: seq<seq<string>>, files: seq<string>, w: Weight)
    requires Union(shards) == multiset(files)
    ensures Sum(Loads(shards, w)) == Load(files, w)
  {
    var flat := Flatten(shards, w);
    LoadOfPermutation(flat, files, w);
  }

  lemma {:induction false} Flatten(shards: seq<seq<string>>, w: Weight) returns (flat: seq<string>)
    ensures multiset(flat) == Union(shards)
    ensures Load(flat, w) == Sum(Loads(shards, w))
  {
    flat := [];
    if shards != [] {
      var rest := Flatten(shards[1..], w);
      flat := shards[0] + rest;
      LoadConcat(shards[0], rest, w);
      assert Loads(shards, w)[1..] == Loads(shards[1..], w);
    }
  }

  lemma {:induction false} UnionOfUpdate(shards: seq<seq<string>>, i: nat, s: seq<string>)
    requires i < |shards|
    ensures Union(shards[i := s]) + multiset(shards[i]) == Union(shards) + multiset(s)
  {
    if i == 0 {
      assert shards[0 := s][1..] == shards[1..];
    } else {
      UnionOfUpdate(shards[1..], i - 1, s);
      var updated := shards[i := s];
      assert updated[1..] == shards[1..][i - 1 := s];
      var a, u, v := multiset(shards[0]), Union(updated[1..]), Union(shards[1..]);
      assert updated[0] == shards[0] && Union(updated) == a + u && Union(shards) == a + v;
      assert (a + u) + multiset(shards[i]) == a + (u + multiset(shards[i]));
      assert (a + v) + multiset(s) == a + (v + multiset(s));
    }
  }

  lemma Cancel(a: multiset<string>, b: multiset<string>, c: multiset<string>)
    requires a + c == b + c
    ensures a == b
  {
    assert (a + c) - c == a;
    assert (b + c) - c == b;
  }

  lemma {:induction false} UnionOfEmpty(shards: seq<seq<string>>)
    requires forall k :: 0 <= k < |shards| ==> shards[k] == []
    ensures Union(shards) == multiset{}
  {
    if shards != [] {
      UnionOfEmpty(shards[1..]);
    }
  }

  lemma {:induction false} UnionOfPermuted(a: seq<seq<string>>, b: seq<seq<string>>)
    requires |a| == |b| && forall k :: 0 <= k < |a| ==> multiset(a[k]) == multiset(b[k])
    ensures Union(a) == Union(b)
  {
    if a != [] {
      UnionOfPermuted(a[1..], b[1..]);
    }
  }

  lemma PlacePartitions(shards: seq<seq<string>>, w: Weight, f: string)
    requires shards != []
    ensures Union(Place(shards, w, f)) == Union(shards) + multiset{f}
  {
    var i := Lightest(Loads(shards, w));
    UnionOfUpdate(shards, i, shards[i] + [f]);
    assert Union(shards) + multiset(shards[i] + [f]) == (Union(shards) + multiset{f}) + multiset(shards[i]);
    Cancel(Union(Place(shards, w, f)), Union(shards) + multiset{f}, multiset(shards[i]));
  }

  lemma {:induction false} GreedyPartitions(files: seq<string>, w: Weight, n: nat)
    requires n > 0
    ensures Union(Greedy(files, w, n)) == multiset(files)
  {
    hide Place, Union;
    if files == [] {
      UnionOfEmpty(Greedy(files, w, n));
    } else {
      var c, x := files[..|files| - 1], files[|files| - 1];
      GreedyPartitions(c, w, n);
      PlacePartitions(Greedy(c, w, n), w, x);
      assert files == c + [x];
    }
  }

  /** Every file lands in exactly one shard (as often as it is listed), and each shard is sorted. */
  lemma PlanPartitions(n: nat, files: seq<string>, durations: Durations)
    requires n > 0
    ensures Planned(n, files, durations).Some?
    ensures var shards := Planned(n, files, durations).value;
            && |shards| == n && Union(shards) == multiset(files)
            && forall k :: 0 <= k < n ==> SortedBy(shards[k], StringOrder.Le)
  {
    var w := WeightOf(files, durations);
    var sorted := Sort(files, LongestFirst(w));
    var g := Greedy(sorted, w, n);
    GreedyPartitions(sorted, w, n);
    UnionOfPermuted(g, SortEach(g));
    StringOrder.IsTotalOrder();
    forall k | 0 <= k < n ensures SortedBy(SortEach(g)[k], StringOrder.Le) {
      SortSorts(g[k], StringOrder.Le);
    }
  }

  // ----- the same shards for any order of the files

  lemma KnownStep(file: string, rest: seq<string>, d: Durations)
    ensures Known([file] + rest, d) == KnownOf(file, d) + Known(rest, d)
  {
    assert ([file] + rest)[1..] == rest;
  }

  lemma {:induction false} KnownConcat(a: seq<string>, b: seq<string>, d: Durations)
    ensures Known(a + b, d) == Known(a, d) + Known(b, d)
  {
    if a == [] {
      assert a + b == b;
    } else {
      KnownConcat(a[1..], b, d);
      KnownHead(a, b, d);
    }
  }

  lemma KnownHead(a: seq<string>, b: seq<string>, d: Durations)
    requires a != [] && Known(a[1..] + b, d) == Known(a[1..], d) + Known(b, d)
    ensures Known(a + b, d) == Known(a, d) + Known(b, d)
  {
    hide *;
    var x, c := a[0], a[1..];
    assert a == [x] + c && a + b == [x] + (c + b);
    KnownStep(x, c, d);
    KnownStep(x, c + b, d);
  }

  lemma KnownMoves(x: string, a: seq<string>, b: seq<string>, d: Durations)
    ensures multiset(Known(a + [x] + b, d)) == multiset(KnownOf(x, d)) + multiset(Known(a + b, d))
  {
    hide *;
    KnownConcat(a, b, d);
    KnownConcat(a, [x] + b, d);
    KnownStep(x, b, d);
    assert a + [x] + b == a + ([x] + b);
  }

  lemma {:induction false} KnownOfPermutation(s: seq<string>, t: seq<string>, d: Durations)
    requires multiset(s) == multiset(t)
    ensures multiset(Known(s, d)) == multiset(Known(t, d))
    decreases |s|
  {
    hide *;
    if s == [] {
      assert |t| == |multiset(t)| == 0;
    } else {
      var c, x := s[1..], s[0];
      assert s == [x] + c;
      assert x in multiset(s);
      var a, b := SplitAt(t, x);
      KnownOfPermutation(c, a + b, d);
      KnownMoves(x, a, b, d);
      KnownStep(x, c, d);
    }
  }

  lemma RealLeIsTotalOrder()
    ensures TotalPreorder(RealLe) && Antisymmetric(RealLe)
  {
  }

  lemma LongestFirstIsTotalOrder(w: Weight)
    ensures TotalPreorder(LongestFirst(w)) && Antisymmetric(LongestFirst(w))
  {
    StringOrder.IsTotalOrder();
  }

  lemma WeightIgnoresOrder(f1: seq<string>, f2: seq<string>, d: Durations)
    requires multiset(f1) == multiset(f2)
    ensures Default(f1, d) == Default(f2, d)
  {
    hide Known, Sort;
    KnownOfPermutation(f1, f2, d);
    var k1, k2 := Known(f1, d), Known(f2, d);
    assert |k1| == |multiset(k1)| == |multiset(k2)| == |k2|;
    RealLeIsTotalOrder();
    SortForgetsOrder(k1, k2, RealLe);
    if k1 != [] {
      assert Median(k1) == Median(k2);
    }
  }

  lemma SameDefaultSameSort(s: seq<string>, w: Weight, v: Weight)
    requires forall f :: w(f) == v(f)
    ensures Sort(s, LongestFirst(w)) == Sort(s, LongestFirst(v))
  {
    LongestFirstIsTotalOrder(w);
    LongestFirstIsTotalOrder(v);
    SortSorts(s, LongestFirst(w));
    SortSorts(s, LongestFirst(v));
    SortedIsUnique(Sort(s, LongestFirst(w)), Sort(s, LongestFirst(v)), LongestFirst(w));
  }

  lemma {:induction false} SameWeightSameLoad(s: seq<string>, w: Weight, v: Weight)
    requires forall f :: w(f) == v(f)
    ensures Load(s, w) == Load(s, v)
  {
    if s != [] {
      SameWeightSameLoad(s[..|s| - 1], w, v);
    }
  }

  lemma {:induction false} SameWeightSameGreedy(s: seq<string>, w: Weight, v: Weight, n: nat)
    requires n > 0 && forall f :: w(f) == v(f)
    ensures Greedy(s, w, n) == Greedy(s, v, n)
  {
    if s != [] {
      var c := s[..|s| - 1];
      SameWeightSameGreedy(c, w, v, n);
      var g := Greedy(c, w, n);
      forall k | 0 <= k < n ensures Load(g[k], w) == Load(g[k], v) {
        SameWeightSameLoad(g[k], w, v);
      }
      assert Loads(g, w) == Loads(g, v);
    }
  }

  /** A re-run plans the same shards, in whatever order the files are listed. */
  lemma PlanIgnoresOrder(n: int, f1: seq<string>, f2: seq<string>, d: Durations)
    requires multiset(f1) == multiset(f2)
    ensures Planned(n, f1, d) == Planned(n, f2, d)
  {
    assert |f1| == |multiset(f1)| == |multiset(f2)| == |f2|;
    if n >= 1 {
      WeightIgnoresOrder(f1, f2, d);
      var w, v := WeightOf(f1, d), WeightOf(f2, d);
      assert forall f :: w(f) == v(f);
      LongestFirstIsTotalOrder(w);
      SortForgetsOrder(f1, f2, LongestFirst(w));
      SameDefaultSameSort(f2, w, v);
      SameWeightSameGreedy(Sort(f2, LongestFirst(w)), w, v, n);
    }
  }
}
