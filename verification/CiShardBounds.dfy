/** How well scripts/ci_shard.py balances: spread, and the approximation ratio against every assignment. */
module CiShardBounds {
  import opened Wrappers
  import opened Sorting
  import opened CiShard

  /** `other` is some way to spread exactly these files over n shards. */
  ghost predicate Assigns(other: seq<seq<string>>, files: seq<string>, n: nat) {
    |other| == n && Union(other) == multiset(files)
  }

  ghost predicate NonNegative(d: Durations) {
    forall f :: f in d ==> d[f] >= 0.0
  }

  function Heaviest(loads: seq<real>): (r: real)
    requires loads != []
    ensures r in loads
    ensures forall k :: 0 <= k < |loads| ==> loads[k] <= r
  {
    if |loads| == 1 then loads[0]
    else
      var m := Heaviest(loads[1..]);
      assert forall k :: 0 < k < |loads| ==> loads[k] == loads[1..][k - 1];
      if m < loads[0] then loads[0] else m
  }

  // ----- the weights are not negative

  lemma {:induction false} KnownAreDurations(files: seq<string>, d: Durations)
    requires NonNegative(d)
    ensures forall r :: r in Known(files, d) ==> r >= 0.0
  {
    if files != [] {
      KnownAreDurations(files[1..], d);
    }
  }

  lemma MedianNonNegative(known: seq<real>)
    requires known != [] && forall r :: r in known ==> r >= 0.0
    ensures Median(known) >= 0.0
  {
    hide Sort;
    var s := Sort(known, RealLe);
    forall i | 0 <= i < |s| ensures s[i] >= 0.0 {
      assert s[i] in multiset(s);
      assert s[i] in known;
    }
  }

  lemma WeightsNonNegative(files: seq<string>, d: Durations)
    requires NonNegative(d)
    ensures forall f :: WeightOf(files, d)(f) >= 0.0
  {
    hide Known, Median;
    var known := Known(files, d);
    KnownAreDurations(files, d);
    if known != [] {
      MedianNonNegative(known);
    }
  }

  lemma {:induction false} LoadNonNegative(s: seq<string>, w: Weight)
    requires forall f :: w(f) >= 0.0
    ensures Load(s, w) >= 0.0
  {
    if s != [] {
      LoadNonNegative(s[..|s| - 1], w);
    }
  }

  lemma LoadOfPrefix(s: seq<string>, l: nat, w: Weight)
    requires l < |s| && forall f :: w(f) >= 0.0
    ensures Load(s[..l], w) + w(s[l]) <= Load(s, w)
  {
    assert s == (s[..l] + [s[l]]) + s[l + 1..];
    LoadConcat(s[..l] + [s[l]], s[l + 1..], w);
    LoadAppend(s[..l], s[l], w);
    LoadNonNegative(s[l + 1..], w);
  }

  // ----- n times x, as a sum: every bound below stays linear until the last step

  function Scale(n: nat, x: real): real {
    if n == 0 then 0.0 else Scale(n - 1, x) + x
  }

  lemma {:induction false} ScaleIsProduct(n: nat, x: real)
    ensures Scale(n, x) == (n as real) * x
  {
    if n > 0 {
      ScaleIsProduct(n - 1, x);
      assert (n as real) * x == ((n - 1) as real) * x + x;
    }
  }

  lemma {:induction false} ScaleMonotone(n: nat, x: real, y: real)
    requires x <= y
    ensures Scale(n, x) <= Scale(n, y)
  {
    if n > 0 {
      ScaleMonotone(n - 1, x, y);
    }
  }

  lemma {:induction false} ScaleNonNegative(n: nat, x: real)
    requires x >= 0.0
    ensures Scale(n, x) >= 0.0 && Scale(n, 0.0) == 0.0
  {
    if n > 0 {
      ScaleNonNegative(n - 1, x);
    }
  }

  lemma {:induction false} SumAtLeast(r: seq<real>, x: real)
    requires forall k :: 0 <= k < |r| ==> r[k] >= x
    ensures Sum(r) >= Scale(|r|, x)
  {
    if r != [] {
      SumAtLeast(r[1..], x);
    }
  }

  lemma {:induction false} SumAtMost(r: seq<real>, x: real)
    requires forall k :: 0 <= k < |r| ==> r[k] <= x
    ensures Sum(r) <= Scale(|r|, x)
  {
    if r != [] {
      SumAtMost(r[1..], x);
    }
  }

  // ----- list scheduling: the bound of the greedy choice alone

  /** Load of the lightest shard. */
  function LeastLoad(shards: seq<seq<string>>, w: Weight): (m: real)
    requires shards != []
    ensures forall k :: 0 <= k < |shards| ==> m <= Load(shards[k], w)
  {
    var loads := Loads(shards, w);
    assert forall k :: 0 <= k < |shards| ==> loads[k] == Load(shards[k], w);
    loads[Lightest(loads)]
  }

  /** The load that placing file l creates. */
  function Peak(files: seq<string>, l: nat, w: Weight, n: nat): real
    requires n > 0 && l < |files|
  {
    LeastLoad(Greedy(files[..l], w, n), w) + w(files[l])
  }

  ghost predicate Within(shards: seq<seq<string>>, w: Weight, t: real) {
    forall k :: 0 <= k < |shards| ==> Load(shards[k], w) <= t
  }

  lemma TotalAtMost(shards: seq<seq<string>>, files: seq<string>, w: Weight, t: real)
    requires Union(shards) == multiset(files) && Within(shards, w, t)
    ensures Load(files, w) <= Scale(|shards|, t)
  {
    LoadsAddUp(shards, files, w);
    SumAtMost(Loads(shards, w), t);
  }

  lemma TotalAtLeast(shards: seq<seq<string>>, files: seq<string>, w: Weight, t: real)
    requires Union(shards) == multiset(files)
    requires forall k :: 0 <= k < |shards| ==> t <= Load(shards[k], w)
    ensures Load(files, w) >= Scale(|shards|, t)
  {
    LoadsAddUp(shards, files, w);
    SumAtLeast(Loads(shards, w), t);
  }

  /** The lightest shard is no heavier than the average, whatever the order of the files. */
  lemma GreedyChoice(files: seq<string>, l: nat, w: Weight, n: nat, other: seq<seq<string>>, t: real)
    requires n > 0 && l < |files| && forall f :: w(f) >= 0.0
    requires Assigns(other, files, n) && Within(other, w, t)
    ensures Scale(n, Peak(files, l, w, n) - w(files[l])) + w(files[l]) <= Scale(n, t)
  {
    var g := Greedy(files[..l], w, n);
    var m := Peak(files, l, w, n) - w(files[l]);
    assert m == LeastLoad(g, w);
    GreedyPartitions(files[..l], w, n);
    TotalAtLeast(g, files[..l], w, m);
    TotalAtMost(other, files, w, t);
    LoadOfPrefix(files, l, w);
  }

  lemma {:induction false} FindShard(other: seq<seq<string>>, f: string) returns (k: nat)
    requires f in Union(other)
    ensures k < |other| && f in other[k]
  {
    if f in other[0] {
      k := 0;
    } else {
      var j := FindShard(other[1..], f);
      k := j + 1;
    }
  }

  lemma {:induction false} LoadCoversMember(s: seq<string>, f: string, w: Weight)
    requires f in s && forall g :: w(g) >= 0.0
    ensures w(f) <= Load(s, w)
  {
    var i :| 0 <= i < |s| && s[i] == f;
    LoadOfPrefix(s, i, w);
    LoadNonNegative(s[..i], w);
  }

  lemma NoFileExceeds(files: seq<string>, w: Weight, other: seq<seq<string>>, t: real, f: string)
    requires Union(other) == multiset(files) && f in files && forall g :: w(g) >= 0.0
    requires Within(other, w, t)
    ensures w(f) <= t
  {
    assert f in multiset(files);
    var k := FindShard(other, f);
    LoadCoversMember(other[k], f, w);
  }

  // ----- longest first: counting units when the next file is longer than a third of t

  /** Units of a file against the next file p: none if shorter, two if the two together exceed t, else one. */
  function Units(w: Weight, p: real, t: real): Weight {
    f => if w(f) < p then 0.0 else if w(f) + p > t then 2.0 else 1.0
  }

  /** A shard within t holds at most two units. */
  lemma {:induction false} FewUnitsWithin(s: seq<string>, w: Weight, p: real, t: real)
    requires 3.0 * p > t && t >= 0.0 && forall f :: w(f) >= 0.0
    ensures var u, l := Load(s, Units(w, p, t)), Load(s, w);
            && (u == 0.0 || u == 1.0 || u == 2.0 || u >= 3.0)
            && l >= 0.0
            && (u >= 1.0 ==> l >= p || l > t - p)
            && (u >= 2.0 ==> l > t - p)
            && (u >= 3.0 ==> l > t)
  {
    if s != [] {
      FewUnitsWithin(s[..|s| - 1], w, p, t);
    }
  }

  /** A shard of files no shorter than p that cannot take p holds at least two units. */
  lemma {:induction false} UnitsCountFiles(s: seq<string>, w: Weight, p: real, t: real)
    requires forall f :: f in s ==> w(f) >= p
    ensures Load(s, Units(w, p, t)) >= |s| as real
  {
    if s != [] {
      UnitsCountFiles(s[..|s| - 1], w, p, t);
    }
  }

  lemma ManyUnitsBeyond(s: seq<string>, w: Weight, p: real, t: real)
    requires p <= t && Load(s, w) + p > t
    requires forall f :: f in s ==> w(f) >= p
    ensures Load(s, Units(w, p, t)) >= 2.0
  {
    UnitsCountFiles(s, w, p, t);
    if |s| == 1 {
      assert Load(s[..0], w) == 0.0 && Load(s[..0], Units(w, p, t)) == 0.0;
    }
  }

  /** When the next file is longer than t/3, the lightest shard takes it within t: else units would be created. */
  lemma LongFileFits(files: seq<string>, l: nat, w: Weight, n: nat, other: seq<seq<string>>, t: real)
    requires n > 0 && l < |files| && t >= 0.0 && forall f :: w(f) >= 0.0
    requires Assigns(other, files, n) && Within(other, w, t)
    requires SortedBy(files, LongestFirst(w)) && 3.0 * w(files[l]) > t
    ensures Peak(files, l, w, n) <= t
  {
    if Peak(files, l, w, n) > t {
      var g := Greedy(files[..l], w, n);
      var p := w(files[l]);
      var u := Units(w, p, t);
      NoFileExceeds(files, w, other, t, files[l]);
      forall k | 0 <= k < n ensures 2.0 <= Load(g[k], u) {
        forall f | f in g[k] ensures w(f) >= p {
          MembersOfGreedy(files[..l], w, n, k, f);
        }
        ManyUnitsBeyond(g[k], w, p, t);
      }
      forall k | 0 <= k < n ensures Load(other[k], u) <= 2.0 {
        FewUnitsWithin(other[k], w, p, t);
      }
      GreedyPartitions(files[..l], w, n);
      TotalAtLeast(g, files[..l], u, 2.0);
      TotalAtMost(other, files, u, 2.0);
      LoadOfPrefix(files, l, u);
    }
  }

  // ----- over the whole loop

  /** Placing one file: the shard it joins reaches the peak, the others stay as they were. */
  lemma PlaceReachesPeak(files: seq<string>, l: nat, w: Weight, n: nat, k: nat)
    requires n > 0 && l < |files| && k < n
    ensures var x := Load(Greedy(files[..l + 1], w, n)[k], w);
            x == Load(Greedy(files[..l], w, n)[k], w) || x == Peak(files, l, w, n)
  {
    hide Greedy, Load, Lightest;
    var g := Greedy(files[..l], w, n);
    GreedyStep(files, l, w, n);
    LoadAppend(g[Lightest(Loads(g, w))], files[l], w);
  }

  lemma StartsLight(files: seq<string>, w: Weight, n: nat, k: nat)
    requires k < n
    ensures Load(Greedy(files[..0], w, n)[k], w) == 0.0
  {
  }

  /** A multiple of every load stays within a bound that the same multiple of every peak respects. */
  lemma {:induction false} GreedyStaysWithin(files: seq<string>, l: nat, w: Weight, n: nat, c: nat, y: real)
    requires n > 0 && l <= |files| && y >= 0.0
    requires forall i :: 0 <= i < l ==> Scale(c, Peak(files, i, w, n)) <= y
    ensures forall k :: 0 <= k < n ==> Scale(c, Load(Greedy(files[..l], w, n)[k], w)) <= y
  {
    hide *;
    forall k | 0 <= k < n ensures Scale(c, Load(Greedy(files[..l], w, n)[k], w)) <= y {
      if l == 0 {
        StartsLight(files, w, n, k);
        ScaleNonNegative(c, 0.0);
      } else {
        GreedyStaysWithin(files, l - 1, w, n, c, y);
        PlaceReachesPeak(files, l - 1, w, n, k);
        assert Scale(c, Peak(files, l - 1, w, n)) <= y;
      }
    }
  }

  lemma {:induction false} ScaleAdds(n: nat, x: real, y: real)
    ensures Scale(n, x + y) == Scale(n, x) + Scale(n, y)
  {
    if n > 0 {
      ScaleAdds(n - 1, x, y);
    }
  }

  lemma {:induction false} ScaleSplits(m: nat, n: nat, x: real)
    ensures Scale(m + n, x) == Scale(m, x) + Scale(n, x)
  {
    if m > 0 {
      ScaleSplits(m - 1, n, x);
    }
  }

  lemma ScaleTriples(n: nat, x: real)
    ensures Scale(3 * n, x) == 3.0 * Scale(n, x)
  {
    ScaleSplits(n, n, x);
    ScaleSplits(n, 2 * n, x);
  }

  lemma ShortFileArithmetic(n: nat, m: real, p: real, t: real)
    requires n > 0 && Scale(n, m) + p <= Scale(n, t)
    ensures p <= t ==> Scale(n, m + p) <= Scale(2 * n - 1, t)
    ensures 3.0 * p <= t ==> Scale(3 * n, m + p) <= Scale(4 * n - 1, t)
  {
    ScaleAdds(n, m, p);
    ScaleSplits(n - 1, n, t);
    if p <= t {
      ScaleMonotone(n - 1, p, t);
    }
    if 3.0 * p <= t {
      ScaleTriples(n, m + p);
      ScaleTriples(n, t);
      ScaleSplits(n - 1, 3 * n, t);
      ScaleMonotone(n - 1, 3.0 * p, t);
      ScaleTriples(n - 1, p);
      ScaleAdds(n - 1, p, p);
      ScaleAdds(n - 1, p + p, p);
    }
  }

  lemma LongFileArithmetic(n: nat, x: real, t: real)
    requires n > 0 && t >= 0.0 && x <= t
    ensures Scale(3 * n, x) <= Scale(4 * n - 1, t)
  {
    ScaleMonotone(3 * n, x, t);
    ScaleGrows(3 * n, 4 * n - 1, t);
  }

  lemma {:induction false} ScaleGrows(m: nat, n: nat, x: real)
    requires m <= n && x >= 0.0
    ensures Scale(m, x) <= Scale(n, x)
  {
    if m < n {
      ScaleGrows(m, n - 1, x);
    }
  }

  lemma ShortFilePeak(files: seq<string>, l: nat, w: Weight, n: nat, other: seq<seq<string>>, t: real)
    requires n > 0 && l < |files| && forall f :: w(f) >= 0.0
    requires Assigns(other, files, n) && Within(other, w, t)
    ensures w(files[l]) <= t ==> Scale(n, Peak(files, l, w, n)) <= Scale(2 * n - 1, t)
    ensures 3.0 * w(files[l]) <= t ==> Scale(3 * n, Peak(files, l, w, n)) <= Scale(4 * n - 1, t)
  {
    GreedyChoice(files, l, w, n, other, t);
    var p := w(files[l]);
    ShortFileArithmetic(n, Peak(files, l, w, n) - p, p, t);
  }

  /** Greedy in ANY order stays within 2 - 1/n of any assignment of the same files. */
  lemma ListSchedulingRatio(files: seq<string>, w: Weight, n: nat, other: seq<seq<string>>, t: real, k: nat)
    requires k < n && forall f :: w(f) >= 0.0
    requires Assigns(other, files, n) && Within(other, w, t)
    ensures Scale(n, Load(Greedy(files, w, n)[k], w)) <= Scale(2 * n - 1, t)
  {
    LoadNonNegative(other[0], w);
    ScaleNonNegative(2 * n - 1, t);
    forall i | 0 <= i < |files| ensures Scale(n, Peak(files, i, w, n)) <= Scale(2 * n - 1, t) {
      NoFileExceeds(files, w, other, t, files[i]);
      ShortFilePeak(files, i, w, n, other, t);
    }
    GreedyStaysWithin(files, |files|, w, n, n, Scale(2 * n - 1, t));
    assert files[..|files|] == files;
  }

  lemma PeakRatio(files: seq<string>, l: nat, w: Weight, n: nat, other: seq<seq<string>>, t: real)
    requires n > 0 && l < |files| && t >= 0.0 && forall f :: w(f) >= 0.0
    requires SortedBy(files, LongestFirst(w)) && Assigns(other, files, n) && Within(other, w, t)
    ensures Scale(3 * n, Peak(files, l, w, n)) <= Scale(4 * n - 1, t)
  {
    if 3.0 * w(files[l]) > t {
      LongFileFits(files, l, w, n, other, t);
      LongFileArithmetic(n, Peak(files, l, w, n), t);
    } else {
      ShortFilePeak(files, l, w, n, other, t);
    }
  }

  /** Longest first stays within 4/3 - 1/(3n) of any assignment of the same files. */
  lemma LongestFirstRatio(files: seq<string>, w: Weight, n: nat, other: seq<seq<string>>, t: real, k: nat)
    requires k < n && forall f :: w(f) >= 0.0
    requires SortedBy(files, LongestFirst(w)) && Assigns(other, files, n) && Within(other, w, t)
    ensures Scale(3 * n, Load(Greedy(files, w, n)[k], w)) <= Scale(4 * n - 1, t)
  {
    LoadNonNegative(other[0], w);
    ScaleNonNegative(4 * n - 1, t);
    forall i | 0 <= i < |files| ensures Scale(3 * n, Peak(files, i, w, n)) <= Scale(4 * n - 1, t) {
      PeakRatio(files, i, w, n, other, t);
    }
    GreedyStaysWithin(files, |files|, w, n, 3 * n, Scale(4 * n - 1, t));
    assert files[..|files|] == files;
  }

  lemma {:induction false} PermutedLoads(g: seq<seq<string>>, w: Weight)
    ensures Loads(SortEach(g), w) == Loads(g, w)
  {
    forall k | 0 <= k < |g| ensures Load(SortEach(g)[k], w) == Load(g[k], w) {
      LoadOfPermutation(SortEach(g)[k], g[k], w);
    }
  }

  /** Heaviest load of the shards, each file weighing what the plan of `files` weighs it. */
  function Makespan(shards: seq<seq<string>>, files: seq<string>, d: Durations): real
    requires shards != []
  {
    Heaviest(Loads(shards, WeightOf(files, d)))
  }

  lemma PlanRatioScaled(n: nat, files: seq<string>, d: Durations, shards: seq<seq<string>>, other: seq<seq<string>>)
    requires n > 0 && NonNegative(d) && Assigns(other, files, n) && Planned(n, files, d) == Some(shards)
    ensures Scale(3 * n, Makespan(shards, files, d)) <= Scale(4 * n - 1, Makespan(other, files, d))
  {
    var w := WeightOf(files, d);
    var sorted := Sort(files, LongestFirst(w));
    var loads := Loads(Greedy(sorted, w, n), w);
    WeightsNonNegative(files, d);
    LongestFirstIsTotalOrder(w);
    SortSorts(files, LongestFirst(w));
    PermutedLoads(Greedy(sorted, w, n), w);
    var k :| 0 <= k < n && loads[k] == Heaviest(loads);
    assert Within(other, w, Heaviest(Loads(other, w))) by {
      assert forall j :: 0 <= j < n ==> Load(other[j], w) == Loads(other, w)[j];
    }
    LongestFirstRatio(sorted, w, n, other, Heaviest(Loads(other, w)), k);
  }

  /** x is at most 4/3 - 1/(3n) times y. */
  ghost predicate WithinRatio(n: nat, x: real, y: real)
    requires n > 0
  {
    x <= (4.0 / 3.0 - 1.0 / (3.0 * (n as real))) * y
  }

  lemma RatioOfScaled(n: nat, x: real, y: real)
    requires n > 0 && Scale(3 * n, x) <= Scale(4 * n - 1, y)
    ensures WithinRatio(n, x, y)
  {
    var c := 3.0 * (n as real);
    ScaleIsProduct(3 * n, x);
    ScaleIsProduct(4 * n - 1, y);
    var r := 4.0 / 3.0 - 1.0 / c;
    assert r * c == 4.0 * (n as real) - 1.0;
    assert c * (r * y) == (r * c) * y;
    if r * y < x {
      assert c * (x - r * y) > 0.0;
    }
  }

  /** The planned heaviest shard against the heaviest shard of ANY assignment of the same files: 4/3 - 1/(3n). */
  lemma PlanRatio(n: nat, files: seq<string>, d: Durations, shards: seq<seq<string>>, other: seq<seq<string>>)
    requires n > 0 && NonNegative(d) && Assigns(other, files, n) && Planned(n, files, d) == Some(shards)
    ensures WithinRatio(n, Makespan(shards, files, d), Makespan(other, files, d))
  {
    PlanRatioScaled(n, files, d, shards, other);
    RatioOfScaled(n, Makespan(shards, files, d), Makespan(other, files, d));
  }

  // ----- spread

  ghost predicate SpreadWithin(loads: seq<real>, longest: real) {
    forall i, j :: 0 <= i < |loads| && 0 <= j < |loads| ==> loads[i] - loads[j] <= longest
  }

  lemma PlaceKeepsSpread(shards: seq<seq<string>>, w: Weight, f: string, longest: real)
    requires shards != [] && 0.0 <= w(f) <= longest && SpreadWithin(Loads(shards, w), longest)
    ensures SpreadWithin(Loads(Place(shards, w, f), w), longest)
  {
    var loads := Loads(shards, w);
    var i := Lightest(loads);
    LoadsAfterAppend(shards, i, f, w);
  }

  lemma {:induction false} GreedySpread(files: seq<string>, w: Weight, n: nat, longest: real)
    requires n > 0 && longest >= 0.0 && forall f :: f in files ==> 0.0 <= w(f) <= longest
    ensures SpreadWithin(Loads(Greedy(files, w, n), w), longest)
  {
    if files != [] {
      GreedySpread(files[..|files| - 1], w, n, longest);
      PlaceKeepsSpread(Greedy(files[..|files| - 1], w, n), w, files[|files| - 1], longest);
    }
  }

  /** Two planned shards never differ by more than the longest file. */
  lemma PlanSpread(n: nat, files: seq<string>, d: Durations, longest: real)
    requires n > 0 && NonNegative(d)
    requires longest >= 0.0 && forall f :: f in files ==> WeightOf(files, d)(f) <= longest
    ensures Planned(n, files, d).Some?
    ensures SpreadWithin(Loads(Planned(n, files, d).value, WeightOf(files, d)), longest)
  {
    var w := WeightOf(files, d);
    var sorted := Sort(files, LongestFirst(w));
    WeightsNonNegative(files, d);
    forall f | f in sorted ensures 0.0 <= w(f) <= longest {
      assert f in multiset(sorted);
      assert f in files;
    }
    GreedySpread(sorted, w, n, longest);
    PermutedLoads(Greedy(sorted, w, n), w);
  }
}
