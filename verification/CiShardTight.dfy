/** The factor of scripts/ci_shard.py cannot be lowered: for every number of shards it is reached. */
module CiShardTight {
  import opened Wrappers
  import opened Sorting
  import opened CiShard
  import opened CiShardBounds
  import StringOrder

  // ----- 2n + 1 files: two each of 2n-1 down to n+1, and three of n

  function Size(n: nat, j: nat): int {
    if j < 2 * n then 2 * n - 1 - j / 2 else n
  }

  /** Load of seat k when the first n files take the seats in order and the next n in reverse order, after j files. */
  function Seated(n: nat, j: nat, k: nat): int
    requires k < n
  {
    (if k < j then Size(n, k) else 0) + (if 2 * n - 1 - k < j then Size(n, 2 * n - 1 - k) else 0)
  }

  function Seat(n: nat, j: nat): nat
    requires j < 2 * n
  {
    if j < n then j else 2 * n - 1 - j
  }

  lemma HalvesOfOdd(n: nat, k: nat)
    requires k < 2 * n
    ensures k / 2 + (2 * n - 1 - k) / 2 == n - 1
  {
  }

  /** That seat is the lightest. */
  lemma SeatIsLightest(n: nat, j: nat, k: nat)
    requires j < 2 * n && k < n
    ensures Seat(n, j) < n
    ensures Seated(n, j, Seat(n, j)) <= Seated(n, j, k)
  {
    if j >= n {
      var p := Seat(n, j);
      HalvesOfOdd(n, k);
    }
  }

  lemma SeatGrows(n: nat, j: nat, k: nat)
    requires j < 2 * n && k < n
    ensures Seated(n, j + 1, k) == Seated(n, j, k) + (if k == Seat(n, j) then Size(n, j) else 0)
  {
  }

  /** Every seat ends with a pair of 3n-1. */
  lemma SeatsEndEqual(n: nat, k: nat)
    requires k < n
    ensures Seated(n, 2 * n, k) == 3 * n - 1
  {
    HalvesOfOdd(n, k);
  }

  function SeatedLoads(n: nat, j: nat): (r: seq<real>)
    ensures |r| == n
  {
    seq(n, k requires 0 <= k < n => Seated(n, j, k) as real)
  }

  // ----- greedy loads are seated loads, whichever of equally light shards is taken

  lemma PlaceAlike(loads: seq<real>, seats: seq<real>, p: nat, x: real)
    requires multiset(loads) == multiset(seats) && p < |seats| && loads != []
    requires forall k :: 0 <= k < |seats| ==> seats[p] <= seats[k]
    ensures var i := Lightest(loads);
            multiset(loads[i := loads[i] + x]) == multiset(seats[p := seats[p] + x])
  {
    var i := Lightest(loads);
    assert seats[p] in multiset(loads) && loads[i] in multiset(seats);
    var a :| 0 <= a < |loads| && loads[a] == seats[p];
    var b :| 0 <= b < |seats| && seats[b] == loads[i];
  }

  lemma PlaceAlikeIn(loads: seq<real>, more: seq<real>, seats: seq<real>, next: seq<real>, p: nat, x: real)
    requires multiset(loads) == multiset(seats) && p < |seats| && loads != []
    requires forall k :: 0 <= k < |seats| ==> seats[p] <= seats[k]
    requires more == loads[Lightest(loads) := loads[Lightest(loads)] + x] && next == seats[p := seats[p] + x]
    ensures multiset(more) == multiset(next)
  {
    hide *;
    PlaceAlike(loads, seats, p, x);
  }

  lemma PlacedLoads(shards: seq<seq<string>>, f: string, w: Weight)
    requires shards != []
    ensures var loads := Loads(shards, w);
            Loads(Place(shards, w, f), w) == loads[Lightest(loads) := loads[Lightest(loads)] + w(f)]
  {
    hide Load, Lightest;
    var loads := Loads(shards, w);
    LoadsAfterAppend(shards, Lightest(loads), f, w);
  }

  ghost predicate IsInstance(files: seq<string>, w: Weight, n: nat) {
    n > 0 && |files| == 2 * n + 1 && forall j :: 0 <= j <= 2 * n ==> w(files[j]) == Size(n, j) as real
  }

  lemma SeatedStep(n: nat, j: nat)
    requires j < 2 * n
    ensures Seat(n, j) < n
    ensures var s := SeatedLoads(n, j); SeatedLoads(n, j + 1) == s[Seat(n, j) := s[Seat(n, j)] + Size(n, j) as real]
    ensures forall k :: 0 <= k < n ==> SeatedLoads(n, j)[Seat(n, j)] <= SeatedLoads(n, j)[k]
  {
    hide Seated, Size, Seat;
    forall k: nat | k < n
      ensures Seat(n, j) < n && Seated(n, j, Seat(n, j)) <= Seated(n, j, k)
      ensures Seated(n, j + 1, k) == Seated(n, j, k) + (if k == Seat(n, j) then Size(n, j) else 0)
    {
      SeatIsLightest(n, j, k);
      SeatGrows(n, j, k);
    }
    SeatIsLightest(n, j, 0);
  }

  lemma StartsSeated(files: seq<string>, w: Weight, n: nat)
    requires n > 0
    ensures Loads(Greedy(files[..0], w, n), w) == SeatedLoads(n, 0)
  {
  }

  lemma InstanceIsLong(files: seq<string>, w: Weight, n: nat)
    requires IsInstance(files, w, n)
    ensures n > 0 && |files| == 2 * n + 1
  {
  }

  lemma InstanceSize(files: seq<string>, w: Weight, n: nat, j: nat)
    requires IsInstance(files, w, n) && j <= 2 * n
    ensures |files| == 2 * n + 1 && w(files[j]) == Size(n, j) as real
  {
    assert w(files[j]) == Size(n, j) as real;
  }

  lemma PlaceSeats(shards: seq<seq<string>>, f: string, w: Weight, n: nat, j: nat)
    requires j < 2 * n && |shards| == n && w(f) == Size(n, j) as real
    requires multiset(Loads(shards, w)) == multiset(SeatedLoads(n, j))
    ensures multiset(Loads(Place(shards, w, f), w)) == multiset(SeatedLoads(n, j + 1))
  {
    hide *;
    PlacedLoads(shards, f, w);
    SeatedStep(n, j);
    PlaceAlikeIn(Loads(shards, w), Loads(Place(shards, w, f), w), SeatedLoads(n, j), SeatedLoads(n, j + 1),
                 Seat(n, j), w(f));
  }

  lemma {:induction false} GreedySeats(files: seq<string>, w: Weight, n: nat, j: nat)
    requires n > 0 && |files| == 2 * n + 1 && IsInstance(files, w, n) && j <= 2 * n
    ensures multiset(Loads(Greedy(files[..j], w, n), w)) == multiset(SeatedLoads(n, j))
  {
    hide *;
    if j == 0 {
      StartsSeated(files, w, n);
    } else {
      var i := j - 1;
      GreedySeats(files, w, n, i);
      GreedyStep(files, i, w, n);
      InstanceSize(files, w, n, i);
      PlaceSeats(Greedy(files[..i], w, n), files[i], w, n, i);
    }
  }

  lemma HeaviestOf(loads: seq<real>, seats: seq<real>)
    requires multiset(loads) == multiset(seats) && seats != [] && loads != []
    requires forall k :: 0 <= k < |seats| ==> seats[k] <= seats[0]
    ensures Heaviest(loads) == seats[0]
  {
    hide Heaviest;
    assert seats[0] in multiset(loads) && Heaviest(loads) in multiset(seats);
    var a :| 0 <= a < |loads| && loads[a] == seats[0];
    var b :| 0 <= b < |seats| && seats[b] == Heaviest(loads);
  }

  lemma LastSeats(n: nat)
    requires n > 0
    ensures forall k :: 0 <= k < n ==> SeatedLoads(n, 2 * n)[k] == (3 * n - 1) as real
  {
    forall k: nat | k < n ensures Seated(n, 2 * n, k) == 3 * n - 1 {
      SeatsEndEqual(n, k);
    }
  }

  lemma PeakSeats(n: nat, x: real)
    requires n > 0 && x == Size(n, 2 * n) as real
    ensures var s := SeatedLoads(n, 2 * n);
            var next := s[0 := s[0] + x];
            && next[0] == (4 * n - 1) as real && (forall k :: 0 <= k < n ==> next[k] <= next[0])
            && (forall k :: 0 <= k < n ==> s[0] <= s[k])
  {
    hide SeatedLoads;
    LastSeats(n);
  }

  /** The last file lands on a full shard: 4n-1. */
  lemma GreedyPeak(files: seq<string>, w: Weight, n: nat)
    requires n > 0 && |files| == 2 * n + 1 && IsInstance(files, w, n)
    ensures Heaviest(Loads(Greedy(files, w, n), w)) == (4 * n - 1) as real
  {
    hide *;
    var j := 2 * n;
    var g, s, x := Greedy(files[..j], w, n), SeatedLoads(n, j), w(files[j]);
    GreedySeats(files, w, n, j);
    InstanceSize(files, w, n, j);
    PeakSeats(n, x);
    GreedyStep(files, j, w, n);
    assert files[..j + 1] == files;
    PlacedLoads(g, files[j], w);
    PlaceAlikeIn(Loads(g, w), Loads(Greedy(files, w, n), w), s, s[0 := s[0] + x], 0, x);
    HeaviestOf(Loads(Greedy(files, w, n), w), s[0 := s[0] + x]);
  }

  // ----- another assignment: the three of n together, the others paired from both ends

  function Pairs(s: seq<string>): (r: seq<seq<string>>)
    ensures |r| == |s| / 2
  {
    if |s| < 2 then [] else [[s[0], s[|s| - 1]]] + Pairs(s[1..|s| - 1])
  }

  lemma UnionStep(x: seq<string>, rest: seq<seq<string>>)
    ensures Union([x] + rest) == multiset(x) + Union(rest)
  {
    assert ([x] + rest)[1..] == rest;
  }

  lemma Ends(s: seq<string>)
    requires |s| >= 2
    ensures multiset([s[0], s[|s| - 1]]) + multiset(s[1..|s| - 1]) == multiset(s)
  {
    assert s == [s[0]] + s[1..|s| - 1] + [s[|s| - 1]];
  }

  lemma {:induction false} UnionOfPairs(s: seq<string>)
    requires |s| % 2 == 0
    ensures Union(Pairs(s)) == multiset(s)
  {
    hide Union;
    if |s| >= 2 {
      UnionOfPairs(s[1..|s| - 1]);
      Ends(s);
      UnionStep([s[0], s[|s| - 1]], Pairs(s[1..|s| - 1]));
    } else {
      UnionOfEmpty(Pairs(s));
      assert s == [];
    }
  }

  lemma LoadOfTwo(a: string, b: string, w: Weight)
    ensures Load([a, b], w) == w(a) + w(b)
  {
    LoadAppend([], a, w);
    LoadAppend([a], b, w);
    assert [] + [a] == [a] && [a] + [b] == [a, b];
  }

  lemma LoadOfThree(a: string, b: string, c: string, w: Weight)
    ensures Load([a, b, c], w) == w(a) + w(b) + w(c)
  {
    LoadOfTwo(a, b, w);
    LoadAppend([a, b], c, w);
    assert [a, b] + [c] == [a, b, c];
  }

  lemma {:induction false} LoadsOfPairs(s: seq<string>, w: Weight, t: real)
    requires |s| % 2 == 0 && forall i :: 0 <= i < |s| ==> w(s[i]) + w(s[|s| - 1 - i]) == t
    ensures forall k :: 0 <= k < |Pairs(s)| ==> Load(Pairs(s)[k], w) == t
  {
    if |s| >= 2 {
      var mid := s[1..|s| - 1];
      forall i | 0 <= i < |mid| ensures w(mid[i]) + w(mid[|mid| - 1 - i]) == t {
        assert mid[i] == s[i + 1] && mid[|mid| - 1 - i] == s[|s| - 1 - (i + 1)];
      }
      LoadsOfPairs(mid, w, t);
      assert w(s[0]) + w(s[|s| - 1 - 0]) == t;
      LoadOfTwo(s[0], s[|s| - 1], w);
    }
  }

  function Paired(files: seq<string>, n: nat): (r: seq<seq<string>>)
    requires n > 0 && |files| == 2 * n + 1
    ensures |r| == n
  {
    [[files[2 * n - 2], files[2 * n - 1], files[2 * n]]] + Pairs(files[..2 * n - 2])
  }

  lemma PairedAssigns(files: seq<string>, n: nat)
    requires n > 0 && |files| == 2 * n + 1
    ensures Assigns(Paired(files, n), files, n)
  {
    hide Union, Pairs;
    var m := 2 * n - 2;
    var last := [files[m], files[m + 1], files[m + 2]];
    UnionOfPairs(files[..m]);
    UnionStep(last, Pairs(files[..m]));
    assert files == files[..m] + last;
  }

  lemma PairedSizes(n: nat, i: nat)
    requires n > 0 && i < 2 * n - 2
    ensures Size(n, i) + Size(n, 2 * n - 3 - i) == 3 * n
  {
    HalvesOfOdd(n - 1, i);
  }

  lemma PairedLoads(files: seq<string>, w: Weight, n: nat)
    requires IsInstance(files, w, n)
    ensures forall k :: 0 <= k < n ==> Loads(Paired(files, n), w)[k] == (3 * n) as real
  {
    hide Size, Load;
    var s := files[..2 * n - 2];
    forall i: nat | i < |s| ensures w(s[i]) + w(s[|s| - 1 - i]) == (3 * n) as real {
      PairedSizes(n, i);
      assert s[i] == files[i] && s[|s| - 1 - i] == files[2 * n - 3 - i];
    }
    LoadsOfPairs(s, w, (3 * n) as real);
    LoadOfThree(files[2 * n - 2], files[2 * n - 1], files[2 * n], w);
    LastSizes(n);
  }

  lemma LastSizes(n: nat)
    requires n > 0
    ensures Size(n, 2 * n - 2) == Size(n, 2 * n - 1) == Size(n, 2 * n) == n
  {
  }

  lemma PairedPeak(files: seq<string>, w: Weight, n: nat)
    requires IsInstance(files, w, n)
    ensures Heaviest(Loads(Paired(files, n), w)) == (3 * n) as real
  {
    hide Loads, Paired;
    PairedLoads(files, w, n);
    HeaviestOf(Loads(Paired(files, n), w), Loads(Paired(files, n), w));
  }

  // ----- names and durations that make the instance

  function Name(j: nat): (s: string)
    ensures |s| == j
  {
    seq(j, _ => 'a')
  }

  lemma {:induction false} NamesAscend(i: nat, j: nat)
    requires i <= j
    ensures StringOrder.Le(Name(i), Name(j))
  {
    if i > 0 {
      NamesAscend(i - 1, j - 1);
      assert Name(i)[1..] == Name(i - 1) && Name(j)[1..] == Name(j - 1);
    }
  }

  function Names(n: nat): (r: seq<string>)
    ensures |r| == 2 * n + 1
  {
    seq(2 * n + 1, j requires 0 <= j => Name(j))
  }

  function Times(n: nat): Durations {
    map f | f in Names(n) :: Size(n, |f|) as real
  }

  lemma SizesDescend(n: nat, i: nat, j: nat)
    requires i <= j <= 2 * n && n > 0
    ensures Size(n, i) >= Size(n, j) >= n
  {
  }

  lemma TimeOf(n: nat, j: nat)
    requires j <= 2 * n
    ensures Name(j) in Times(n) && Times(n)[Name(j)] == Size(n, j) as real
  {
    assert Names(n)[j] == Name(j);
  }

  lemma TimesNonNegative(n: nat)
    requires n > 0
    ensures NonNegative(Times(n))
  {
    hide Size;
    var d := Times(n);
    forall f | f in d ensures d[f] >= 0.0 {
      var j :| 0 <= j < |Names(n)| && f == Names(n)[j];
      SizesDescend(n, j, 2 * n);
    }
  }

  lemma WeightOfTimed(files: seq<string>, d: Durations, f: string)
    requires f in d
    ensures WeightOf(files, d)(f) == d[f]
  {
  }

  lemma IsTimed(n: nat)
    requires n > 0
    ensures IsInstance(Names(n), WeightOf(Names(n), Times(n)), n)
  {
    hide WeightOf, Times, Size;
    var files, d := Names(n), Times(n);
    var w := WeightOf(files, d);
    forall j: nat | j <= 2 * n ensures w(files[j]) == Size(n, j) as real {
      TimeOf(n, j);
      WeightOfTimed(files, d, Name(j));
      assert files[j] == Name(j);
    }
  }

  lemma IsSorted(n: nat)
    requires n > 0
    ensures SortedBy(Names(n), LongestFirst(WeightOf(Names(n), Times(n))))
  {
    hide WeightOf, Size, StringOrder.Le;
    var w := WeightOf(Names(n), Times(n));
    IsTimed(n);
    forall i, j | 0 <= i < j < |Names(n)| ensures LongestFirst(w)(Names(n)[i], Names(n)[j]) {
      SizesDescend(n, i, j);
      NamesAscend(i, j);
    }
  }

  lemma PlanOfSorted(n: nat, files: seq<string>, d: Durations)
    requires n > 0 && SortedBy(files, LongestFirst(WeightOf(files, d)))
    ensures Planned(n, files, d).Some? && |Planned(n, files, d).value| == n
    ensures Makespan(Planned(n, files, d).value, files, d) ==
            Heaviest(Loads(Greedy(files, WeightOf(files, d), n), WeightOf(files, d)))
  {
    SortOfSorted(files, LongestFirst(WeightOf(files, d)));
    PermutedLoads(Greedy(files, WeightOf(files, d), n), WeightOf(files, d));
  }

  lemma RatioOf(n: nat)
    requires n > 0
    ensures (4 * n - 1) as real == (4.0 / 3.0 - 1.0 / (3.0 * (n as real))) * ((3 * n) as real)
  {
    var x := n as real;
    assert (1.0 / (3.0 * x)) * (3.0 * x) == 1.0;
    assert (3 * n) as real == 3.0 * x;
  }

  /** For every number of shards some files are planned at exactly 4/3 - 1/(3n) times what another assignment needs. */
  lemma PlanReachesRatio(n: nat) returns (files: seq<string>, d: Durations, other: seq<seq<string>>)
    requires n > 0
    ensures NonNegative(d) && Assigns(other, files, n)
    ensures Planned(n, files, d).Some? && |Planned(n, files, d).value| == n
    ensures Makespan(other, files, d) == (3 * n) as real
    ensures Makespan(Planned(n, files, d).value, files, d)
         == (4.0 / 3.0 - 1.0 / (3.0 * (n as real))) * Makespan(other, files, d)
  {
    hide *;
    files, d := Names(n), Times(n);
    other := Paired(files, n);
    var w := WeightOf(files, d);
    TimesNonNegative(n);
    IsTimed(n);
    InstanceIsLong(files, w, n);
    IsSorted(n);
    PlanOfSorted(n, files, d);
    GreedyPeak(files, w, n);
    PairedAssigns(files, n);
    PairedPeak(files, w, n);
    MakespanIs(other, files, d);
    RatioOf(n);
  }

  lemma MakespanIs(shards: seq<seq<string>>, files: seq<string>, d: Durations)
    requires shards != []
    ensures Makespan(shards, files, d) == Heaviest(Loads(shards, WeightOf(files, d)))
  {
  }
}
