/** Why the boundary loop of console-tui/src/api_sandbox_docs.rs ends, on every payload a Rust slice can hold. */
module BoundarySearch {
  import opened Wrappers
  import opened Seqs
  import opened Bytes
  import opened Boundary

  // ----- a payload position holds few candidates, and most candidates are long

  lemma LowDigit(a: nat)
    ensures a % WRAP % 16 == a % 16
  {
    var c := 0x1000_0000_0000_0000 * (a / WRAP);
    assert a == a % WRAP + 16 * c;
  }

  lemma NextResidue(n: nat, r: nat)
    requires r == Next(n)
    ensures n % 16 == 14 ==> r % 16 == 9
    ensures n % 16 == 9 ==> r % 16 == 14
  {
    var y := (31 * n) % WRAP;
    LowDigit(31 * n);
    LowDigit(y + 7);
    LowDigits(n, y);
  }

  lemma LowDigits(n: nat, y: nat)
    requires y % 16 == (31 * n) % 16
    ensures n % 16 == 14 ==> (y + 7) % 16 == 9
    ensures n % 16 == 9 ==> (y + 7) % 16 == 14
  {
  }

  lemma Alternates(k: nat, n: nat, r: nat)
    requires k > 0 && (n % 16 == if (k - 1) % 2 == 0 then 14 else 9)
    requires (n % 16 == 14 ==> r % 16 == 9) && (n % 16 == 9 ==> r % 16 == 14)
    ensures r % 16 == if k % 2 == 0 then 14 else 9
  {
  }

  /** Every number of the orbit is 14 or 9 modulo 16, by turns. */
  lemma {:induction false} OrbitResidue(k: nat)
    ensures Orbit(k) % 16 == if k % 2 == 0 then 14 else 9
  {
    if k > 0 {
      OrbitResidue(k - 1);
      NextResidue(Orbit(k - 1), Orbit(k));
      Alternates(k, Orbit(k - 1), Orbit(k));
    }
  }

  /** Shifted by less than 27, the stem differs from itself somewhere. */
  lemma StemDiffers(d: nat) returns (t: nat)
    requires 1 <= d < 27
    ensures d + t < 28 && |STEM| == 28 && STEM[d + t] != STEM[t]
  {
    t := if d <= 3 then 4 - d else if d == 19 then 1 else 0;
    assert STEM[0] == STEM[1] == STEM[2] == STEM[3] == 45 && STEM[4] == 97 && STEM[20] == 99;
    assert 5 <= d <= 18 ==> STEM[d] != 45;
    assert 20 <= d <= 26 ==> STEM[d] != 45;
  }

  /** Two occurrences of the stem are at least 27 bytes apart. */
  lemma StemsApart(s: seq<byte>, p: nat, q: nat)
    requires p < q && At(s, STEM, p) && At(s, STEM, q)
    ensures q >= p + 27
  {
    var d: nat := q - p;
    if d < 27 {
      var t := StemDiffers(d);
      StemsAgree(s, p, d, t);
    }
  }

  lemma StemsAgree(s: seq<byte>, p: nat, d: nat, t: nat)
    requires At(s, STEM, p) && At(s, STEM, p + d) && d + t < |STEM|
    ensures STEM[d + t] == STEM[t]
  {
    assert s[p..p + |STEM|][d + t] == s[p + (d + t)];
    assert s[p + d..p + d + |STEM|][t] == s[(p + d) + t];
  }

  const SMALL: nat := 0x200_0000_0000_0000

  ghost predicate Occurs(s: seq<byte>, k: nat) {
    Contains(s, Candidate(Orbit(k)))
  }

  /** A pigeonhole for an occurring candidate: its number when short, else the stretch of 27 bytes it starts in. */
  function Hole(s: seq<byte>, k: nat): (h: nat) {
    var n := Orbit(k);
    if n < PERIOD then 2 * (n / 16) + k % 2
    else
      var at := Find(s, Candidate(n));
      SMALL + (if at.Some? then at.value / 27 else 0)
  }

  /** Number of pigeonholes. */
  function Holes(length: nat): nat {
    SMALL + length / 27 + 1
  }

  lemma HoleInRange(s: seq<byte>, k: nat)
    ensures Hole(s, k) < Holes(|s|)
  {
  }

  lemma LongCandidate(n: nat)
    requires PERIOD <= n < WRAP
    ensures |Candidate(n)| == |STEM| + 16
  {
    BigPowers();
    HexLength(n, 15);
  }

  lemma StemAt(s: seq<byte>, n: nat, p: nat)
    requires At(s, Candidate(n), p)
    ensures At(s, STEM, p)
  {
    assert s[p..p + |STEM|] == s[p..p + |Candidate(n)|][..|STEM|];
  }

  lemma ShortHoles(m: nat, n: nat, i: nat, j: nat)
    requires m < PERIOD && m != n
    requires m % 16 == if i % 2 == 0 then 14 else 9
    requires n % 16 == if j % 2 == 0 then 14 else 9
    ensures 2 * (m / 16) + i % 2 < SMALL && 2 * (m / 16) + i % 2 != 2 * (n / 16) + j % 2
  {
  }

  lemma ApartIsAnotherStretch(p: nat, q: nat)
    requires q >= p + 27
    ensures p / 27 != q / 27
  {
  }

  lemma OccursAt(s: seq<byte>, k: nat) returns (p: nat)
    requires Occurs(s, k)
    ensures Find(s, Candidate(Orbit(k))) == Some(p) && At(s, Candidate(Orbit(k)), p) && At(s, STEM, p)
  {
    hide Candidate, Find, Contains, At, Orbit;
    var b := Candidate(Orbit(k));
    FindDecidesContains(s, b);
    FindSpec(s, b);
    p := Find(s, b).value;
    StemAt(s, Orbit(k), p);
  }

  /** Two candidates cannot occur at one position when both are long. */
  lemma OnePosition(s: seq<byte>, m: nat, n: nat, p: nat)
    requires At(s, Candidate(m), p) && At(s, Candidate(n), p) && PERIOD <= m < WRAP && PERIOD <= n < WRAP
    ensures m == n
  {
    LongCandidate(m);
    LongCandidate(n);
    if m != n {
      CandidateIsInjective(m, n);
    }
  }

  lemma LongHolesDiffer(s: seq<byte>, i: nat, j: nat)
    requires Occurs(s, i) && Occurs(s, j) && Orbit(i) != Orbit(j)
    requires PERIOD <= Orbit(i) < WRAP && PERIOD <= Orbit(j) < WRAP
    ensures Hole(s, i) != Hole(s, j)
  {
    hide Candidate, Find, Contains, At, Orbit, Occurs;
    var p := OccursAt(s, i);
    var q := OccursAt(s, j);
    if p < q {
      StemsApart(s, p, q);
      ApartIsAnotherStretch(p, q);
    } else if q < p {
      StemsApart(s, q, p);
      ApartIsAnotherStretch(q, p);
    } else {
      OnePosition(s, Orbit(i), Orbit(j), p);
    }
  }

  /** Different candidates that occur sit in different holes. */
  lemma HolesDiffer(s: seq<byte>, i: nat, j: nat)
    requires i < j < PERIOD && Occurs(s, i) && Occurs(s, j)
    ensures Hole(s, i) != Hole(s, j)
  {
    hide Candidate, Find, Contains, At, Orbit, Occurs;
    var m, n := Orbit(i), Orbit(j);
    OrbitIsInjective(i, j);
    OrbitResidue(i);
    OrbitResidue(j);
    if m >= PERIOD && n >= PERIOD {
      LongHolesDiffer(s, i, j);
    } else if m < PERIOD {
      ShortHoles(m, n, i, j);
    } else {
      ShortHoles(n, m, j, i);
    }
  }

  ghost predicate AllOccur(s: seq<byte>, k: nat) {
    forall i :: 0 <= i < k ==> Occurs(s, i)
  }

  /** Fewer candidates can occur than the payload has holes. */
  lemma FewOccur(s: seq<byte>, k: nat)
    requires k <= PERIOD && AllOccur(s, k)
    ensures k <= Holes(|s|)
  {
    var holes := seq(k, i requires 0 <= i < k => Hole(s, i));
    forall i, j | 0 <= i < j < k ensures holes[i] != holes[j] {
      HolesDiffer(s, i, j);
    }
    forall i | 0 <= i < k ensures holes[i] < Holes(|s|) {
      HoleInRange(s, i);
    }
    DistinctAreFew(holes, Holes(|s|));
  }

  /** The first k candidates occur in the payload, so the search is not over its bound. */
  lemma SearchGoesOn(s: seq<byte>, k: nat)
    requires |s| < SLICE_LIMIT && k <= Holes(|s|) && AllOccur(s, k) && Occurs(s, k)
    ensures k + 1 <= Holes(|s|)
  {
    assert Holes(|s|) < PERIOD;
    FewOccur(s, k + 1);
  }

  /** The first index of the sequence whose candidate does not occur in the payload. */
  function FirstFree(s: seq<byte>, k: nat): (r: nat)
    requires |s| < SLICE_LIMIT && k <= Holes(|s|) && AllOccur(s, k)
    ensures r <= Holes(|s|) && AllOccur(s, r) && !Occurs(s, r)
    decreases Holes(|s|) - k
  {
    FindDecidesContains(s, Candidate(Orbit(k)));
    if Find(s, Candidate(Orbit(k))).None? then k
    else
      SearchGoesOn(s, k);
      FirstFree(s, k + 1)
  }

  /** The boundary of a payload: the first candidate that does not occur in it. */
  function BoundaryOf(s: seq<byte>): (b: seq<byte>)
    requires |s| < SLICE_LIMIT
    ensures !Contains(s, b)
    ensures exists k: nat :: b == Candidate(Orbit(k)) && AllOccur(s, k) && k <= Holes(|s|)
  {
    Candidate(Orbit(FirstFree(s, 0)))
  }

  /** The loop of `multipart_body`; it ends within one iteration for every hole of the payload. */
  method FindBoundary(s: seq<byte>) returns (b: seq<byte>)
    requires |s| < SLICE_LIMIT
    ensures b == BoundaryOf(s)
    ensures !Contains(s, b)
  {
    var n := SEED;
    ghost var k: nat := 0;
    while true
      invariant n == Orbit(k) && k <= Holes(|s|) && AllOccur(s, k)
      invariant FirstFree(s, 0) == FirstFree(s, k)
      decreases Holes(|s|) - k
    {
      b := Candidate(n);
      FindDecidesContains(s, b);
      if Find(s, b).None? {
        return;
      }
      SearchGoesOn(s, k);
      n := Next(n);
      k := k + 1;
    }
  }
}
