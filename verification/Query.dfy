/** The console query language, console-tui/src/query.rs, on text that is already case-folded. */
module Query {
  import opened Wrappers
  import opened Seqs
  import Texts

  type Text = seq<char>

  // ----- the specification: the naive recursive matcher of the source's own tests

  predicate Matches(v: Text, p: Text)
    decreases |v| + |p|
  {
    if p == [] then v == []
    else if p[0] == '*' then Matches(v, p[1..]) || (v != [] && Matches(v[1..], p))
    else v != [] && (p[0] == '?' || p[0] == v[0]) && Matches(v[1..], p[1..])
  }

  // ----- the machine: one backtrack point

  /** `star` is the index of the last `*` taken, `mark` how far it has swallowed. */
  datatype State = State(vi: nat, pi: nat, star: Option<nat>, mark: nat)

  datatype Order = EqualityFirst | StarFirst

  /** Which of the two consuming branches a position takes: the source tests equality first. */
  predicate Consumes(order: Order, v: Text, p: Text, s: State)
    requires s.vi < |v|
  {
    && s.pi < |p|
    && (p[s.pi] == '?' || p[s.pi] == v[s.vi])
    && (order.StarFirst? ==> p[s.pi] != '*')
  }

  ghost predicate InRange(v: Text, p: Text, s: State) {
    && s.mark <= s.vi <= |v|
    && s.pi <= |p|
    && (s.star.Some? ==> s.star.value < s.pi && p[s.star.value] == '*')
  }

  /** None: the mismatch is final. */
  function Step(order: Order, v: Text, p: Text, s: State): (r: Option<State>)
    requires InRange(v, p, s) && s.vi < |v|
    ensures r.Some? ==> InRange(v, p, r.value) && Clock(p, r.value) > Clock(p, s)
  {
    if Consumes(order, v, p, s) then Some(s.(vi := s.vi + 1, pi := s.pi + 1))
    else if s.pi < |p| && p[s.pi] == '*' then Some(State(s.vi, s.pi + 1, Some(s.pi), s.vi))
    else if s.star.Some? then
      ClockOfRetry(p, s);
      Some(State(s.mark + 1, s.star.value + 1, s.star, s.mark + 1))
    else None
  }

  /** Every step advances this clock: a new mark outweighs any move within the pattern. */
  function Clock(p: Text, s: State): nat {
    s.mark * (|p| + 1) + s.pi
  }

  lemma ClockOfRetry(p: Text, s: State)
    requires s.pi <= |p|
    ensures (s.mark + 1) * (|p| + 1) > Clock(p, s)
  {
  }

  lemma ClockIsBounded(v: Text, p: Text, s: State)
    requires InRange(v, p, s)
    ensures Clock(p, s) < (|v| + 1) * (|p| + 1)
  {
    hide *;
    ClockIs(v, p, s);
    MulMonotone(s.mark, |v|, |p| + 1);
    Successor(|v|, |p| + 1);
  }

  lemma ClockIs(v: Text, p: Text, s: State)
    requires InRange(v, p, s)
    ensures Clock(p, s) == s.mark * (|p| + 1) + s.pi && s.mark <= |v| && s.pi <= |p|
  {
  }

  lemma MulMonotone(a: nat, b: nat, c: nat)
    requires a <= b
    ensures a * c <= b * c
  {
    hide *;
  }

  lemma Successor(a: nat, c: nat)
    ensures (a + 1) * c == a * c + c
  {
    hide *;
  }

  predicate AllStars(p: Text) {
    p == [] || (p[0] == '*' && AllStars(p[1..]))
  }

  function Run(order: Order, v: Text, p: Text, s: State): bool
    requires InRange(v, p, s)
    decreases (|v| + 1) * (|p| + 1) - Clock(p, s)
  {
    if s.vi == |v| then AllStars(p[s.pi..])
    else
      match Step(order, v, p, s)
      case None => false
      case Some(t) =>
        ClockIsBounded(v, p, t);
        Run(order, v, p, t)
  }

  const START := State(0, 0, None, 0)

  /** What `glob_matches` answers. */
  function Glob(v: Text, p: Text): bool {
    Run(EqualityFirst, v, p, START)
  }

  /** The same machine with its star branch tested before the equality. */
  function GlobStarFirst(v: Text, p: Text): bool {
    Run(StarFirst, v, p, START)
  }

  // ----- the code

  /** `steps` counts the iterations of both loops. */
  method GlobMatches(v: Text, p: Text) returns (r: bool, ghost steps: nat)
    ensures r == Glob(v, p)
    ensures r ==> Matches(v, p)
    ensures '*' !in v ==> r == Matches(v, p)
    ensures steps < (|v| + 1) * (|p| + 1)
  {
    GlobIsSound(v, p);
    if '*' !in v {
      GlobIsExact(v, p);
    }
    steps := 0;
    var vi: nat, pi: nat := 0, 0;
    var star: Option<nat> := None;
    var mark: nat := 0;
    while vi < |v|
      invariant InRange(v, p, State(vi, pi, star, mark))
      invariant Glob(v, p) == Run(EqualityFirst, v, p, State(vi, pi, star, mark))
      invariant steps <= Clock(p, State(vi, pi, star, mark))
      decreases (|v| + 1) * (|p| + 1) - Clock(p, State(vi, pi, star, mark))
    {
      ghost var next := Step(EqualityFirst, v, p, State(vi, pi, star, mark));
      if pi < |p| && (p[pi] == '?' || p[pi] == v[vi]) {
        vi := vi + 1;
        pi := pi + 1;
      } else if pi < |p| && p[pi] == '*' {
        star := Some(pi);
        pi := pi + 1;
        mark := vi;
      } else if star.Some? {
        pi := star.value + 1;
        mark := mark + 1;
        vi := mark;
      } else {
        ClockIsBounded(v, p, State(vi, pi, star, mark));
        return false, steps;
      }
      assert next == Some(State(vi, pi, star, mark));
      ClockIsBounded(v, p, State(vi, pi, star, mark));
      steps := steps + 1;
    }
    ghost var from := pi;
    while pi < |p| && p[pi] == '*'
      invariant from <= pi <= |p|
      invariant AllStars(p[from..]) == AllStars(p[pi..])
      invariant steps <= Clock(p, State(vi, pi, star, mark))
      invariant InRange(v, p, State(vi, pi, star, mark))
    {
      assert p[pi..][1..] == p[pi + 1..];
      pi := pi + 1;
      steps := steps + 1;
    }
    assert pi < |p| ==> p[pi..][0] != '*';
    ClockIsBounded(v, p, State(vi, pi, star, mark));
    r := pi == |p|;
  }

  // ----- the specification at positions of one value and one pattern

  predicate MatchesAt(v: Text, i: nat, p: Text, j: nat)
    requires i <= |v| && j <= |p|
    decreases |v| - i + |p| - j
  {
    if j == |p| then i == |v|
    else if p[j] == '*' then MatchesAt(v, i, p, j + 1) || (i < |v| && MatchesAt(v, i + 1, p, j))
    else i < |v| && (p[j] == '?' || p[j] == v[i]) && MatchesAt(v, i + 1, p, j + 1)
  }

  lemma {:induction false} MatchesAtSlices(v: Text, i: nat, p: Text, j: nat)
    requires i <= |v| && j <= |p|
    ensures MatchesAt(v, i, p, j) == Matches(v[i..], p[j..])
    decreases |v| - i + |p| - j
  {
    if j < |p| {
      assert p[j..][0] == p[j] && p[j..][1..] == p[j + 1..];
      if i < |v| {
        assert v[i..][0] == v[i] && v[i..][1..] == v[i + 1..];
        MatchesAtSlices(v, i + 1, p, j);
        MatchesAtSlices(v, i + 1, p, j + 1);
      }
      MatchesAtSlices(v, i, p, j + 1);
    }
  }

  lemma MatchesWhole(v: Text, p: Text)
    ensures MatchesAt(v, 0, p, 0) == Matches(v, p)
  {
    MatchesAtSlices(v, 0, p, 0);
    assert v[0..] == v && p[0..] == p;
  }

  lemma {:induction false} MatchesAllStars(v: Text, p: Text, j: nat)
    requires j <= |p|
    ensures MatchesAt(v, |v|, p, j) == AllStars(p[j..])
    decreases |p| - j
  {
    if j < |p| {
      assert p[j..][0] == p[j] && p[j..][1..] == p[j + 1..];
      MatchesAllStars(v, p, j + 1);
    }
  }

  /** A star swallows any stretch. */
  lemma {:induction false} StarSwallows(v: Text, i: nat, k: nat, p: Text, j: nat)
    requires i <= k <= |v| && j < |p| && p[j] == '*' && MatchesAt(v, k, p, j)
    ensures MatchesAt(v, i, p, j)
    decreases k - i
  {
    if i < k {
      StarSwallows(v, i + 1, k, p, j);
    }
  }

  /** Matching a star-free stretch of the pattern consumes as many characters. */
  lemma {:induction false} StretchConsumes(v: Text, i: nat, p: Text, j: nat, n: nat)
    requires i <= |v| && j + n <= |p| && MatchesAt(v, i, p, j) && forall x :: j <= x < j + n ==> p[x] != '*'
    ensures i + n <= |v| && MatchesAt(v, i + n, p, j + n)
    decreases n
  {
    if n > 0 {
      StretchConsumes(v, i + 1, p, j + 1, n - 1);
    }
  }

  /** Where the pattern after a matching star starts to match. */
  lemma {:induction false} StarPlacement(v: Text, i: nat, p: Text, j: nat) returns (k: nat)
    requires i <= |v| && j < |p| && p[j] == '*' && MatchesAt(v, i, p, j)
    ensures i <= k <= |v| && MatchesAt(v, k, p, j + 1)
    decreases |v| - i
  {
    k := i;
    if !MatchesAt(v, i, p, j + 1) {
      k := StarPlacement(v, i + 1, p, j);
    }
  }

  // ----- completeness of the one backtrack point

  /** What the machine may still find by going back to its star. */
  ghost predicate Retry(v: Text, p: Text, s: State)
    requires InRange(v, p, s)
  {
    s.star.Some? && s.mark < |v| && MatchesAt(v, s.mark + 1, p, s.star.value)
  }

  ghost predicate Pending(v: Text, p: Text, s: State)
    requires InRange(v, p, s)
  {
    MatchesAt(v, s.vi, p, s.pi) || Retry(v, p, s)
  }

  /** The pattern after the star, up to pi, was matched literally from the mark on. */
  ghost predicate Aligned(v: Text, p: Text, s: State)
    requires InRange(v, p, s)
  {
    s.star.Some? ==>
      && s.vi - s.mark == s.pi - (s.star.value + 1)
      && forall j :: s.star.value < j < s.pi ==> p[j] != '*'
  }

  /** A retry re-matches the same stretch further right, so it reaches pi past vi. */
  lemma RetryReaches(v: Text, p: Text, s: State) returns (k: nat)
    requires InRange(v, p, s) && Aligned(v, p, s) && Retry(v, p, s)
    ensures s.vi < k <= |v| && MatchesAt(v, k, p, s.pi)
  {
    var from := StarPlacement(v, s.mark + 1, p, s.star.value);
    StretchConsumes(v, from, p, s.star.value + 1, s.vi - s.mark);
    k := from + (s.vi - s.mark);
  }

  /** Leftmost placement: once a later star is reached, going back to the earlier one finds nothing new. */
  lemma LeftmostIsEnough(v: Text, p: Text, s: State)
    requires InRange(v, p, s) && Aligned(v, p, s) && s.pi < |p| && p[s.pi] == '*'
    ensures Retry(v, p, s) ==> MatchesAt(v, s.vi, p, s.pi)
  {
    if Retry(v, p, s) {
      var k := RetryReaches(v, p, s);
      StarSwallows(v, s.vi, k, p, s.pi);
    }
  }

  /** At the end of the value every retry is too short. */
  lemma NoRetryAtEnd(v: Text, p: Text, s: State)
    requires InRange(v, p, s) && Aligned(v, p, s) && s.vi == |v|
    ensures !Retry(v, p, s)
  {
    if Retry(v, p, s) {
      var k := RetryReaches(v, p, s);
    }
  }

  /** One step keeps the search space, unless it takes a `*` of the value literally. */
  lemma StepKeepsPending(order: Order, v: Text, p: Text, s: State)
    requires InRange(v, p, s) && s.vi < |v| && Aligned(v, p, s)
    requires order.StarFirst? || v[s.vi] != '*'
    ensures match Step(order, v, p, s)
            case None => !Pending(v, p, s)
            case Some(t) => Aligned(v, p, t) && Pending(v, p, t) == Pending(v, p, s)
  {
    if s.pi < |p| && p[s.pi] == '*' {
      LeftmostIsEnough(v, p, s);
    }
  }

  lemma {:induction false} RunIsExact(order: Order, v: Text, p: Text, s: State)
    requires InRange(v, p, s) && Aligned(v, p, s)
    requires order.StarFirst? || '*' !in v
    ensures Run(order, v, p, s) == Pending(v, p, s)
    decreases (|v| + 1) * (|p| + 1) - Clock(p, s)
  {
    if s.vi == |v| {
      MatchesAllStars(v, p, s.pi);
      NoRetryAtEnd(v, p, s);
    } else {
      StepKeepsPending(order, v, p, s);
      var next := Step(order, v, p, s);
      if next.Some? {
        ClockIsBounded(v, p, next.value);
        RunIsExact(order, v, p, next.value);
      }
    }
  }

  /** The code equals the recursive matcher on every value without `*`. */
  lemma GlobIsExact(v: Text, p: Text)
    requires '*' !in v
    ensures Glob(v, p) == Matches(v, p)
  {
    RunIsExact(EqualityFirst, v, p, START);
    MatchesWhole(v, p);
  }

  /** With the star branch first, the machine equals the recursive matcher on every value. */
  lemma GlobStarFirstIsExact(v: Text, p: Text)
    ensures GlobStarFirst(v, p) == Matches(v, p)
  {
    RunIsExact(StarFirst, v, p, START);
    MatchesWhole(v, p);
  }

  // ----- values that hold a `*`: still sound, no longer complete

  /** Whatever the machine still accepts from here is a match of the whole value. */
  ghost predicate Sound(v: Text, p: Text, s: State)
    requires InRange(v, p, s)
  {
    && (MatchesAt(v, s.vi, p, s.pi) ==> Matches(v, p))
    && (s.star.Some? && MatchesAt(v, s.mark, p, s.star.value) ==> Matches(v, p))
  }

  lemma StepKeepsSound(v: Text, p: Text, s: State)
    requires InRange(v, p, s) && s.vi < |v| && Sound(v, p, s)
    ensures var t := Step(EqualityFirst, v, p, s); t.Some? ==> Sound(v, p, t.value)
  {
    if s.star.Some? {
      assert MatchesAt(v, s.mark + 1, p, s.star.value) ==> MatchesAt(v, s.mark, p, s.star.value);
    }
    if s.pi < |p| && p[s.pi] == '*' {
      assert MatchesAt(v, s.vi + 1, p, s.pi + 1) ==> MatchesAt(v, s.vi + 1, p, s.pi);
    }
  }

  lemma {:induction false} RunIsSound(v: Text, p: Text, s: State)
    requires InRange(v, p, s) && Sound(v, p, s)
    ensures Run(EqualityFirst, v, p, s) ==> Matches(v, p)
    decreases (|v| + 1) * (|p| + 1) - Clock(p, s)
  {
    if s.vi == |v| {
      MatchesAllStars(v, p, s.pi);
    } else {
      StepKeepsSound(v, p, s);
      var next := Step(EqualityFirst, v, p, s);
      if next.Some? {
        ClockIsBounded(v, p, next.value);
        RunIsSound(v, p, next.value);
      }
    }
  }

  /** The code never accepts what the recursive matcher rejects, whatever the value holds. */
  lemma GlobIsSound(v: Text, p: Text)
    ensures Glob(v, p) ==> Matches(v, p)
  {
    MatchesWhole(v, p);
    RunIsSound(v, p, START);
  }

  function Questions(n: nat): (q: Text)
    ensures |q| == n && forall i :: 0 <= i < n ==> q[i] == '?'
  {
    seq(n, _ => '?')
  }

  lemma {:induction false} QuestionsMatch(v: Text)
    ensures Matches(v, Questions(|v|))
  {
    if v != [] {
      QuestionsMatch(v[1..]);
      assert Questions(|v|)[1..] == Questions(|v| - 1);
    }
  }

  lemma {:induction false} PrefixMatches(u: Text, v: Text, p: Text)
    requires '*' !in u && Matches(v, p)
    ensures Matches(u + v, u + p)
  {
    if u == [] {
      assert u + v == v && u + p == p;
    } else {
      PrefixMatches(u[1..], v, p);
      assert (u + v)[1..] == u[1..] + v && (u + p)[1..] == u[1..] + p;
    }
  }

  /** The pattern a value defeats: its text up to and with the first `*`, then one `?` too many for the rest. */
  function Defeats(v: Text, i: nat): Text
    requires i < |v|
  {
    v[..i] + ['*'] + Questions(|v| - i)
  }

  /** Past a literal `*` no backtrack point exists, so the machine consumes in step until the value ends. */
  lemma {:induction false} RunInStep(v: Text, i: nat, s: State)
    requires i < |v| && v[i] == '*' && '*' !in v[..i]
    requires s == State(s.vi, s.vi, None, 0) && s.vi <= |v|
    ensures InRange(v, Defeats(v, i), s) && !Run(EqualityFirst, v, Defeats(v, i), s)
    decreases |v| - s.vi
  {
    var p := Defeats(v, i);
    if s.vi == |v| {
      assert p[s.pi..][0] == '?';
    } else {
      assert s.vi < i ==> p[s.vi] == v[s.vi];
      RunInStep(v, i, State(s.vi + 1, s.vi + 1, None, 0));
    }
  }

  lemma DefeatsMatches(v: Text, i: nat)
    requires i < |v| && '*' !in v[..i]
    ensures Matches(v, Defeats(v, i))
  {
    var rest := v[i..];
    var p := ['*'] + Questions(|rest|);
    QuestionsMatch(rest);
    assert p[1..] == Questions(|rest|);
    PrefixMatches(v[..i], rest, p);
    assert v[..i] + rest == v && v[..i] + p == Defeats(v, i);
  }

  lemma {:induction false} FirstStar(v: Text) returns (i: nat)
    requires '*' in v
    ensures i < |v| && v[i] == '*' && '*' !in v[..i]
  {
    if v[0] == '*' {
      i := 0;
    } else {
      var j := FirstStar(v[1..]);
      i := j + 1;
      assert v[..i] == [v[0]] + v[1..][..j];
    }
  }

  /** A value is matched as specified by EVERY pattern exactly when it holds no `*`. */
  lemma ExactlyStarFreeValues(v: Text)
    ensures (forall p :: Glob(v, p) == Matches(v, p)) <==> '*' !in v
  {
    if '*' in v {
      var i := FirstStar(v);
      RunInStep(v, i, START);
      DefeatsMatches(v, i);
      assert Glob(v, Defeats(v, i)) != Matches(v, Defeats(v, i));
    } else {
      forall p ensures Glob(v, p) == Matches(v, p) { GlobIsExact(v, p); }
    }
  }

  lemma StarMatchesSuffix(v: Text, k: nat, p: Text)
    requires k <= |v| && p != [] && p[0] == '*' && Matches(v[k..], p)
    ensures Matches(v, p)
  {
    MatchesAtSlices(v, k, p, 0);
    assert p[0..] == p;
    StarSwallows(v, 0, k, p, 0);
    MatchesWhole(v, p);
  }

  lemma StarMatchesTail(v: Text, k: nat, p: Text)
    requires k <= |v| && p != [] && p[0] == '*' && Matches(v[k..], p[1..])
    ensures Matches(v, p)
  {
    assert Matches(v[k..], p);
    StarMatchesSuffix(v, k, p);
  }

  // ----- patterns: the same agreement from the other side

  /** Without a `*` in the pattern the order of the two tests does not matter. */
  lemma {:induction false} OrderIsIdle(v: Text, p: Text, s: State)
    requires InRange(v, p, s) && '*' !in p
    ensures Run(EqualityFirst, v, p, s) == Run(StarFirst, v, p, s)
    decreases (|v| + 1) * (|p| + 1) - Clock(p, s)
  {
    if s.vi < |v| {
      var next := Step(EqualityFirst, v, p, s);
      if next.Some? {
        ClockIsBounded(v, p, next.value);
        OrderIsIdle(v, p, next.value);
      }
    }
  }

  /** The code equals the recursive matcher whenever the value or the pattern holds no `*`. */
  lemma GlobIsExactWithoutStars(v: Text, p: Text)
    requires '*' !in v || '*' !in p
    ensures Glob(v, p) == Matches(v, p)
  {
    if '*' !in v {
      GlobIsExact(v, p);
    } else {
      OrderIsIdle(v, p, START);
      GlobStarFirstIsExact(v, p);
    }
  }

  /** The value that defeats a pattern: the pattern itself, with one character more after its last `*`. */
  function DefeatedBy(p: Text, i: nat): Text
    requires i < |p|
  {
    p[..i + 1] + ['x'] + p[i + 1..]
  }

  lemma {:induction false} PatternMatchesItself(p: Text)
    ensures Matches(p, p)
  {
    if p != [] {
      PatternMatchesItself(p[1..]);
      if p[0] == '*' {
        assert Matches(p[1..], p);
      }
    }
  }

  lemma {:induction false} DefeatedByMatches(p: Text, i: nat)
    requires i < |p| && p[i] == '*'
    ensures Matches(DefeatedBy(p, i), p)
  {
    var v := DefeatedBy(p, i);
    if i == 0 {
      PatternMatchesItself(p[1..]);
      assert v[2..] == p[1..];
      StarMatchesTail(v, 2, p);
    } else {
      DefeatedByMatches(p[1..], i - 1);
      assert v[0] == p[0] && v[1..] == DefeatedBy(p[1..], i - 1);
      if p[0] == '*' {
        assert v[1..][0..] == v[1..];
        StarMatchesTail(v, 1, p);
      }
    }
  }

  /** The machine walks in step through a value that spells the pattern's stars, and the value is one longer. */
  lemma {:induction false} RunOvershoots(p: Text, i: nat, s: State)
    requires i < |p| && p[i] == '*' && '*' !in p[i + 1..]
    requires s == State(s.vi, s.vi, None, 0) && s.vi <= |p|
    ensures InRange(DefeatedBy(p, i), p, s) && !Run(EqualityFirst, DefeatedBy(p, i), p, s)
    decreases |p| - s.vi
  {
    var v := DefeatedBy(p, i);
    if s.vi < |p| {
      if s.vi <= i {
        assert v[s.vi] == p[s.vi];
      } else {
        assert p[s.vi] == p[i + 1..][s.vi - i - 1] && p[s.vi] != '*';
      }
      RunOvershoots(p, i, State(s.vi + 1, s.vi + 1, None, 0));
    }
  }

  lemma {:induction false} LastStar(p: Text) returns (i: nat)
    requires '*' in p
    ensures i < |p| && p[i] == '*' && '*' !in p[i + 1..]
  {
    if '*' in p[1..] {
      var j := LastStar(p[1..]);
      i := j + 1;
      assert p[i + 1..] == p[1..][j + 1..];
    } else {
      i := 0;
    }
  }

  /** A pattern is matched as specified on EVERY value exactly when it holds no `*`. */
  lemma ExactlyStarFreePatterns(p: Text)
    ensures (forall v :: Glob(v, p) == Matches(v, p)) <==> '*' !in p
  {
    if '*' in p {
      var i := LastStar(p);
      RunOvershoots(p, i, START);
      DefeatedByMatches(p, i);
      assert Glob(DefeatedBy(p, i), p) != Matches(DefeatedBy(p, i), p);
    } else {
      forall v ensures Glob(v, p) == Matches(v, p) { GlobIsExactWithoutStars(v, p); }
    }
  }

  // ----- the query language

  predicate IsSlash(c: char) {
    c == '/' || c == '\\'
  }

  /** The text after the last slash: `rsplit(['/', '\\']).next()`. */
  function Basename(value: Text): (base: Text)
    ensures |base| <= |value| && base == value[|value| - |base|..]
    ensures forall c :: c in base ==> !IsSlash(c)
    ensures |base| < |value| ==> IsSlash(value[|value| - |base| - 1])
  {
    if value == [] || IsSlash(value[|value| - 1]) then []
    else Basename(value[..|value| - 1]) + [value[|value| - 1]]
  }

  datatype Needle = Needle(text: Text, glob: bool)

  function NewNeedle(query: Text): Needle {
    var text := Texts.Trim(query);
    Needle(text, '*' in text || '?' in text)
  }

  function NeedleMatches(n: Needle, value: Text): bool {
    if n.text == [] then true
    else if value == [] then false
    else if !n.glob then Find(value, n.text).Some?
    else if Glob(value, n.text) then true
    else
      var base := Basename(value);
      base != value && Glob(base, n.text)
  }

  // ----- laws of the language

  /** A stretch without wildcards is matched by itself and nothing else. */
  lemma {:induction false} LiteralMatches(v: Text, q: Text, p: Text)
    requires '*' !in q && '?' !in q
    ensures Matches(v, q + p) <==> q <= v && Matches(v[|q|..], p)
  {
    if q == [] {
      assert q + p == p && v[0..] == v;
    } else {
      assert (q + p)[1..] == q[1..] + p;
      if v != [] {
        LiteralMatches(v[1..], q[1..], p);
        if |q| <= |v| {
          assert v[1..][|q| - 1..] == v[|q|..];
        }
        if q[0] == v[0] {
          assert q <= v <==> q[1..] <= v[1..] by {
            assert q == [q[0]] + q[1..] && v == [v[0]] + v[1..];
          }
        }
      }
    }
  }

  lemma AnythingMatchesStar(v: Text)
    ensures Matches(v, ['*'])
  {
    assert v[|v|..] == [] && ['*'][1..] == [];
    StarMatchesTail(v, |v|, ['*']);
  }

  /** A wildcard-free query is found as a substring exactly when the matcher accepts it between two stars. */
  lemma SubstringIsStarred(v: Text, q: Text)
    requires '*' !in q && '?' !in q
    ensures Contains(v, q) <==> Matches(v, ['*'] + q + ['*'])
  {
    var p := ['*'] + q + ['*'];
    assert p[1..] == q + ['*'];
    if Matches(v, p) {
      MatchesWhole(v, p);
      var k := StarPlacement(v, 0, p, 0);
      MatchesAtSlices(v, k, p, 1);
      LiteralMatches(v[k..], q, ['*']);
      assert v[k..][..|q|] == v[k..k + |q|];
      assert At(v, q, k);
    }
    if Contains(v, q) {
      var i :| 0 <= i <= |v| && At(v, q, i);
      assert v[i..][..|q|] == q;
      AnythingMatchesStar(v[i..][|q|..]);
      LiteralMatches(v[i..], q, ['*']);
      StarMatchesTail(v, i, p);
    }
  }

  /** Inserting a `*` anywhere never loses a match. */
  lemma {:induction false} InsertedStarKeepsMatches(v: Text, p: Text, i: nat)
    requires i <= |p| && Matches(v, p)
    ensures Matches(v, p[..i] + ['*'] + p[i..])
    decreases |v| + |p|
  {
    var q := p[..i] + ['*'] + p[i..];
    if i == 0 {
      assert q[1..] == p;
    } else {
      assert q[1..] == p[1..][..i - 1] + ['*'] + p[1..][i - 1..];
      if p[0] == '*' {
        if Matches(v, p[1..]) {
          InsertedStarKeepsMatches(v, p[1..], i - 1);
        } else {
          InsertedStarKeepsMatches(v[1..], p, i);
        }
      } else {
        InsertedStarKeepsMatches(v[1..], p[1..], i - 1);
      }
    }
  }

  lemma BasenameIsStarFree(value: Text)
    requires '*' !in value
    ensures '*' !in Basename(value)
  {
    hide Basename;
    var base := Basename(value);
    forall k | 0 <= k < |base| ensures base[k] != '*' {
      assert base[k] == value[|value| - |base| + k];
    }
  }

  /** What a typed query finds, for every value without `*`. */
  lemma NeedleMeaning(query: Text, value: Text)
    requires '*' !in value
    ensures var q := Texts.Trim(query);
            NeedleMatches(NewNeedle(query), value) <==>
            || q == []
            || (value != [] && if '*' in q || '?' in q then Matches(value, q) || Matches(Basename(value), q)
                               else Matches(value, ['*'] + q + ['*']))
  {
    var q := Texts.Trim(query);
    BasenameIsStarFree(value);
    GlobIsExact(value, q);
    GlobIsExact(Basename(value), q);
    if !('*' in q || '?' in q) {
      FindDecidesContains(value, q);
      SubstringIsStarred(value, q);
    }
  }

  lemma {:induction false} BasenameAfterSlash(a: Text, b: Text)
    requires a != [] && IsSlash(a[|a| - 1]) && forall c :: c in b ==> !IsSlash(c)
    ensures Basename(a + b) == b
  {
    if b == [] {
      assert a + b == a;
    } else {
      var n := |b| - 1;
      BasenameAfterSlash(a, b[..n]);
      assert (a + b)[..|a + b| - 1] == a + b[..n] && b[n] in b;
    }
  }

  /** A wildcard query is matched against the value and against what follows its last slash, forward or backward. */
  lemma RetryReadsBasename(query: Text, a: Text, c: char, b: Text)
    requires c == '/' || c == '\\'
    requires '/' !in b && '\\' !in b && '*' !in a && '*' !in b
    ensures var q := Texts.Trim(query);
            '*' in q || '?' in q ==>
              (NeedleMatches(NewNeedle(query), a + [c] + b) <==> Matches(a + [c] + b, q) || Matches(b, q))
  {
    hide Basename, Glob, Matches;
    var value := a + [c] + b;
    BasenameAfterSlash(a + [c], b);
    NeedleMeaning(query, value);
  }

  /** A value without slashes gets no second chance. */
  lemma NoSlashNoRetry(query: Text, value: Text)
    requires '/' !in value && '\\' !in value && '*' !in value && value != []
    ensures var q := Texts.Trim(query);
            '*' in q || '?' in q ==> (NeedleMatches(NewNeedle(query), value) <==> Matches(value, q))
  {
    hide Glob, Matches;
    NeedleMeaning(query, value);
    BasenameOfPlain(value);
  }

  lemma {:induction false} BasenameOfPlain(value: Text)
    requires '/' !in value && '\\' !in value
    ensures Basename(value) == value
  {
    if value != [] {
      var n := |value| - 1;
      assert value[n] in value && value == value[..n] + [value[n]];
      BasenameOfPlain(value[..n]);
    }
  }

  /** The basename retry adds nothing to a pattern that starts with `*`. */
  lemma RetryIsIdleAfterStar(n: Needle, value: Text)
    requires n.glob && n.text != [] && n.text[0] == '*' && '*' !in value && value != []
    ensures NeedleMatches(n, value) == Glob(value, n.text)
  {
    var base := Basename(value);
    BasenameIsStarFree(value);
    GlobIsExact(value, n.text);
    GlobIsExact(base, n.text);
    if Matches(base, n.text) {
      StarMatchesSuffix(value, |value| - |base|, n.text);
    }
  }

  lemma StarUsedUp()
    ensures !Glob("*/a", "*a")
  {
    assert Run(EqualityFirst, "*/a", "*a", State(1, 1, None, 0)) == false;
  }

  /** With a `*` in the value the retry can matter: the pattern's star is spent on it. */
  lemma RetryMattersAfterStar()
    ensures !Glob("*/a", "*a") && NeedleMatches(Needle("*a", true), "*/a")
  {
    hide Basename, Glob, Matches;
    var p := "*a";
    StarUsedUp();
    BasenameAfterSlash("*/", "a");
    assert "*/" + "a" == "*/a";
    GlobIsExact("a", p);
    PatternMatchesItself("a");
    assert "a"[0..] == "a" && p[1..] == "a";
    StarMatchesTail("a", 0, p);
  }

  /** So a `*` typed anywhere into a glob never loses a row of star-free text. */
  lemma InsertedStarKeepsRows(v: Text, p: Text, i: nat)
    requires '*' !in v && i <= |p| && Glob(v, p)
    ensures Glob(v, p[..i] + ['*'] + p[i..])
  {
    GlobIsExact(v, p);
    InsertedStarKeepsMatches(v, p, i);
    GlobIsExact(v, p[..i] + ['*'] + p[i..]);
  }
}
