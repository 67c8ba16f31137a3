/** The connection health authority: console-tui/src/health.rs over the signals of console-tui/src/store.rs. */
module Health {
  import opened Seqs

  // ----- the store, as far as the authority reads or writes it

  datatype Identity = Identity(userId: string, tenantId: string, admin: bool)

  datatype ApiErrorKind = NotConnected | Unreachable | Unauthorized | Forbidden | Http(code: nat) | Protocol

  datatype ApiError = ApiError(kind: ApiErrorKind, message: string)

  datatype ConnPhase =
    | Disconnected
    | Probing
    | Connected(id: Identity)
    | Verifying(id: Identity)
    | WrongToken(detail: string)
    | NoAccess(detail: string)
    | NotGateway(status: nat, detail: string)
    | NotReached(detail: string)

  /** What a probe error says about the connection. */
  function PhaseFromProbeError(e: ApiError): ConnPhase {
    match e.kind
    case Unauthorized => WrongToken(e.message)
    case Forbidden => NoAccess(e.message)
    case Http(code) => NotGateway(code, e.message)
    case Protocol => NotGateway(0, e.message)
    case NotConnected => NotReached("not connected: " + e.message)
    case Unreachable => NotReached("network failure: " + e.message)
  }

  datatype Loadable = NotAsked | Loading | Ready | Failed(error: ApiError)

  predicate FailedUnreachable(l: Loadable) {
    l.Failed? && l.error.kind.Unreachable?
  }

  /** A watched domain; `retry` when its load is a pure read that may be sent again. */
  datatype Slot = Slot(name: string, retry: bool)

  const SLOTS: seq<Slot> := [
    Slot("providers", true), Slot("profiles", true), Slot("routes", true), Slot("users", true),
    Slot("accounts", true), Slot("entities", true), Slot("runtimes", true), Slot("runtime_config", true),
    Slot("runs", false), Slot("data_homes", true), Slot("artifacts", false), Slot("logs", false),
    Slot("reservations", true), Slot("discover", false), Slot("sandbox", false), Slot("voices", false),
    Slot("route_test", false), Slot("entity_detail", false), Slot("entity_policy", false),
    Slot("entity_prompt", false), Slot("entity_candidates", false)]

  const N: nat := 21

  /** Whether the load of the slot at this position may be sent again. */
  predicate Retry(i: nat) {
    i < |SLOTS| && SLOTS[i].retry
  }

  /** A slot is named by its position in the table.
      `probes` and `sent` record what went out: the generation of each probe, the slot of each retry read. */
  datatype Store = Store(
    conn: ConnPhase,
    probeGen: nat,
    netFailSeq: nat,
    lastSeq: nat,
    spent: seq<nat>,
    slots: seq<Loadable>,
    probes: seq<nat>,
    sent: seq<nat>)

  function Untouched(): (r: seq<Loadable>)
    ensures |r| == N && forall i :: 0 <= i < |r| ==> r[i] == NotAsked
  {
    seq(N, _ => NotAsked)
  }

  const INITIAL := Store(Disconnected, 0, 0, 0, [], Untouched(), [], [])

  predicate FailedUnspent(s: Store, i: nat)
    requires |s.slots| == N
  {
    i < N && FailedUnreachable(s.slots[i]) && i !in s.spent
  }

  predicate AnyFailedUnspent(s: Store)
    requires |s.slots| == N
  {
    exists i :: 0 <= i < N && FailedUnspent(s, i)
  }

  // ----- what the trigger effect and a settle do to the store

  function Trigger(s: Store): Store
    requires |s.slots| == N
  {
    if s.lastSeq == s.netFailSeq && !AnyFailedUnspent(s) then s
    else if !s.conn.Connected? then s.(lastSeq := s.netFailSeq)
    else s.(lastSeq := s.netFailSeq, probeGen := s.probeGen + 1, conn := Verifying(s.conn.id),
            probes := s.probes + [s.probeGen + 1])
  }

  /** The failed, unspent slots before position n, in table order. */
  function FailuresIn(slots: seq<Loadable>, spent: seq<nat>, n: nat): (r: seq<nat>)
    requires n <= |slots|
    ensures forall i: nat :: i in r <==> i < n && FailedUnreachable(slots[i]) && i !in spent
    ensures forall x, y :: 0 <= x < y < |r| ==> r[x] < r[y]
  {
    if n == 0 then []
    else
      var before := FailuresIn(slots, spent, n - 1);
      if FailedUnreachable(slots[n - 1]) && n - 1 !in spent then
        assert forall x :: 0 <= x < |before| ==> before[x] in before;
        before + [n - 1]
      else before
  }

  function Failures(s: Store): seq<nat>
    requires |s.slots| == N
  {
    FailuresIn(s.slots, s.spent, N)
  }

  function Retries(failures: seq<nat>): (r: seq<nat>)
    ensures forall i: nat :: i in r <==> i in failures && Retry(i)
  {
    if failures == [] then []
    else
      var last := failures[|failures| - 1];
      assert failures == failures[..|failures| - 1] + [last];
      Retries(failures[..|failures| - 1]) + (if Retry(last) then [last] else [])
  }

  lemma NothingRetried(slots: seq<Loadable>, sent: seq<nat>)
    ensures Retries([]) == [] && Reloading(slots, []) == slots && sent + [] == sent
  {
  }

  lemma RetriesStep(slots: seq<Loadable>, sent: seq<nat>, before: seq<nat>, i: nat)
    requires i < |slots|
    ensures Retries(before + [i]) == Retries(before) + (if Retry(i) then [i] else [])
    ensures Reloading(slots, Retries(before + [i]))
         == if Retry(i) then Reloading(slots, Retries(before))[i := Loading] else Reloading(slots, Retries(before))
    ensures sent + (Retries(before) + [i]) == sent + Retries(before) + [i]
  {
    assert (before + [i])[..|before|] == before;
  }

  function Reloading(slots: seq<Loadable>, retries: seq<nat>): (r: seq<Loadable>)
    ensures |r| == |slots|
    ensures forall i :: 0 <= i < |slots| ==> r[i] == if i in retries then Loading else slots[i]
  {
    seq(|slots|, i requires 0 <= i < |slots| => if i in retries then Loading else slots[i])
  }

  datatype Outcome = Pong | Lost(error: ApiError)

  function Settled(s: Store, gen: nat, outcome: Outcome): Store
    requires |s.slots| == N
  {
    if s.probeGen != gen || !s.conn.Verifying? then s
    else
      match outcome
      case Pong =>
        var retries := Retries(Failures(s));
        s.(conn := Connected(s.conn.id), spent := s.spent + Failures(s),
           slots := Reloading(s.slots, retries), sent := s.sent + retries)
      case Lost(e) => s.(conn := PhaseFromProbeError(e))
  }

  lemma SettledIs(s: Store, t: Store)
    requires |s.slots| == N && s.conn.Verifying?
    requires t == s.(conn := Connected(s.conn.id), spent := s.spent + Failures(s),
            slots := Reloading(s.slots, Retries(Failures(s))), sent := s.sent + Retries(Failures(s)))
    ensures t == Settled(s, s.probeGen, Pong)
  {
  }

  // ----- the code

  class Authority {
    var conn: ConnPhase
    var probeGen: nat
    var netFailSeq: nat
    var lastSeq: nat
    var spent: seq<nat>
    var slots: seq<Loadable>
    var probes: seq<nat>
    var sent: seq<nat>

    ghost function Abs(): Store
      reads this
    {
      Store(conn, probeGen, netFailSeq, lastSeq, spent, slots, probes, sent)
    }

    constructor ()
      ensures Abs() == INITIAL
    {
      conn, probeGen, netFailSeq, lastSeq := Disconnected, 0, 0, 0;
      spent, slots, probes, sent := [], Untouched(), [], [];
    }

    /** The effect `install` registers. */
    method Effect()
      requires |slots| == N
      modifies this
      ensures Abs() == Trigger(old(Abs()))
    {
      var seqIsNew := lastSeq != netFailSeq;
      var unspentFailure := exists i :: 0 <= i < N && FailedUnreachable(slots[i]) && i !in spent;
      assert unspentFailure == AnyFailedUnspent(Abs()) by {
        if unspentFailure {
          var i :| 0 <= i < N && FailedUnreachable(slots[i]) && i !in spent;
          assert FailedUnspent(Abs(), i);
        }
      }
      if !(seqIsNew || unspentFailure) {
        return;
      }
      if !conn.Connected? {
        if seqIsNew {
          lastSeq := netFailSeq;
        }
        return;
      }
      if seqIsNew {
        lastSeq := netFailSeq;
      }
      var gen := probeGen + 1;
      probeGen := gen;
      conn := Verifying(conn.id);
      probes := probes + [gen];
    }

    /** The loop of `settle` over the slot table. */
    method RetryFailures() returns (newlySpent: seq<nat>)
      requires |slots| == N
      modifies this`slots, this`sent
      ensures newlySpent == FailuresIn(old(slots), spent, N)
      ensures slots == Reloading(old(slots), Retries(newlySpent))
      ensures sent == old(sent) + Retries(newlySpent)
    {
      hide Retries, Reloading, Retry, FailedUnreachable;
      newlySpent := [];
      NothingRetried(slots, sent);
      for i := 0 to N
        invariant newlySpent == FailuresIn(old(slots), spent, i)
        invariant slots == Reloading(old(slots), Retries(newlySpent))
        invariant sent == old(sent) + Retries(newlySpent)
      {
        if FailedUnreachable(slots[i]) && i !in spent {
          RetriesStep(old(slots), old(sent), newlySpent, i);
          newlySpent := newlySpent + [i];
          if Retry(i) {
            slots := slots[i := Loading];
            sent := sent + [i];
          }
        }
      }
    }

    /** `settle`: the spent list is extended after the loop over the slots. */
    method Settle(gen: nat, outcome: Outcome)
      requires |slots| == N
      modifies this
      ensures Abs() == Settled(old(Abs()), gen, outcome)
    {
      hide FailuresIn, Retries, Reloading, PhaseFromProbeError;
      if probeGen != gen || !conn.Verifying? {
        return;
      }
      match outcome
      case Pong =>
        conn := Connected(conn.id);
        var newlySpent := RetryFailures();
        if newlySpent != [] {
          spent := spent + newlySpent;
        }
        assert spent == old(spent) + newlySpent;
        SettledIs(old(Abs()), Abs());
      case Lost(e) =>
        conn := PhaseFromProbeError(e);
    }
  }

  // ----- every interleaving

  /** What can happen: a load or a failed write is reported, a settle arrives early or late, a screen is refreshed (its
      loads start), a reset, and the Connect command: it begins with a reset, and joins or is refused. */
  datatype Event =
    | SlotChanges(slot: nat, to: Loadable)
    | WriteFails
    | Settles(gen: nat, outcome: Outcome)
    | Refreshed(loads: map<nat, Loadable>)
    | DomainsReset
    | Connects
    | Joins(id: Identity)
    | Refused(phase: ConnPhase)

  predicate IsFailure(c: ConnPhase) {
    c.WrongToken? || c.NoAccess? || c.NotGateway? || c.NotReached?
  }

  predicate Possible(e: Event) {
    && (e.SlotChanges? ==> e.slot < N)
    && (e.Refreshed? ==> forall i :: i in e.loads ==> i < N && !e.loads[i].Failed?)
    && (e.Refused? ==> IsFailure(e.phase))
  }

  function Overlaid(slots: seq<Loadable>, loads: map<nat, Loadable>): (r: seq<Loadable>)
    ensures |r| == |slots|
    ensures forall i :: 0 <= i < |slots| ==> r[i] == if i in loads then loads[i] else slots[i]
  {
    seq(|slots|, i requires 0 <= i < |slots| => if i in loads then loads[i] else slots[i])
  }

  function Apply(s: Store, e: Event): (r: Store)
    requires |s.slots| == N && Possible(e)
    ensures |r.slots| == N
  {
    match e
    case SlotChanges(i, l) => s.(slots := s.slots[i := l])
    case WriteFails => s.(netFailSeq := s.netFailSeq + 1)
    case Settles(gen, outcome) => Settled(s, gen, outcome)
    case Refreshed(loads) => s.(spent := [], slots := Overlaid(s.slots, loads))
    case DomainsReset => s.(spent := [], slots := Untouched())
    case Connects => s.(conn := Probing, spent := [], slots := Untouched())
    case Joins(id) => s.(conn := Connected(id))
    case Refused(p) => s.(conn := p)
  }

  /** The effect subscribes to the slots and the failed-write count, and to nothing else. */
  predicate Notifies(s: Store, e: Event)
    requires |s.slots| == N && Possible(e)
  {
    || e.SlotChanges? || e.WriteFails? || e.DomainsReset? || e.Connects?
    || (e.Refreshed? && e.loads != map[])
    || Apply(s, e).slots != s.slots
  }

  /** One turn: the handler runs to its end, then the effect if it was notified. */
  function Turn(s: Store, e: Event): (r: Store)
    requires |s.slots| == N && Possible(e)
    ensures |r.slots| == N
  {
    if Notifies(s, e) then Trigger(Apply(s, e)) else Apply(s, e)
  }

  ghost predicate AllPossible(es: seq<Event>) {
    forall i :: 0 <= i < |es| ==> Possible(es[i])
  }

  function After(es: seq<Event>): (r: Store)
    requires AllPossible(es)
    ensures |r.slots| == N
  {
    if es == [] then INITIAL else Turn(After(es[..|es| - 1]), es[|es| - 1])
  }

  // ----- what every turn keeps

  /** Spent slots are distinct table positions, generations count up, and no failed write is left unseen. */
  ghost predicate Consistent(s: Store) {
    && |s.slots| == N
    && (forall x, y :: 0 <= x < y < |s.spent| ==> s.spent[x] != s.spent[y])
    && (forall i :: i in s.spent ==> i < N)
    && |s.probes| == s.probeGen
    && (forall x :: 0 <= x < |s.probes| ==> s.probes[x] == x + 1)
    && s.lastSeq == s.netFailSeq
    && (s.conn.Verifying? ==> s.probeGen > 0)
    && (forall i :: i in s.sent ==> Retry(i))
  }

  lemma SettledIsConsistent(s: Store, gen: nat, outcome: Outcome)
    requires Consistent(s)
    ensures Consistent(Settled(s, gen, outcome))
  {
    var f := Failures(s);
    var t := Settled(s, gen, outcome);
    forall x, y | 0 <= x < y < |t.spent| ensures t.spent[x] != t.spent[y] {
      if x < |s.spent| <= y {
        assert t.spent[y] == f[y - |s.spent|] && f[y - |s.spent|] in f;
        assert t.spent[x] == s.spent[x] && s.spent[x] in s.spent;
      }
    }
  }

  lemma TurnIsConsistent(s: Store, e: Event)
    requires Consistent(s) && Possible(e)
    ensures Consistent(Turn(s, e))
  {
    hide Settled, Overlaid, Retry;
    if e.Settles? {
      SettledIsConsistent(s, e.gen, e.outcome);
    }
  }

  lemma {:induction false} EveryStateIsConsistent(es: seq<Event>)
    requires AllPossible(es)
    ensures Consistent(After(es))
  {
    if es != [] {
      EveryStateIsConsistent(es[..|es| - 1]);
      TurnIsConsistent(After(es[..|es| - 1]), es[|es| - 1]);
    }
  }

  function StateAt(es: seq<Event>, k: nat): (r: Store)
    requires AllPossible(es) && k <= |es|
    ensures |r.slots| == N
  {
    After(es[..k])
  }

  lemma StateStep(es: seq<Event>, k: nat)
    requires AllPossible(es) && k < |es|
    ensures StateAt(es, k + 1) == Turn(StateAt(es, k), es[k])
    ensures Consistent(StateAt(es, k))
  {
    assert es[..k + 1][..k] == es[..k];
    EveryStateIsConsistent(es[..k]);
  }

  // ----- runs of the console

  /** The Connect command holds the one worker lane: only it joins or refuses, and no load fails before it does. */
  predicate Allowed(s: Store, e: Event) {
    && (e.Joins? || e.Refused? ==> s.conn.Probing?)
    && (e.SlotChanges? && s.conn.Probing? ==> !FailedUnreachable(e.to))
  }

  /** A run of the console. */
  ghost predicate IsRun(es: seq<Event>) {
    AllPossible(es) && forall k: nat :: k < |es| ==> Allowed(StateAt(es, k), es[k])
  }

  // ----- phases: who begins a Verifying phase, and who ends it

  /** In one turn a Verifying phase begins only at the trigger, from Connected, with a new generation. */
  lemma VerifyingBegins(s: Store, e: Event)
    requires Consistent(s) && Possible(e) && Turn(s, e).conn.Verifying?
    ensures if s.conn.Verifying?
            then Turn(s, e).conn == s.conn && Turn(s, e).probeGen == s.probeGen
            else && s.conn.Connected? && Turn(s, e).conn == Verifying(s.conn.id)
                 && Turn(s, e).probeGen == s.probeGen + 1 && Turn(s, e).probes == s.probes + [s.probeGen + 1]
  {
    if e.Settles? && Settled(s, e.gen, e.outcome) != s {
      NoTriggerAfterSettle(s, e.gen, e.outcome);
    }
  }

  /** A settle leaves the effect nothing to trigger on. */
  lemma NoTriggerAfterSettle(s: Store, gen: nat, outcome: Outcome)
    requires Consistent(s) && s.probeGen == gen && s.conn.Verifying?
    ensures Turn(s, Settles(gen, outcome)) == Settled(s, gen, outcome)
    ensures outcome.Pong? ==> !AnyFailedUnspent(Settled(s, gen, outcome))
  {
    var t := Settled(s, gen, outcome);
    if outcome.Pong? {
      forall i: nat | i < N ensures !FailedUnspent(t, i) {
        if FailedUnspent(s, i) {
          assert i in Failures(s);
        }
      }
    }
  }

  /** The phase at k began at turn j: a trigger from Connected spawned generation gen, and nothing ended it since. */
  ghost predicate SpawnedAt(es: seq<Event>, j: nat, k: nat, id: Identity, gen: nat)
    requires AllPossible(es) && j < k <= |es|
  {
    && StateAt(es, j).conn == Connected(id)
    && StateAt(es, j + 1).probes == StateAt(es, j).probes + [gen]
    && gen !in StateAt(es, j).probes
    && forall i :: j < i <= k ==> StateAt(es, i).conn == Verifying(id) && StateAt(es, i).probeGen == gen
  }

  lemma StartsDisconnected(es: seq<Event>)
    requires AllPossible(es)
    ensures StateAt(es, 0).conn == Disconnected
  {
  }

  lemma {:induction false} VerifyingWasSpawned(es: seq<Event>, k: nat) returns (j: nat)
    requires AllPossible(es) && k <= |es| && StateAt(es, k).conn.Verifying?
    ensures j < k && SpawnedAt(es, j, k, StateAt(es, k).conn.id, StateAt(es, k).probeGen)
  {
    hide After, Turn, Consistent;
    StartsDisconnected(es);
    StateStep(es, k - 1);
    VerifyingBegins(StateAt(es, k - 1), es[k - 1]);
    if StateAt(es, k - 1).conn.Verifying? {
      j := VerifyingWasSpawned(es, k - 1);
    } else {
      j := k - 1;
    }
  }

  /** A settle that changes the phase ends exactly the Verifying phase whose trigger spawned it: Pong restores that
      phase's identity, and a loss names a settled failure. */
  lemma SettleEndsItsOwnPhase(es: seq<Event>, k: nat) returns (j: nat)
    requires AllPossible(es) && k < |es| && es[k].Settles?
    requires StateAt(es, k + 1).conn != StateAt(es, k).conn
    ensures StateAt(es, k).conn.Verifying?
    ensures j < k && SpawnedAt(es, j, k, StateAt(es, k).conn.id, es[k].gen)
    ensures match es[k].outcome
            case Pong => StateAt(es, k + 1).conn == StateAt(es, j).conn
            case Lost(e) =>
              var c := StateAt(es, k + 1).conn;
              && (c.WrongToken? || c.NoAccess? || c.NotGateway? || c.NotReached?)
              && (c.WrongToken? <==> e.kind.Unauthorized?) && (c.WrongToken? ==> c.detail == e.message)
              && (c.NoAccess? <==> e.kind.Forbidden?) && (c.NoAccess? ==> c.detail == e.message)
              && (c.NotGateway? <==> e.kind.Http? || e.kind.Protocol?)
              && (c.NotGateway? ==> c.detail == e.message && c.status == if e.kind.Http? then e.kind.code else 0)
              && (c.NotReached? <==> e.kind.NotConnected? || e.kind.Unreachable?)
              && (c.NotReached? ==>
                    c.detail == (if e.kind.Unreachable? then "network failure: " else "not connected: ") + e.message)
  {
    StateStep(es, k);
    var s := StateAt(es, k);
    assert Settled(s, es[k].gen, es[k].outcome) != s;
    NoTriggerAfterSettle(s, es[k].gen, es[k].outcome);
    j := VerifyingWasSpawned(es, k);
  }

  /** A settle of any other generation, or outside a Verifying phase, changes nothing at all. */
  lemma StaleSettleIsIdle(s: Store, gen: nat, outcome: Outcome)
    requires Consistent(s)
    ensures Turn(s, Settles(gen, outcome)) != s ==> s.conn.Verifying? && gen == s.probeGen && gen in s.probes
  {
    if s.conn.Verifying? && gen == s.probeGen {
      assert s.probes[gen - 1] == gen;
    }
  }

  // ----- the retry budget

  predicate Clears(e: Event) {
    e.Refreshed? || e.DomainsReset? || e.Connects?
  }

  /** Between two clears the spent list only grows, and the retries sent since are newly spent, each once. */
  ghost predicate Budgeted(s: Store, t: Store) {
    && s.spent <= t.spent && s.sent <= t.sent
    && (forall x :: |s.sent| <= x < |t.sent| ==> t.sent[x] in t.spent && t.sent[x] !in s.spent && Retry(t.sent[x]))
    && (forall x, y :: |s.sent| <= x < y < |t.sent| ==> t.sent[x] != t.sent[y])
  }

  ghost predicate Ascending(r: seq<nat>) {
    forall x, y :: 0 <= x < y < |r| ==> r[x] < r[y]
  }

  lemma {:induction false} RetriesAscend(failures: seq<nat>)
    requires Ascending(failures)
    ensures Ascending(Retries(failures))
  {
    if failures != [] {
      var before, last := failures[..|failures| - 1], failures[|failures| - 1];
      RetriesAscend(before);
      var r := Retries(before);
      forall x | 0 <= x < |r| ensures r[x] < last {
        assert r[x] in r && r[x] in before;
        var k :| 0 <= k < |before| && before[k] == r[x];
        assert failures[k] < failures[|failures| - 1];
      }
    }
  }

  lemma SettleIsBudgeted(s: Store, gen: nat, outcome: Outcome)
    requires Consistent(s)
    ensures Budgeted(s, Settled(s, gen, outcome))
  {
    if s.probeGen == gen && s.conn.Verifying? && outcome.Pong? {
      var f := Failures(s);
      RetriesAscend(f);
      ExtendedIsBudgeted(s, Settled(s, gen, outcome), f, Retries(f));
    }
  }

  lemma ExtendedIsBudgeted(s: Store, t: Store, f: seq<nat>, r: seq<nat>)
    requires t.spent == s.spent + f && t.sent == s.sent + r
    requires forall i: nat :: i in r ==> i in f && Retry(i) && i !in s.spent
    requires Ascending(r)
    ensures Budgeted(s, t)
  {
    var n := |s.sent|;
    forall x | n <= x < |t.sent| ensures t.sent[x] in t.spent && t.sent[x] !in s.spent && Retry(t.sent[x]) {
      assert t.sent[x] == r[x - n] && r[x - n] in r;
    }
    forall x, y | n <= x < y < |t.sent| ensures t.sent[x] != t.sent[y] {
      assert t.sent[x] == r[x - n] && t.sent[y] == r[y - n] && r[x - n] < r[y - n];
    }
  }

  lemma NothingSpent(s: Store)
    ensures Budgeted(s, s)
  {
  }

  lemma BudgetChains(s: Store, t: Store, u: Store)
    requires Budgeted(s, t) && Budgeted(t, u)
    ensures Budgeted(s, u)
  {
    forall x | |s.sent| <= x < |u.sent| ensures u.sent[x] in u.spent && u.sent[x] !in s.spent && Retry(u.sent[x]) {
      if x < |t.sent| {
        assert u.sent[x] == t.sent[x] && t.sent[x] in t.spent;
      }
    }
    forall x, y | |s.sent| <= x < y < |u.sent| ensures u.sent[x] != u.sent[y] {
      if x < |t.sent| <= y {
        assert u.sent[x] == t.sent[x] && t.sent[x] in t.spent;
      } else if y < |t.sent| {
        assert u.sent[x] == t.sent[x] && u.sent[y] == t.sent[y];
      }
    }
  }

  lemma TurnIsBudgeted(s: Store, e: Event)
    requires Consistent(s) && Possible(e) && !Clears(e)
    ensures Budgeted(s, Turn(s, e))
  {
    if e.Settles? {
      SettleIsBudgeted(s, e.gen, e.outcome);
    }
  }

  /** Between two clears of the spent list each reload-safe slot is retried at most once, and no other slot ever. */
  lemma {:induction false} RetriedAtMostOnce(es: seq<Event>, a: nat, b: nat)
    requires AllPossible(es) && a <= b <= |es| && forall i :: a <= i < b ==> !Clears(es[i])
    ensures Budgeted(StateAt(es, a), StateAt(es, b))
    decreases b
  {
    hide After, Turn, Consistent, Budgeted;
    if a == b {
      NothingSpent(StateAt(es, a));
    } else {
      RetriedAtMostOnce(es, a, b - 1);
      StateStep(es, b - 1);
      TurnIsBudgeted(StateAt(es, b - 1), es[b - 1]);
      BudgetChains(StateAt(es, a), StateAt(es, b - 1), StateAt(es, b));
    }
  }

  /** The slots whose budget is left. */
  function Unspent(s: Store): set<nat> {
    set i: nat | i < N && i !in s.spent
  }

  /** A Pong that finds an unspent failure spends it: the unspent slots become strictly fewer. */
  lemma PongShrinksUnspent(s: Store)
    requires Consistent(s) && s.conn.Verifying? && AnyFailedUnspent(s)
    ensures Unspent(Turn(s, Settles(s.probeGen, Pong))) < Unspent(s)
  {
    NoTriggerAfterSettle(s, s.probeGen, Pong);
    var t := Settled(s, s.probeGen, Pong);
    var i :| 0 <= i < N && FailedUnspent(s, i);
    assert i in Failures(s);
    assert i in t.spent;
    assert i in Unspent(s) && i !in Unspent(t);
  }

  /** A failure whose budget is spent starts no probe. */
  lemma SpentFailureIsQuiet(s: Store, i: nat, e: ApiError)
    requires Consistent(s) && i < N && i in s.spent && !AnyFailedUnspent(s)
    ensures var t := Turn(s, SlotChanges(i, Failed(e)));
            t.conn == s.conn && t.probes == s.probes && t.sent == s.sent
  {
    var t := Apply(s, SlotChanges(i, Failed(e)));
    forall k: nat | k < N ensures !FailedUnspent(t, k) {
      assert !FailedUnspent(s, k);
    }
  }

  // ----- how many probes a run can send

  /** A Pong that ends a phase and finds no failure left to charge. */
  predicate EndsEmpty(s: Store, e: Event)
    requires |s.slots| == N
  {
    e.Settles? && e.outcome.Pong? && s.conn.Verifying? && e.gen == s.probeGen && !AnyFailedUnspent(s)
  }

  function EmptyPongs(es: seq<Event>, a: nat, b: nat): nat
    requires AllPossible(es) && a <= b <= |es|
    decreases b - a
  {
    if a == b then 0
    else EmptyPongs(es, a, b - 1) + (if EndsEmpty(StateAt(es, b - 1), es[b - 1]) then 1 else 0)
  }

  /** Probes that no spent budget has paid for; the one in flight, or the one that was lost, is not counted. */
  function Debt(s: Store): int {
    |s.probes| - |s.spent| - (if s.conn.Connected? || s.conn.Probing? then 0 else 1)
  }

  lemma SettleCharges(s: Store)
    requires Consistent(s) && s.conn.Verifying?
    ensures Debt(Settled(s, s.probeGen, Pong)) <= Debt(s) + (if AnyFailedUnspent(s) then 0 else 1)
  {
    if AnyFailedUnspent(s) {
      var i :| 0 <= i < N && FailedUnspent(s, i);
      assert i in Failures(s);
    }
  }

  lemma LossCharges(s: Store, e: ApiError)
    requires |s.slots| == N && s.conn.Verifying?
    ensures Debt(Settled(s, s.probeGen, Lost(e))) == Debt(s)
  {
  }

  lemma TurnCharges(s: Store, e: Event)
    requires Consistent(s) && Possible(e) && Allowed(s, e) && !Clears(e)
    ensures Debt(Turn(s, e)) <= Debt(s) + (if EndsEmpty(s, e) then 1 else 0)
  {
    if e.Settles? {
      if Settled(s, e.gen, e.outcome) != s {
        NoTriggerAfterSettle(s, e.gen, e.outcome);
        if e.outcome.Pong? {
          SettleCharges(s);
        } else {
          LossCharges(s, e.outcome.error);
        }
      }
    }
  }

  ghost predicate NoClears(es: seq<Event>, a: nat, b: nat)
    requires b <= |es|
  {
    forall k :: a <= k < b ==> !Clears(es[k])
  }

  /** Between two clears every probe is paid for by a spent budget or by an empty Pong. */
  lemma {:induction false} ProbesAreCharged(es: seq<Event>, a: nat, b: nat)
    requires IsRun(es) && a <= b <= |es| && NoClears(es, a, b)
    ensures Debt(StateAt(es, b)) <= Debt(StateAt(es, a)) + EmptyPongs(es, a, b)
    decreases b - a
  {
    hide After, Turn, Consistent, Allowed, Debt, Clears, EndsEmpty;
    if a < b {
      ProbesAreCharged(es, a, b - 1);
      StateStep(es, b - 1);
      assert Allowed(StateAt(es, b - 1), es[b - 1]) && !Clears(es[b - 1]);
      TurnCharges(StateAt(es, b - 1), es[b - 1]);
    }
  }

  /** A failed, unspent slot recovers before the settle of the phase it is verified in. */
  predicate Recovers(s: Store, e: Event)
    requires |s.slots| == N && Possible(e)
  {
    e.SlotChanges? && s.conn.Verifying? && FailedUnspent(s, e.slot) && !FailedUnreachable(e.to)
  }

  /** A verifying phase has a failure to charge. */
  ghost predicate Funded(s: Store)
    requires |s.slots| == N
  {
    s.conn.Verifying? ==> AnyFailedUnspent(s)
  }

  lemma PersistingKeepsFunded(s: Store, e: Event)
    requires Consistent(s) && Possible(e) && e.SlotChanges? && !Recovers(s, e)
    requires s.conn.Verifying? && AnyFailedUnspent(s)
    ensures Funded(Turn(s, e))
  {
    var i :| 0 <= i < N && FailedUnspent(s, i);
    assert FailedUnspent(Apply(s, e), i);
    assert FailedUnspent(Turn(s, e), i);
  }

  lemma TriggerIsFunded(s: Store)
    requires |s.slots| == N && s.lastSeq == s.netFailSeq && !s.conn.Verifying?
    ensures Funded(Trigger(s))
  {
    if AnyFailedUnspent(s) {
      var i :| 0 <= i < N && FailedUnspent(s, i);
      assert FailedUnspent(Trigger(s), i);
    }
  }

  /** With no failed write and no recovery a phase is funded from its trigger to its settle. */
  lemma TurnKeepsFunded(s: Store, e: Event)
    requires Consistent(s) && Possible(e) && !Clears(e) && !e.WriteFails? && !Recovers(s, e) && Funded(s)
    ensures Funded(Turn(s, e)) && !EndsEmpty(s, e)
  {
    match e
    case SlotChanges(i, l) =>
      if s.conn.Verifying? {
        PersistingKeepsFunded(s, e);
      } else {
        TriggerIsFunded(Apply(s, e));
      }
    case Settles(gen, outcome) =>
      if Settled(s, gen, outcome) != s {
        NoTriggerAfterSettle(s, gen, outcome);
      }
    case Joins(id) =>
    case Refused(p) =>
  }

  lemma EmptyPongIsFunded(s: Store, e: Event)
    requires Consistent(s) && Possible(e) && EndsEmpty(s, e)
    ensures Funded(Turn(s, e))
  {
    NoTriggerAfterSettle(s, e.gen, e.outcome);
  }

  ghost predicate Persistent(es: seq<Event>, a: nat, b: nat)
    requires AllPossible(es) && b <= |es|
  {
    forall k: nat :: a <= k < b ==> !es[k].WriteFails? && !Recovers(StateAt(es, k), es[k])
  }

  /** Then at most one Pong is empty: the one that ends a phase begun before. */
  lemma {:induction false} FewEmptyPongs(es: seq<Event>, a: nat, b: nat)
    requires AllPossible(es) && a <= b <= |es| && NoClears(es, a, b) && Persistent(es, a, b)
    ensures EmptyPongs(es, a, b) + (if Funded(StateAt(es, b)) then 0 else 1) <= if Funded(StateAt(es, a)) then 0 else 1
    decreases b - a
  {
    hide After, Turn, Consistent, Clears, EndsEmpty, Funded, Recovers;
    if a < b {
      var s, e := StateAt(es, b - 1), es[b - 1];
      FewEmptyPongs(es, a, b - 1);
      StateStep(es, b - 1);
      assert !Clears(e) && !e.WriteFails? && !Recovers(s, e);
      if Funded(s) {
        TurnKeepsFunded(s, e);
      } else if EndsEmpty(s, e) {
        EmptyPongIsFunded(s, e);
      }
    }
  }

  lemma SpentIsBounded(s: Store)
    requires Consistent(s)
    ensures |s.spent| <= N
  {
    forall x | 0 <= x < |s.spent| ensures s.spent[x] < N {
      assert s.spent[x] in s.spent;
    }
    DistinctAreFew(s.spent, N);
  }

  lemma UnfundedIsVerifying(s: Store)
    requires |s.slots| == N
    ensures Debt(s) <= |s.probes| - |s.spent|
    ensures Debt(s) >= |s.probes| - |s.spent| - 1
    ensures !Funded(s) ==> Debt(s) == |s.probes| - |s.spent| - 1
  {
  }

  /** Failures that persist until they are settled cannot loop: between two clears, without a failed write, they cost at
      most one probe for every slot whose budget is left, and one more. */
  lemma PersistentFailuresEnd(es: seq<Event>, a: nat, b: nat)
    requires IsRun(es) && a <= b <= |es| && NoClears(es, a, b) && Persistent(es, a, b)
    ensures |StateAt(es, b).probes| - |StateAt(es, a).probes| <= N - |StateAt(es, a).spent| + 1
  {
    hide After, Debt, Funded, NoClears, Persistent, Consistent, Allowed;
    ProbesAreCharged(es, a, b);
    FewEmptyPongs(es, a, b);
    EveryStateIsConsistent(es[..b]);
    SpentIsBounded(StateAt(es, b));
    UnfundedIsVerifying(StateAt(es, a));
    UnfundedIsVerifying(StateAt(es, b));
  }

  // ----- when one slot is verified twice

  /** Turn k sends a probe. */
  predicate SendsProbe(es: seq<Event>, k: nat)
    requires AllPossible(es) && k < |es|
  {
    |StateAt(es, k + 1).probes| > |StateAt(es, k).probes|
  }

  lemma ProbeTurn(s: Store, e: Event)
    requires Consistent(s) && Possible(e) && |Turn(s, e).probes| > |s.probes|
    ensures s.conn.Connected? && Turn(s, e).conn.Verifying?
  {
    if e.Settles? && Settled(s, e.gen, e.outcome) != s {
      NoTriggerAfterSettle(s, e.gen, e.outcome);
    }
  }

  /** What a slot verified once can be in until the next clear, unless it recovers: still being verified, charged, or cut
      off by a loss. */
  ghost predicate Settling(s: Store, i: nat)
    requires |s.slots| == N
  {
    || (s.conn.Verifying? && FailedUnspent(s, i))
    || i in s.spent
    || IsFailure(s.conn)
  }

  lemma TurnKeepsSettling(s: Store, e: Event, i: nat)
    requires Consistent(s) && Possible(e) && Allowed(s, e) && !Clears(e) && Settling(s, i)
    requires !(e.SlotChanges? && e.slot == i && Recovers(s, e))
    ensures Settling(Turn(s, e), i)
  {
    if e.Settles? {
      if Settled(s, e.gen, e.outcome) != s {
        NoTriggerAfterSettle(s, e.gen, e.outcome);
        if e.outcome.Pong? && FailedUnspent(s, i) {
          assert i in Failures(s);
        }
      }
    }
  }

  /** Turn k is a recovery of slot i. */
  ghost predicate RecoversAt(es: seq<Event>, k: nat, i: nat)
    requires AllPossible(es) && k < |es|
  {
    es[k].SlotChanges? && es[k].slot == i && Recovers(StateAt(es, k), es[k])
  }

  lemma {:induction false} SettlesOrRecovers(es: seq<Event>, a: nat, b: nat, i: nat)
    requires IsRun(es) && a <= b <= |es| && NoClears(es, a, b) && Settling(StateAt(es, a), i)
    requires forall k: nat :: a <= k < b ==> !RecoversAt(es, k, i)
    ensures Settling(StateAt(es, b), i)
    decreases b - a
  {
    hide After, Turn, Consistent, Allowed, Clears, Settling, Recovers;
    if a < b {
      SettlesOrRecovers(es, a, b - 1, i);
      StateStep(es, b - 1);
      assert Allowed(StateAt(es, b - 1), es[b - 1]) && !Clears(es[b - 1]) && !RecoversAt(es, b - 1, i);
      TurnKeepsSettling(StateAt(es, b - 1), es[b - 1], i);
    }
  }

  /** Between two clears two probes can be sent over one failed, unspent slot only if the slot recovered while it was
      being verified. Failed writes and other slots make no difference. */
  lemma VerifiedTwiceAfterRecovery(es: seq<Event>, j: nat, n: nat, i: nat) returns (k: nat)
    requires IsRun(es) && j < n < |es| && NoClears(es, j, n + 1) && SendsProbe(es, j) && SendsProbe(es, n)
    requires FailedUnspent(StateAt(es, j + 1), i) && FailedUnspent(StateAt(es, n + 1), i)
    ensures j < k < n && RecoversAt(es, k, i)
  {
    hide After, Turn, Consistent, Allowed, Clears, Recovers;
    StateStep(es, j);
    ProbeTurn(StateAt(es, j), es[j]);
    StateStep(es, n);
    ProbeTurn(StateAt(es, n), es[n]);
    if forall x: nat :: j + 1 <= x < n ==> !RecoversAt(es, x, i) {
      SettlesOrRecovers(es, j + 1, n, i);
      assert !Clears(es[n]) && Allowed(StateAt(es, n), es[n]);
      StillSpent(StateAt(es, n), es[n], i);
      assert false;
    }
    k :| j + 1 <= k < n && RecoversAt(es, k, i);
  }

  lemma StillSpent(s: Store, e: Event, i: nat)
    requires Consistent(s) && Possible(e) && !Clears(e)
    ensures i in s.spent ==> i in Turn(s, e).spent
  {
    TurnIsBudgeted(s, e);
  }

  // ----- which failures count, and which slots are loaded again

  /** A failure of any other kind than the network's starts nothing. */
  lemma OtherFailureIsQuiet(s: Store, i: nat, e: ApiError)
    requires Consistent(s) && i < N && !AnyFailedUnspent(s) && !e.kind.Unreachable?
    ensures var t := Turn(s, SlotChanges(i, Failed(e)));
            t.conn == s.conn && t.probes == s.probes && t.spent == s.spent && t.sent == s.sent
  {
    var t := Apply(s, SlotChanges(i, Failed(e)));
    forall k: nat | k < N ensures !FailedUnspent(t, k) {
      assert !FailedUnspent(s, k);
    }
  }

  /** The load of this slot has failed for the network, and a probe for a new generation goes out over it. */
  ghost predicate StartsProbe(s: Store, i: nat, e: ApiError)
    requires |s.slots| == N && i < N
  {
    var t := Turn(s, SlotChanges(i, Failed(e)));
    s.conn.Connected? && t.conn == Verifying(s.conn.id)
    && t.probeGen == s.probeGen + 1 && t.probes == s.probes + [s.probeGen + 1]
  }

  lemma UnspentFailureProbes(s: Store, i: nat, e: ApiError)
    requires Consistent(s) && s.conn.Connected? && i < N && i !in s.spent && e.kind.Unreachable?
    ensures StartsProbe(s, i, e)
  {
    assert FailedUnspent(Apply(s, SlotChanges(i, Failed(e))), i);
  }

  lemma ClearedIsWhole(s: Store, e: Event)
    requires Consistent(s) && Possible(e) && Clears(e)
    ensures Turn(s, e).spent == [] && Consistent(Turn(s, e))
  {
    TurnIsConsistent(s, e);
  }

  /** After any clear, whatever was spent before, the first network failure of any slot is verified. */
  lemma ClearRearms(s: Store, e: Event, i: nat, error: ApiError)
    requires Consistent(s) && Possible(e) && Clears(e) && i < N && error.kind.Unreachable?
    ensures var t := Turn(s, e); t.conn.Connected? ==> StartsProbe(t, i, error)
  {
    hide Turn, StartsProbe;
    ClearedIsWhole(s, e);
    if Turn(s, e).conn.Connected? {
      UnspentFailureProbes(Turn(s, e), i, error);
    }
  }

  /** A failed write is verified whatever slots and budgets say, but only while connected. */
  lemma FailedWriteProbes(s: Store)
    requires Consistent(s)
    ensures var t := Turn(s, WriteFails);
            && t.slots == s.slots && t.spent == s.spent
            && (s.conn.Connected? ==> t.conn == Verifying(s.conn.id) && t.probes == s.probes + [s.probeGen + 1])
            && (!s.conn.Connected? ==> t.conn == s.conn && t.probes == s.probes)
  {
  }

  /** A reset forgets every load and every failure, so it starts no probe. */
  lemma ResetForgets(s: Store)
    requires Consistent(s)
    ensures var t := Turn(s, DomainsReset);
            (forall k :: 0 <= k < N ==> t.slots[k] == NotAsked) && t.conn == s.conn && t.probes == s.probes
  {
    var t := Apply(s, DomainsReset);
    assert forall k: nat :: k < N ==> !FailedUnspent(t, k);
  }

  /** A refresh starts the loads of its screen and leaves the others; it starts a probe exactly when it starts some load
      while connected over a failed slot it does not load. */
  lemma RefreshLoads(s: Store, loads: map<nat, Loadable>)
    requires Consistent(s) && Possible(Refreshed(loads))
    ensures var t := Turn(s, Refreshed(loads));
            && (forall k :: 0 <= k < N ==> t.slots[k] == if k in loads then loads[k] else s.slots[k])
            && (t.conn == s.conn || t.probes == s.probes + [s.probeGen + 1])
            && (t.conn != s.conn <==>
                s.conn.Connected? && loads != map[]
                && exists k :: 0 <= k < N && k !in loads && s.slots[k].Failed? && s.slots[k].error.kind.Unreachable?)
  {
    var t := Apply(s, Refreshed(loads));
    if k :| 0 <= k < N && k !in loads && s.slots[k].Failed? && s.slots[k].error.kind.Unreachable? {
      assert FailedUnspent(t, k);
    }
    if loads == map[] {
      assert t.slots == s.slots;
    }
  }

  /** The Connect command starts from nothing: it ends connected as the identity it joins, with every budget whole, or in
      the phase it is refused with, where no failure starts a probe. */
  lemma ConnectIsAnswered(s: Store, id: Identity, phase: ConnPhase, i: nat, e: ApiError)
    requires Consistent(s) && IsFailure(phase) && i < N && e.kind.Unreachable?
    ensures var c := Turn(s, Connects);
            var joined, refused := Turn(c, Joins(id)), Turn(c, Refused(phase));
            && c.conn == Probing && (forall k :: 0 <= k < N ==> c.slots[k] == NotAsked)
            && joined.conn == Connected(id) && StartsProbe(joined, i, e)
            && refused.conn == phase
            && Turn(refused, SlotChanges(i, Failed(e))).conn == phase
            && Turn(refused, SlotChanges(i, Failed(e))).probes == s.probes
  {
    var c := Turn(s, Connects);
    ClearedIsWhole(s, Connects);
    TurnIsConsistent(c, Joins(id));
    UnspentFailureProbes(Turn(c, Joins(id)), i, e);
  }

  /** The reads that a refresh of their screen sends again, by the names of their slots. */
  predicate IsReload(name: string) {
    || name == "providers" || name == "profiles" || name == "routes" || name == "users" || name == "accounts"
    || name == "entities" || name == "runtimes" || name == "runtime_config" || name == "data_homes" || name == "reservations"
  }

  predicate IsAction(name: string) {
    || name == "runs" || name == "artifacts" || name == "logs" || name == "discover" || name == "sandbox"
    || name == "voices" || name == "route_test" || name == "entity_detail" || name == "entity_policy"
    || name == "entity_prompt" || name == "entity_candidates"
  }

  lemma SlotsAreNamed(i: nat)
    requires i < N
    ensures |SLOTS| == N
    ensures if Retry(i) then IsReload(SLOTS[i].name) else IsAction(SLOTS[i].name)
  {
  }

  lemma NamesAreDistinct(i: nat, j: nat)
    requires i < j < N && |SLOTS| == N
    ensures SLOTS[i].name != SLOTS[j].name
  {
  }

  /** A Pong loads exactly the pure reads among the failures again; the others stay failed, and both are charged. */
  lemma PongReloadsExactly(s: Store, i: nat)
    requires Consistent(s) && s.conn.Verifying? && i < N && |SLOTS| == N
    requires s.slots[i].Failed? && s.slots[i].error.kind.Unreachable? && i !in s.spent
    ensures var t := Turn(s, Settles(s.probeGen, Pong));
            && i in t.spent
            && (if IsReload(SLOTS[i].name) then t.slots[i] == Loading && i in t.sent[|s.sent|..]
                else t.slots[i] == s.slots[i] && i !in t.sent[|s.sent|..])
  {
    hide Retry, IsReload, IsAction;
    SlotsAreNamed(i);
    ReloadIsNoAction(SLOTS[i].name);
    NoTriggerAfterSettle(s, s.probeGen, Pong);
    var t := Settled(s, s.probeGen, Pong);
    assert FailedUnspent(s, i) && i in Failures(s);
    assert t.sent[|s.sent|..] == Retries(Failures(s));
  }

  lemma ReloadIsNoAction(name: string)
    ensures !(IsReload(name) && IsAction(name))
  {
  }

  /** Whatever else a Pong finds, it leaves alone. */
  lemma PongLeavesOthers(s: Store, i: nat)
    requires Consistent(s) && s.conn.Verifying? && i < N
    requires !(s.slots[i].Failed? && s.slots[i].error.kind.Unreachable?) || i in s.spent
    ensures var t := Turn(s, Settles(s.probeGen, Pong));
            && t.slots[i] == s.slots[i] && i !in t.sent[|s.sent|..] && (i in t.spent <==> i in s.spent)
  {
    hide Retry;
    NoTriggerAfterSettle(s, s.probeGen, Pong);
    var t := Settled(s, s.probeGen, Pong);
    assert i !in Failures(s);
    assert t.sent[|s.sent|..] == Retries(Failures(s));
  }

  // ----- no failure is lost, and where one is

  /** While connected, every transport failure on a slot has had its verification. */
  ghost predicate NothingMissed(s: Store)
    requires |s.slots| == N
  {
    s.conn.Connected? ==> !AnyFailedUnspent(s)
  }

  /** Any turn that notifies the effect leaves nothing missed, whatever was missed before. */
  lemma NotifiedTurnMissesNothing(s: Store, e: Event)
    requires Consistent(s) && Possible(e) && Notifies(s, e)
    ensures NothingMissed(Turn(s, e))
  {
  }

  predicate AnyFailed(s: Store)
    requires |s.slots| == N
  {
    exists i :: 0 <= i < N && FailedUnreachable(s.slots[i])
  }

  ghost predicate ProbesClean(s: Store)
    requires |s.slots| == N
  {
    s.conn.Probing? ==> !AnyFailed(s)
  }

  lemma TurnProbesClean(s: Store, e: Event)
    requires Consistent(s) && Possible(e) && Allowed(s, e) && ProbesClean(s)
    ensures ProbesClean(Turn(s, e))
  {
    var t := Turn(s, e);
    if t.conn.Probing? {
      forall i | 0 <= i < N ensures !FailedUnreachable(t.slots[i]) {
        assert s.conn.Probing? ==> !FailedUnreachable(s.slots[i]);
      }
    }
  }

  /** While the Connect command probes, no slot is failed. */
  lemma {:induction false} RunProbesClean(es: seq<Event>, k: nat)
    requires IsRun(es) && k <= |es|
    ensures ProbesClean(StateAt(es, k))
  {
    hide After, Turn, Consistent, Allowed;
    if k == 0 {
      StartsDisconnected(es);
    } else {
      RunProbesClean(es, k - 1);
      StateStep(es, k - 1);
      assert Allowed(StateAt(es, k - 1), es[k - 1]);
      TurnProbesClean(StateAt(es, k - 1), es[k - 1]);
    }
  }

  /** The one turn the effect does not see: a refresh that starts no watched load clears the budget of a failed slot. */
  ghost predicate Misses(s: Store, e: Event)
    requires |s.slots| == N
  {
    e.Refreshed? && e.loads == map[] && s.conn.Connected? && AnyFailed(s)
  }

  /** Whatever was missed before, such a turn misses a failure. */
  lemma MissingTurn(s: Store, e: Event)
    requires Consistent(s) && Possible(e) && Misses(s, e)
    ensures !NothingMissed(Turn(s, e)) && !Notifies(s, e)
  {
    assert Overlaid(s.slots, map[]) == s.slots;
    ClearedFailures(s);
  }

  /** From a state with nothing missed, a turn misses a failure exactly when it is that one. */
  lemma MissedExactlyWhen(s: Store, e: Event)
    requires Consistent(s) && Possible(e) && Allowed(s, e) && ProbesClean(s) && NothingMissed(s)
    ensures !NothingMissed(Turn(s, e)) <==> Misses(s, e)
  {
    if Notifies(s, e) {
      NotifiedTurnMissesNothing(s, e);
      assert Overlaid(s.slots, map[]) == s.slots;
    } else {
      match e
      case Settles(gen, outcome) =>
        if Settled(s, gen, outcome) != s {
          NoTriggerAfterSettle(s, gen, outcome);
        }
      case Joins(id) =>
        SameFailures(s, Turn(s, e));
      case Refused(p) =>
      case Refreshed(loads) =>
        assert Overlaid(s.slots, map[]) == s.slots;
        ClearedFailures(s);
    }
  }

  lemma SameFailures(s: Store, t: Store)
    requires |s.slots| == N && t.slots == s.slots && t.spent == s.spent
    ensures AnyFailedUnspent(t) == AnyFailedUnspent(s)
    ensures AnyFailedUnspent(s) ==> AnyFailed(s)
  {
    if AnyFailedUnspent(s) {
      var i :| 0 <= i < N && FailedUnspent(s, i);
      assert FailedUnspent(t, i);
    }
    if AnyFailedUnspent(t) {
      var i :| 0 <= i < N && FailedUnspent(t, i);
      assert FailedUnspent(s, i);
    }
  }

  lemma ClearedFailures(s: Store)
    requires |s.slots| == N
    ensures AnyFailedUnspent(s.(spent := [])) == AnyFailed(s)
  {
    var t := s.(spent := []);
    if AnyFailed(s) {
      var i :| 0 <= i < N && FailedUnreachable(s.slots[i]);
      assert FailedUnspent(t, i);
    }
    if AnyFailedUnspent(t) {
      var i :| 0 <= i < N && FailedUnspent(t, i);
      assert FailedUnreachable(s.slots[i]);
    }
  }

  /** A failure once missed stays missed as long as the effect is not notified. */
  lemma UnnoticedTurnKeepsMissing(s: Store, e: Event)
    requires Consistent(s) && Possible(e) && Allowed(s, e) && !NothingMissed(s) && !Notifies(s, e)
    ensures !NothingMissed(Turn(s, e))
  {
    if e.Refreshed? {
      assert Overlaid(s.slots, map[]) == s.slots;
      SameFailures(s, s);
      ClearedFailures(s);
    }
  }

  /** Turn j missed a failure, and no later turn before k notified the effect. */
  ghost predicate MissedAt(es: seq<Event>, j: nat, k: nat)
    requires AllPossible(es) && j < k <= |es|
  {
    Misses(StateAt(es, j), es[j]) && forall i: nat :: j < i < k ==> !Notifies(StateAt(es, i), es[i])
  }

  /** In every run a failure stands unverified while connected exactly since a refresh that started no watched load over
      a failed slot, up to the next turn that notifies the effect. */
  lemma {:induction false} MissedExactlySince(es: seq<Event>, k: nat)
    requires IsRun(es) && k <= |es|
    ensures !NothingMissed(StateAt(es, k)) <==> exists j: nat :: j < k && MissedAt(es, j, k)
  {
    hide After, Turn, Consistent, Allowed, Misses, NothingMissed, Notifies, ProbesClean;
    if k == 0 {
      StartsClean(es);
    } else {
      var s, e := StateAt(es, k - 1), es[k - 1];
      MissedExactlySince(es, k - 1);
      StateStep(es, k - 1);
      RunProbesClean(es, k - 1);
      assert Allowed(s, e);
      MissedStep(es, k - 1, k);
    }
  }

  lemma StartsClean(es: seq<Event>)
    requires AllPossible(es)
    ensures NothingMissed(StateAt(es, 0))
  {
  }

  lemma MissedStep(es: seq<Event>, k: nat, n: nat)
    requires AllPossible(es) && k + 1 == n <= |es| && Consistent(StateAt(es, k)) && ProbesClean(StateAt(es, k))
    requires Allowed(StateAt(es, k), es[k]) && StateAt(es, n) == Turn(StateAt(es, k), es[k])
    requires !NothingMissed(StateAt(es, k)) <==> exists j: nat :: j < k && MissedAt(es, j, k)
    ensures !NothingMissed(StateAt(es, n)) <==> exists j: nat :: j < n && MissedAt(es, j, n)
  {
    hide After, Turn, Consistent, Allowed, Misses, NothingMissed, Notifies, ProbesClean;
    var s, e := StateAt(es, k), es[k];
    if Misses(s, e) {
      MissingTurn(s, e);
      assert MissedAt(es, k, n);
    } else if Notifies(s, e) {
      NotifiedTurnMissesNothing(s, e);
    } else if NothingMissed(s) {
      MissedExactlyWhen(s, e);
      forall j: nat | j < k ensures !MissedAt(es, j, n) {
        assert !MissedAt(es, j, k);
      }
    } else {
      UnnoticedTurnKeepsMissing(s, e);
      var j: nat :| j < k && MissedAt(es, j, k);
      assert MissedAt(es, j, n);
    }
  }

  // ----- runs that show it

  lemma AfterStep(es: seq<Event>, e: Event)
    requires AllPossible(es) && Possible(e)
    ensures AllPossible(es + [e]) && After(es + [e]) == Turn(After(es), e)
  {
    assert (es + [e])[..|es|] == es;
  }

  lemma RunStep(es: seq<Event>, e: Event)
    requires IsRun(es) && Possible(e) && Allowed(After(es), e)
    ensures IsRun(es + [e]) && After(es + [e]) == Turn(After(es), e)
  {
    hide After, Turn, Allowed;
    var more := es + [e];
    AfterStep(es, e);
    forall k: nat | k < |more| ensures Allowed(StateAt(more, k), more[k]) {
      assert more[..k] == es[..k];
      if k < |es| {
        assert Allowed(StateAt(es, k), es[k]);
      } else {
        assert es[..k] == es;
      }
    }
  }

  lemma JoinedRun(id: Identity)
    ensures IsRun([Connects, Joins(id)]) && After([Connects, Joins(id)]) == INITIAL.(conn := Connected(id))
  {
    assert After([]) == INITIAL && IsRun([]);
    RunStep([], Connects);
    assert [] + [Connects] == [Connects];
    RunStep([Connects], Joins(id));
    assert [Connects] + [Joins(id)] == [Connects, Joins(id)];
  }

  /** A transport failure on a slot whose budget is left, while connected and calm. */
  lemma FailureTriggers(s: Store, i: nat, e: ApiError)
    requires Consistent(s) && s.conn.Connected? && i < N && i !in s.spent && e.kind.Unreachable?
    ensures Turn(s, SlotChanges(i, Failed(e)))
         == s.(slots := s.slots[i := Failed(e)], conn := Verifying(s.conn.id), probeGen := s.probeGen + 1,
              probes := s.probes + [s.probeGen + 1])
  {
    assert FailedUnspent(Apply(s, SlotChanges(i, Failed(e))), i);
  }

  /** A Pong over one failed action slot: it stays failed, and its budget is spent. */
  lemma ActionStaysFailed(s: Store, i: nat)
    requires Consistent(s) && s.conn.Verifying? && i < N && !Retry(i) && FailedUnreachable(s.slots[i])
    ensures var t := Turn(s, Settles(s.probeGen, Pong));
            t.conn == Connected(s.conn.id) && FailedUnreachable(t.slots[i]) && t.probes == s.probes
  {
    NoTriggerAfterSettle(s, s.probeGen, Pong);
  }

  /** An action slot fails and is verified; then `r` on a screen that reloads no watched slot clears its budget: the
      console stays connected over a failure that nothing will verify. */
  lemma MissedAfterRefresh(id: Identity, i: nat, e: ApiError) returns (es: seq<Event>)
    requires i < N && !Retry(i) && e.kind.Unreachable?
    ensures es == [Connects, Joins(id), SlotChanges(i, Failed(e)), Settles(1, Pong), Refreshed(map[])]
    ensures IsRun(es) && After(es).conn == Connected(id) && FailedUnspent(After(es), i) && After(es).probes == [1]
  {
    hide IsRun, After, Turn, Retry, FailedUnreachable, Consistent;
    es := [Connects, Joins(id)];
    JoinedRun(id);
    EveryStateIsConsistent(es);
    FreshSlots(es, id);
    FailureTriggers(After(es), i, e);
    es := Extend(es, SlotChanges(i, Failed(e)));
    FailedIs(e);
    ActionStaysFailed(After(es), i);
    es := Extend(es, Settles(1, Pong));
    RefreshIsUnseen(After(es), i);
    es := Extend(es, Refreshed(map[]));
  }

  lemma FreshSlots(es: seq<Event>, id: Identity)
    requires AllPossible(es) && After(es) == INITIAL.(conn := Connected(id))
    ensures var s := After(es);
            s.conn == Connected(id) && s.spent == [] && s.probeGen == 0 && s.probes == [] && !AnyFailed(s)
  {
  }

  lemma FailedIs(e: ApiError)
    requires e.kind.Unreachable?
    ensures FailedUnreachable(Failed(e))
  {
  }

  lemma RefreshIsUnseen(s: Store, i: nat)
    requires Consistent(s) && s.conn.Connected? && i < N && FailedUnreachable(s.slots[i])
    ensures var t := Turn(s, Refreshed(map[]));
            t.conn == s.conn && FailedUnspent(t, i) && t.probes == s.probes
  {
    assert Overlaid(s.slots, map[]) == s.slots;
  }

  lemma Extend(es: seq<Event>, e: Event) returns (more: seq<Event>)
    requires IsRun(es) && Possible(e) && (e.Joins? || e.Refused? ==> After(es).conn.Probing?)
    requires e.SlotChanges? ==> !After(es).conn.Probing?
    ensures more == es + [e] && IsRun(more) && After(more) == Turn(After(es), e) && Consistent(After(more))
  {
    more := es + [e];
    RunStep(es, e);
    EveryStateIsConsistent(more);
  }

  lemma OneFailure(s: Store, i: nat, e: ApiError, to: Loadable)
    requires |s.slots| == N && i < N && !AnyFailed(s) && !FailedUnreachable(to)
    ensures !AnyFailed(s.(slots := s.slots[i := Failed(e)][i := to]))
  {
    var slots := s.slots[i := Failed(e)][i := to];
    forall k | 0 <= k < N ensures !FailedUnreachable(slots[k]) {
      assert !FailedUnreachable(s.slots[k]);
    }
  }

  lemma RecoveryIsQuiet(s: Store, i: nat, to: Loadable)
    requires Consistent(s) && s.conn.Verifying? && i < N && !AnyFailed(s.(slots := s.slots[i := to]))
    ensures Turn(s, SlotChanges(i, to)) == s.(slots := s.slots[i := to])
  {
    SameFailures(s.(slots := s.slots[i := to]), s.(slots := s.slots[i := to]));
  }

  lemma {:induction false} NoFailures(slots: seq<Loadable>, spent: seq<nat>, n: nat)
    requires n <= |slots| && forall k :: 0 <= k < n ==> !FailedUnreachable(slots[k])
    ensures FailuresIn(slots, spent, n) == []
  {
    if n > 0 {
      NoFailures(slots, spent, n - 1);
    }
  }

  lemma EmptyPong(s: Store)
    requires Consistent(s) && s.conn.Verifying? && !AnyFailed(s)
    ensures Turn(s, Settles(s.probeGen, Pong)) == s.(conn := Connected(s.conn.id))
  {
    NoTriggerAfterSettle(s, s.probeGen, Pong);
    NoFailures(s.slots, s.spent, N);
    NothingRetried(s.slots, s.sent);
  }

  /** Connected, with nothing failed and no budget spent. */
  ghost predicate Calm(s: Store) {
    |s.slots| == N && s.conn.Connected? && s.spent == [] && !AnyFailed(s)
  }

  /** One slot fails and recovers while it is verified: one more probe, and no budget is spent. */
  lemma Hiccup(es: seq<Event>, i: nat, e: ApiError, to: Loadable) returns (more: seq<Event>)
    requires AllPossible(es) && IsRun(es) && Calm(After(es)) && i < N && e.kind.Unreachable?
    requires !FailedUnreachable(to)
    ensures var gen := |After(es).probes| + 1;
            more == es + [SlotChanges(i, Failed(e))] + [SlotChanges(i, to)] + [Settles(gen, Pong)]
    ensures IsRun(more) && Calm(After(more)) && |After(more).probes| == |After(es).probes| + 1
  {
    hide IsRun, After, Turn, Retry, FailedUnreachable, AnyFailed;
    var s := After(es);
    EveryStateIsConsistent(es);
    FailureTriggers(s, i, e);
    OneFailure(s, i, e, to);
    more := Extend(es, SlotChanges(i, Failed(e)));
    SameSlots(s.(slots := s.slots[i := Failed(e)][i := to]),
              After(more).(slots := After(more).slots[i := to]));
    RecoveryIsQuiet(After(more), i, to);
    more := Extend(more, SlotChanges(i, to));
    SameSlots(s.(slots := s.slots[i := Failed(e)][i := to]), After(more));
    EmptyPong(After(more));
    more := Extend(more, Settles(|s.probes| + 1, Pong));
    SameSlots(s.(slots := s.slots[i := Failed(e)][i := to]), After(more));
  }

  lemma SameSlots(s: Store, t: Store)
    requires |s.slots| == N && t.slots == s.slots
    ensures AnyFailed(t) == AnyFailed(s)
  {
  }

  /** So a single slot that keeps recovering in time has no bound: it can send any number of probes on one budget. */
  lemma {:induction false} RecoveringFailureLoops(id: Identity, i: nat, e: ApiError, to: Loadable, n: nat)
    returns (es: seq<Event>)
    requires i < N && e.kind.Unreachable? && !FailedUnreachable(to)
    ensures IsRun(es) && Calm(After(es)) && |After(es).probes| == n
    ensures |es| > 0 && NoClears(es, 1, |es|)
  {
    hide After;
    if n == 0 {
      es := [Connects, Joins(id)];
      JoinedRun(id);
      FreshSlots(es, id);
    } else {
      var before := RecoveringFailureLoops(id, i, e, to, n - 1);
      es := Hiccup(before, i, e, to);
      forall k | 1 <= k < |es| ensures !Clears(es[k]) {
        if k < |before| {
          assert es[k] == before[k];
        }
      }
    }
  }

  lemma FailureOpens(s: Store, i: nat, e: ApiError)
    requires Consistent(s) && s.conn.Connected? && i < N && i !in s.spent && e.kind.Unreachable?
    ensures var t := Turn(s, SlotChanges(i, Failed(e))); |t.probes| > |s.probes| && FailedUnspent(t, i)
  {
    FailureTriggers(s, i, e);
  }

  /** Such runs exist, for every slot: it fails, recovers while it is verified, and fails again. */
  lemma VerifiedTwice(id: Identity, i: nat, e: ApiError, to: Loadable) returns (es: seq<Event>)
    requires i < N && e.kind.Unreachable? && !FailedUnreachable(to)
    ensures |es| == 6 && IsRun(es) && NoClears(es, 2, 6) && SendsProbe(es, 2) && SendsProbe(es, 5)
    ensures FailedUnspent(StateAt(es, 3), i) && FailedUnspent(StateAt(es, 6), i)
  {
    hide After, Turn, FailedUnreachable, AnyFailed;
    var start := [Connects, Joins(id)];
    JoinedRun(id);
    FreshSlots(start, id);
    var again := Hiccup(start, i, e, to);
    EveryStateIsConsistent(start);
    EveryStateIsConsistent(again);
    FailureOpens(After(start), i, e);
    FailureOpens(After(again), i, e);
    AfterStep(start, SlotChanges(i, Failed(e)));
    es := Extend(again, SlotChanges(i, Failed(e)));
    assert es[..2] == start && es[..3] == start + [SlotChanges(i, Failed(e))] && es[..5] == again && es[..6] == es;
  }
}
