/** oauth2-resilience/src/circuit_breaker.rs, one step per atomic access: any number of threads interleave
    their loads, stores, swaps, read-modify-writes and clock readings. Memory is sequentially consistent here. */
module BreakerAtomics {
  import opened Machine
  import CB = CircuitBreakers

  datatype Call = AllowCall | StateCall | SuccessCall | FailureCall

  /** Where a thread is: the atomic access or clock reading it performs next. `call` is the method that asked for the
      timer check, `stamp` the copy of `opened_at` it compares with the clock after it released the lock, and `reading`
      the instant it took before it acquired the lock to store it. */
  datatype Pc =
    | Idle
    | CheckLoad(call: Call) | CheckStamp(call: Call) | CheckElapsed(call: Call, stamp: real) | LoadState(call: Call)
    | LoadProbes | CasProbes(current: u32)
    | SuccessLoad | SuccessClear | SuccessSub | SuccessAdd
    | FailureLoad | FailureAdd | FailureSub
    | SwapHalfOpen(call: Call) | HalfSuccesses(call: Call) | HalfProbes(call: Call)
    | SwapClosed | ClosedFailures | ClosedSuccesses | ClosedProbes | ClosedStamp
    | SwapOpen | OpenClock | OpenStamp(reading: real) | OpenFailures | OpenSuccesses | OpenProbes | OpenTrips

  datatype World = World(shared: CB.Breaker, pcs: map<nat, Pc>)

  /** Thread `thread` performs its next access; an idle thread begins `call`. `now` is the clock if the access
      reads it, and `spurious` makes a `compare_exchange_weak` fail without cause. */
  datatype Action = Action(thread: nat, call: Call, now: real, spurious: bool)

  function PcOf(w: World, t: nat): Pc {
    if t in w.pcs then w.pcs[t] else Idle
  }

  function Enter(call: Call): Pc {
    match call
    case AllowCall => CheckLoad(AllowCall)
    case StateCall => CheckLoad(StateCall)
    case SuccessCall => SuccessLoad
    case FailureCall => FailureLoad
  }

  /** The shared memory after the access, and where the thread goes on. */
  function Access(cfg: CB.Config, b: CB.Breaker, pc: Pc, a: Action): (CB.Breaker, Pc) {
    match pc
    case Idle => (b, Enter(a.call))
    // check_transition
    case CheckLoad(c) => (b, if b.state == CB.Open then CheckStamp(c) else LoadState(c))
    case CheckStamp(c) => (b, if b.openedAt.Some? then CheckElapsed(c, b.openedAt.value) else LoadState(c))
    case CheckElapsed(c, stamp) =>
      (b, if cfg.openDuration <= Elapsed(stamp, a.now) then SwapHalfOpen(c) else LoadState(c))
    // allow_request and state
    case LoadState(c) => (b, if c == AllowCall && b.state == CB.HalfOpen then LoadProbes else Idle)
    case LoadProbes => (b, if cfg.halfOpenMaxProbes <= b.probes then Idle else CasProbes(b.probes))
    case CasProbes(current) =>
      if b.probes == current && !a.spurious then (b.(probes := Inc(current)), Idle) else (b, LoadProbes)
    // record_success
    case SuccessLoad =>
      (b, match b.state case Closed => SuccessClear case HalfOpen => SuccessSub case Open => Idle)
    case SuccessClear => (b.(failures := 0), Idle)
    case SuccessSub => (b.(probes := Dec(b.probes)), SuccessAdd)
    case SuccessAdd =>
      var n := Inc(b.successes);
      (b.(successes := n), if cfg.successThreshold <= n then SwapClosed else Idle)
    // record_failure
    case FailureLoad =>
      (b, match b.state case Closed => FailureAdd case HalfOpen => FailureSub case Open => Idle)
    case FailureAdd =>
      var n := Inc(b.failures);
      (b.(failures := n), if cfg.failureThreshold <= n then SwapOpen else Idle)
    case FailureSub => (b.(probes := Dec(b.probes)), SwapOpen)
    // transition_to(HalfOpen)
    case SwapHalfOpen(c) =>
      (b.(state := CB.HalfOpen), if b.state == CB.HalfOpen then LoadState(c) else HalfSuccesses(c))
    case HalfSuccesses(c) => (b.(successes := 0), HalfProbes(c))
    case HalfProbes(c) => (b.(probes := 0), LoadState(c))
    // transition_to(Closed)
    case SwapClosed => (b.(state := CB.Closed), if b.state == CB.Closed then Idle else ClosedFailures)
    case ClosedFailures => (b.(failures := 0), ClosedSuccesses)
    case ClosedSuccesses => (b.(successes := 0), ClosedProbes)
    case ClosedProbes => (b.(probes := 0), ClosedStamp)
    case ClosedStamp => (b.(openedAt := None), Idle)
    // transition_to(Open)
    case SwapOpen => (b.(state := CB.Open), if b.state == CB.Open then Idle else OpenClock)
    case OpenClock => (b, OpenStamp(a.now))
    case OpenStamp(reading) => (b.(openedAt := Some(reading)), OpenFailures)
    case OpenFailures => (b.(failures := 0), OpenSuccesses)
    case OpenSuccesses => (b.(successes := 0), OpenProbes)
    case OpenProbes => (b.(probes := 0), OpenTrips)
    case OpenTrips => (b.(trips := Inc(b.trips)), Idle)
  }

  function Step(cfg: CB.Config, w: World, a: Action): World {
    var (b, pc) := Access(cfg, w.shared, PcOf(w, a.thread), a);
    World(b, w.pcs[a.thread := pc])
  }

  function Run(cfg: CB.Config, w: World, acts: seq<Action>): World
    decreases |acts|
  {
    if acts == [] then w else Run(cfg, Step(cfg, w, acts[0]), acts[1..])
  }

  const START := World(CB.FRESH, map[])

  /** The access lets a request through. */
  predicate Lets(b: CB.Breaker, pc: Pc, a: Action) {
    match pc
    case LoadState(c) => c == AllowCall && b.state == CB.Closed
    case CasProbes(current) => b.probes == current && !a.spurious
    case _ => false
  }

  predicate AdmitsNow(w: World, a: Action) {
    Lets(w.shared, PcOf(w, a.thread), a)
  }

  /** How many requests a run lets through. */
  function Admissions(cfg: CB.Config, w: World, acts: seq<Action>): nat
    decreases |acts|
  {
    if acts == [] then 0
    else (if AdmitsNow(w, acts[0]) then 1 else 0) + Admissions(cfg, Step(cfg, w, acts[0]), acts[1..])
  }

  lemma {:induction false} RunConcat(cfg: CB.Config, w: World, xs: seq<Action>, ys: seq<Action>)
    ensures Run(cfg, w, xs + ys) == Run(cfg, Run(cfg, w, xs), ys)
    ensures Admissions(cfg, w, xs + ys) == Admissions(cfg, w, xs) + Admissions(cfg, Run(cfg, w, xs), ys)
    decreases |xs|
  {
    if xs == [] {
      assert xs + ys == ys;
    } else {
      assert (xs + ys)[1..] == xs[1..] + ys;
      RunConcat(cfg, Step(cfg, w, xs[0]), xs[1..], ys);
    }
  }

  // ---------------------------------------------------------------------------
  // Trip ledger
  // ---------------------------------------------------------------------------

  /** The thread won the swap into Open and has not counted the trip yet. */
  predicate OwesTrip(pc: Pc) {
    pc.OpenClock? || pc.OpenStamp? || pc.OpenFailures? || pc.OpenSuccesses? || pc.OpenProbes? || pc.OpenTrips?
  }

  /** The threads at a position of some kind. */
  function Where(pcs: map<nat, Pc>, kind: Pc -> bool): set<nat> {
    set t | t in pcs && kind(pcs[t])
  }

  function Owing(pcs: map<nat, Pc>): set<nat> {
    Where(pcs, OwesTrip)
  }

  /** How often the shared state went from Closed or HalfOpen to Open. */
  function Openings(cfg: CB.Config, w: World, acts: seq<Action>): nat
    decreases |acts|
  {
    if acts == [] then 0 else
    var w' := Step(cfg, w, acts[0]);
    (if w.shared.state != CB.Open && w'.shared.state == CB.Open then 1 else 0) + Openings(cfg, w', acts[1..])
  }

  lemma CardWithout<T>(s: set<T>, t: T)
    ensures |s| == |s - {t}| + if t in s then 1 else 0
  {
    assert t in s ==> s == s - {t} + {t};
    assert t !in s ==> s == s - {t};
  }

  lemma WhereAfterMove(pcs: map<nat, Pc>, t: nat, pc: Pc, kind: Pc -> bool)
    ensures |Where(pcs[t := pc], kind)|
            == |Where(pcs, kind)| + (if kind(pc) then 1 else 0) - (if t in pcs && kind(pcs[t]) then 1 else 0)
  {
    CardWithout(Where(pcs, kind), t);
    CardWithout(Where(pcs[t := pc], kind), t);
    assert Where(pcs[t := pc], kind) - {t} == Where(pcs, kind) - {t};
  }

  /** How often a thread ran the `fetch_add` on total_trips. */
  function Counted(cfg: CB.Config, w: World, acts: seq<Action>): nat
    decreases |acts|
  {
    if acts == [] then 0 else
    (if PcOf(w, acts[0].thread).OpenTrips? then 1 else 0) + Counted(cfg, Step(cfg, w, acts[0]), acts[1..])
  }

  lemma StepOwing(cfg: CB.Config, w: World, a: Action)
    ensures var w' := Step(cfg, w, a);
            (if PcOf(w, a.thread).OpenTrips? then 1 else 0) + |Owing(w'.pcs)|
            == |Owing(w.pcs)| + if w.shared.state != CB.Open && w'.shared.state == CB.Open then 1 else 0
  {
    WhereAfterMove(w.pcs, a.thread, Access(cfg, w.shared, PcOf(w, a.thread), a).1, OwesTrip);
  }

  lemma StepTrips(cfg: CB.Config, w: World, a: Action)
    ensures Step(cfg, w, a).shared.trips
            == if PcOf(w, a.thread).OpenTrips? then Inc(w.shared.trips) else w.shared.trips
  {}

  /** Conservation: every opening is either counted or still owed by exactly one thread. */
  lemma {:induction false} OpeningsConserved(cfg: CB.Config, w: World, acts: seq<Action>)
    ensures Counted(cfg, w, acts) + |Owing(Run(cfg, w, acts).pcs)| == |Owing(w.pcs)| + Openings(cfg, w, acts)
    decreases |acts|
  {
    if acts != [] {
      StepOwing(cfg, w, acts[0]);
      OpeningsConserved(cfg, Step(cfg, w, acts[0]), acts[1..]);
    }
  }

  lemma {:induction false} TripsAreCounted(cfg: CB.Config, w: World, acts: seq<Action>)
    ensures Run(cfg, w, acts).shared.trips == Advance(w.shared.trips, Counted(cfg, w, acts))
    decreases |acts|
  {
    if acts != [] {
      var w1 := Step(cfg, w, acts[0]);
      StepTrips(cfg, w, acts[0]);
      TripsAreCounted(cfg, w1, acts[1..]);
    }
  }

  /** Trip ledger: under every interleaving of atomic accesses by any number of threads, total_trips plus the
      threads that swapped the circuit open and have not counted it yet is the number of openings, modulo 2^32. */
  lemma TripLedger(cfg: CB.Config, acts: seq<Action>)
    ensures var w := Run(cfg, START, acts);
            Wrap(w.shared.trips + |Owing(w.pcs)|) == Wrap(Openings(cfg, START, acts))
  {
    assert Owing(START.pcs) == {};
    OpeningsConserved(cfg, START, acts);
    TripsAreCounted(cfg, START, acts);
    AdvanceIsWrap(0, Counted(cfg, START, acts));
    WrapAdd(Counted(cfg, START, acts), |Owing(Run(cfg, START, acts).pcs)|);
  }

  /** So when all threads have returned, every opening was counted exactly once. */
  lemma TripsCountedOnce(cfg: CB.Config, acts: seq<Action>)
    requires forall t :: t in Run(cfg, START, acts).pcs ==> Run(cfg, START, acts).pcs[t] == Idle
    ensures Run(cfg, START, acts).shared.trips == Wrap(Openings(cfg, START, acts))
  {
    TripLedger(cfg, acts);
    assert Owing(Run(cfg, START, acts).pcs) == {};
  }

  // ---------------------------------------------------------------------------
  // A call that is not interrupted is the method-level call
  // ---------------------------------------------------------------------------

  function Admit(cfg: CB.Config, b: CB.Breaker): CB.Breaker {
    if b.state == CB.HalfOpen && b.probes < cfg.halfOpenMaxProbes then b.(probes := b.probes + 1) else b
  }

  /** What the rest of a call does to the shared memory when no other thread interferes. */
  function Remainder(cfg: CB.Config, b: CB.Breaker, pc: Pc, now: real): CB.Breaker {
    match pc
    case Idle => b
    case CheckLoad(c) => AfterCheck(cfg, CB.CheckTransition(cfg, b, now), c)
    case CheckStamp(c) => AfterCheck(cfg, CB.CheckTransition(cfg, b, now), c)
    case CheckElapsed(c, _) => AfterCheck(cfg, CB.CheckTransition(cfg, b, now), c)
    case LoadState(c) => AfterCheck(cfg, b, c)
    case LoadProbes => Admit(cfg, b)
    case CasProbes(_) => b.(probes := Inc(b.probes))
    case SuccessLoad => CB.RecordSuccess(cfg, b, now)
    case SuccessClear => b.(failures := 0)
    case SuccessSub => CB.RecordSuccess(cfg, b, now)
    case SuccessAdd => CB.RecordSuccess(cfg, b.(probes := Inc(b.probes)), now)
    case FailureLoad => CB.RecordFailure(cfg, b, now)
    case FailureAdd => CB.RecordFailure(cfg, b, now)
    case FailureSub => CB.RecordFailure(cfg, b, now)
    case SwapHalfOpen(c) => AfterCheck(cfg, CB.TransitionTo(b, CB.HalfOpen, now), c)
    case HalfSuccesses(c) => AfterCheck(cfg, b.(successes := 0, probes := 0), c)
    case HalfProbes(c) => AfterCheck(cfg, b.(probes := 0), c)
    case SwapClosed => CB.TransitionTo(b, CB.Closed, now)
    case ClosedFailures => b.(failures := 0, successes := 0, probes := 0, openedAt := None)
    case ClosedSuccesses => b.(successes := 0, probes := 0, openedAt := None)
    case ClosedProbes => b.(probes := 0, openedAt := None)
    case ClosedStamp => b.(openedAt := None)
    case SwapOpen => CB.TransitionTo(b, CB.Open, now)
    case OpenClock => b.(failures := 0, successes := 0, probes := 0, trips := Inc(b.trips), openedAt := Some(now))
    case OpenStamp(r) => b.(failures := 0, successes := 0, probes := 0, trips := Inc(b.trips), openedAt := Some(r))
    case OpenFailures => b.(failures := 0, successes := 0, probes := 0, trips := Inc(b.trips))
    case OpenSuccesses => b.(successes := 0, probes := 0, trips := Inc(b.trips))
    case OpenProbes => b.(probes := 0, trips := Inc(b.trips))
    case OpenTrips => b.(trips := Inc(b.trips))
  }

  function AfterCheck(cfg: CB.Config, b: CB.Breaker, c: Call): CB.Breaker {
    if c == AllowCall then Admit(cfg, b) else b
  }

  predicate Passes(cfg: CB.Config, b: CB.Breaker, c: Call) {
    c == AllowCall && (b.state == CB.Closed || (b.state == CB.HalfOpen && b.probes < cfg.halfOpenMaxProbes))
  }

  /** Whether the rest of a call lets a request through when no other thread interferes. */
  predicate RemainderLets(cfg: CB.Config, b: CB.Breaker, pc: Pc, now: real) {
    match pc
    case CheckLoad(c) => Passes(cfg, CB.CheckTransition(cfg, b, now), c)
    case CheckStamp(c) => Passes(cfg, CB.CheckTransition(cfg, b, now), c)
    case CheckElapsed(c, _) => Passes(cfg, CB.CheckTransition(cfg, b, now), c)
    case LoadState(c) => Passes(cfg, b, c)
    case LoadProbes => b.probes < cfg.halfOpenMaxProbes
    case CasProbes(_) => true
    case SwapHalfOpen(c) => Passes(cfg, CB.TransitionTo(b, CB.HalfOpen, now), c)
    case HalfSuccesses(c) => Passes(cfg, b.(probes := 0), c)
    case HalfProbes(c) => Passes(cfg, b.(probes := 0), c)
    case _ => false
  }

  /** What a thread has just read still holds. */
  ghost predicate Fresh(cfg: CB.Config, b: CB.Breaker, pc: Pc) {
    match pc
    case CheckStamp(_) => b.state == CB.Open
    case CheckElapsed(_, stamp) => b.state == CB.Open && b.openedAt == Some(stamp)
    case LoadProbes => b.state == CB.HalfOpen
    case CasProbes(current) => b.state == CB.HalfOpen && current == b.probes < cfg.halfOpenMaxProbes
    case SuccessClear => b.state == CB.Closed
    case SuccessSub => b.state == CB.HalfOpen
    case SuccessAdd => b.state == CB.HalfOpen
    case FailureAdd => b.state == CB.Closed
    case FailureSub => b.state == CB.HalfOpen
    case _ => true
  }

  /** Accesses left, at most. */
  function Rank(pc: Pc): nat {
    match pc
    case Idle => 0
    case CheckLoad(_) => 9 case CheckStamp(_) => 8 case CheckElapsed(_, _) => 7
    case SwapHalfOpen(_) => 6 case HalfSuccesses(_) => 5 case HalfProbes(_) => 4
    case LoadState(_) => 3 case LoadProbes => 2 case CasProbes(_) => 1
    case SuccessLoad => 8 case SuccessSub => 7 case SuccessAdd => 6 case SuccessClear => 1
    case SwapClosed => 5 case ClosedFailures => 4 case ClosedSuccesses => 3 case ClosedProbes => 2 case ClosedStamp => 1
    case FailureLoad => 9 case FailureAdd => 8 case FailureSub => 8
    case SwapOpen => 7 case OpenClock => 6 case OpenStamp(_) => 5
    case OpenFailures => 4 case OpenSuccesses => 3 case OpenProbes => 2 case OpenTrips => 1
  }

  lemma AccessKeepsRemainder(cfg: CB.Config, b: CB.Breaker, pc: Pc, a: Action)
    requires pc != Idle && Fresh(cfg, b, pc)
    ensures var (b', pc') := Access(cfg, b, pc, a);
            && Fresh(cfg, b', pc')
            && Remainder(cfg, b', pc', a.now) == Remainder(cfg, b, pc, a.now)
  {
  }

  /** A request is let through by at most one access, the one the rest of the call comes down to. */
  lemma AccessKeepsAnswer(cfg: CB.Config, b: CB.Breaker, pc: Pc, a: Action)
    requires pc != Idle && Fresh(cfg, b, pc)
    ensures var (b', pc') := Access(cfg, b, pc, a);
            && RemainderLets(cfg, b, pc, a.now) == (Lets(b, pc, a) || RemainderLets(cfg, b', pc', a.now))
            && !(Lets(b, pc, a) && RemainderLets(cfg, b', pc', a.now))
  {
  }

  lemma AccessLowersRank(cfg: CB.Config, b: CB.Breaker, pc: Pc, a: Action)
    requires pc != Idle && Fresh(cfg, b, pc)
    ensures Rank(Access(cfg, b, pc, a).1) < Rank(pc) + if a.spurious then 2 else 0
  {
  }

  /** Accesses of one call of one thread, of which any compare-exchange may fail spuriously. */
  predicate OneCall(acts: seq<Action>, a: Action) {
    forall i :: 0 <= i < |acts| ==> acts[i].(spurious := a.spurious) == a
  }

  /** The thread is busy until the last of the accesses, and then it has returned. */
  predicate Returns(cfg: CB.Config, w: World, acts: seq<Action>, t: nat)
    decreases |acts|
  {
    if acts == [] then PcOf(w, t) == Idle
    else PcOf(w, t) != Idle && Returns(cfg, Step(cfg, w, acts[0]), acts[1..], t)
  }

  lemma {:induction false} RestOfCall(cfg: CB.Config, w: World, a: Action, acts: seq<Action>)
    requires Fresh(cfg, w.shared, PcOf(w, a.thread)) && a.thread in w.pcs
    requires OneCall(acts, a) && Returns(cfg, w, acts, a.thread)
    ensures Run(cfg, w, acts) == World(Remainder(cfg, w.shared, PcOf(w, a.thread), a.now), w.pcs[a.thread := Idle])
    ensures Admissions(cfg, w, acts) == if RemainderLets(cfg, w.shared, PcOf(w, a.thread), a.now) then 1 else 0
    decreases |acts|
  {
    if acts == [] {
      assert w.pcs[a.thread := Idle] == w.pcs;
    } else {
      assert acts[0].thread == a.thread && acts[0].now == a.now;
      AccessKeepsRemainder(cfg, w.shared, PcOf(w, a.thread), acts[0]);
      AccessKeepsAnswer(cfg, w.shared, PcOf(w, a.thread), acts[0]);
      var w1 := Step(cfg, w, acts[0]);
      RestOfCall(cfg, w1, a, acts[1..]);
      assert w1.pcs[a.thread := Idle] == w.pcs[a.thread := Idle];
    }
  }

  function EventOf(a: Action): CB.Event {
    match a.call
    case AllowCall => CB.Allow(a.now)
    case StateCall => CB.Observe(a.now)
    case SuccessCall => CB.Success(a.now)
    case FailureCall => CB.Failure(a.now)
  }

  lemma EnteringIsStep(cfg: CB.Config, b: CB.Breaker, a: Action)
    ensures Remainder(cfg, b, Enter(a.call), a.now) == CB.Step(cfg, b, EventOf(a))
    ensures RemainderLets(cfg, b, Enter(a.call), a.now) == CB.Admits(cfg, b, EventOf(a))
  {}

  /** The two granularities agree on a call: from any memory, a call whose accesses no other thread interrupts leaves
      exactly what the method-level step leaves and gives its answer, however often its compare-exchange fails
      spuriously. */
  lemma UninterruptedCall(cfg: CB.Config, w: World, a: Action, acts: seq<Action>)
    requires PcOf(w, a.thread) == Idle && acts != [] && OneCall(acts, a)
    requires Returns(cfg, Step(cfg, w, acts[0]), acts[1..], a.thread)
    ensures Run(cfg, w, acts) == World(CB.Step(cfg, w.shared, EventOf(a)), w.pcs[a.thread := Idle])
    ensures Admissions(cfg, w, acts) == if CB.Admits(cfg, w.shared, EventOf(a)) then 1 else 0
  {
    assert acts[0].thread == a.thread && acts[0].call == a.call;
    var w1 := Step(cfg, w, acts[0]);
    assert w1 == World(w.shared, w.pcs[a.thread := Enter(a.call)]);
    EnteringIsStep(cfg, w.shared, a);
    RestOfCall(cfg, w1, a, acts[1..]);
    assert w1.pcs[a.thread := Idle] == w.pcs[a.thread := Idle];
  }

  function SpuriousIn(acts: seq<Action>): nat {
    if acts == [] then 0 else (if acts[0].spurious then 1 else 0) + SpuriousIn(acts[1..])
  }

  /** And it ends: as long as it is busy it has made at most twice as many accesses as there were spurious failures,
      plus those that any call needs. */
  lemma {:induction false} CallEnds(cfg: CB.Config, w: World, a: Action, acts: seq<Action>)
    requires Fresh(cfg, w.shared, PcOf(w, a.thread)) && a.thread in w.pcs && OneCall(acts, a)
    requires forall i :: 0 <= i < |acts| ==> PcOf(Run(cfg, w, acts[..i]), a.thread) != Idle
    ensures |acts| <= Rank(PcOf(w, a.thread)) + 2 * SpuriousIn(acts)
    decreases |acts|
  {
    if acts != [] {
      assert acts[0].thread == a.thread && Run(cfg, w, acts[..0]) == w;
      AccessKeepsRemainder(cfg, w.shared, PcOf(w, a.thread), acts[0]);
      AccessLowersRank(cfg, w.shared, PcOf(w, a.thread), acts[0]);
      var w1, rest := Step(cfg, w, acts[0]), acts[1..];
      forall i | 0 <= i < |rest| ensures PcOf(Run(cfg, w1, rest[..i]), a.thread) != Idle {
        assert acts[..i + 1][1..] == rest[..i] && acts[..i + 1][0] == acts[0];
        assert PcOf(Run(cfg, w, acts[..i + 1]), a.thread) != Idle;
      }
      CallEnds(cfg, w1, a, rest);
    }
  }

  lemma {:induction false} RunsToIdle(cfg: CB.Config, w: World, a: Action) returns (acts: seq<Action>)
    requires Fresh(cfg, w.shared, PcOf(w, a.thread)) && !a.spurious && a.thread in w.pcs
    ensures Only(acts, a) && Returns(cfg, w, acts, a.thread)
    decreases Rank(PcOf(w, a.thread))
  {
    if PcOf(w, a.thread) == Idle {
      acts := [];
    } else {
      AccessKeepsRemainder(cfg, w.shared, PcOf(w, a.thread), a);
      AccessLowersRank(cfg, w.shared, PcOf(w, a.thread), a);
      var rest := RunsToIdle(cfg, Step(cfg, w, a), a);
      acts := [a] + rest;
      assert acts[1..] == rest;
    }
  }

  predicate Only(acts: seq<Action>, a: Action) {
    forall i :: 0 <= i < |acts| ==> acts[i] == a
  }

  /** The accesses of a call without spurious failures. */
  lemma WholeCall(cfg: CB.Config, w: World, a: Action) returns (acts: seq<Action>)
    requires PcOf(w, a.thread) == Idle && !a.spurious
    ensures Only(acts, a)
    ensures Run(cfg, w, acts) == World(CB.Step(cfg, w.shared, EventOf(a)), w.pcs[a.thread := Idle])
    ensures Admissions(cfg, w, acts) == if CB.Admits(cfg, w.shared, EventOf(a)) then 1 else 0
  {
    var rest := RunsToIdle(cfg, Step(cfg, w, a), a);
    acts := [a] + rest;
    assert acts[1..] == rest;
    UninterruptedCall(cfg, w, a, acts);
  }

  function Events(calls: seq<Action>): seq<CB.Event> {
    seq(|calls|, i requires 0 <= i < |calls| => EventOf(calls[i]))
  }

  /** How many requests a run of whole calls lets through. */
  function Admitted(cfg: CB.Config, b: CB.Breaker, evs: seq<CB.Event>): nat
    decreases |evs|
  {
    if evs == [] then 0
    else (if CB.Admits(cfg, b, evs[0]) then 1 else 0) + Admitted(cfg, CB.Step(cfg, b, evs[0]), evs[1..])
  }

  ghost predicate AllIdle(w: World) {
    forall t :: t in w.pcs ==> w.pcs[t] == Idle
  }

  predicate InClockOrder(acts: seq<Action>) {
    forall i, j :: 0 <= i < j < |acts| ==> acts[i].now <= acts[j].now
  }

  /** Every reading of `acts` is that of one of `calls`. */
  ghost predicate ReadingsOf(acts: seq<Action>, calls: seq<Action>) {
    forall i :: 0 <= i < |acts| ==> exists c :: 0 <= c < |calls| && acts[i].now == calls[c].now
  }

  lemma ReadingsInOrder(first: seq<Action>, rest: seq<Action>, calls: seq<Action>)
    requires calls != [] && InClockOrder(calls) && Only(first, calls[0])
    requires InClockOrder(rest) && ReadingsOf(rest, calls[1..])
    ensures InClockOrder(first + rest) && ReadingsOf(first + rest, calls)
  {
    var acts := first + rest;
    forall i | 0 <= i < |acts| ensures exists c :: 0 <= c < |calls| && acts[i].now == calls[c].now {
      if i < |first| {
        assert acts[i] == calls[0];
      } else {
        var c :| 0 <= c < |calls[1..]| && rest[i - |first|].now == calls[1..][c].now;
        assert acts[i].now == calls[c + 1].now;
      }
    }
    forall i, j | 0 <= i < j < |acts| ensures acts[i].now <= acts[j].now {
      if i < |first| {
        assert acts[i] == calls[0];
        var c :| 0 <= c < |calls| && acts[j].now == calls[c].now;
      } else {
        assert acts[i] == rest[i - |first|] && acts[j] == rest[j - |first|];
      }
    }
  }

  /** The two granularities agree on runs: calls of any threads that do not overlap have exactly the effect and let
      through exactly as many requests as the method-level run. */
  lemma {:induction false} CallsInARow(cfg: CB.Config, w: World, calls: seq<Action>) returns (acts: seq<Action>)
    requires AllIdle(w) && forall i :: 0 <= i < |calls| ==> !calls[i].spurious
    ensures Run(cfg, w, acts).shared == CB.Run(cfg, w.shared, Events(calls)) && AllIdle(Run(cfg, w, acts))
    ensures Admissions(cfg, w, acts) == Admitted(cfg, w.shared, Events(calls))
    ensures InClockOrder(calls) ==> InClockOrder(acts) && ReadingsOf(acts, calls)
    decreases |calls|
  {
    if calls == [] {
      acts := [];
    } else {
      var first := WholeCall(cfg, w, calls[0]);
      var w1 := Run(cfg, w, first);
      var rest := CallsInARow(cfg, w1, calls[1..]);
      RunConcat(cfg, w, first, rest);
      assert Events(calls)[1..] == Events(calls[1..]);
      acts := first + rest;
      if InClockOrder(calls) {
        ReadingsInOrder(first, rest, calls);
      }
    }
  }

  // ---------------------------------------------------------------------------
  // One step, one atomic
  // ---------------------------------------------------------------------------

  datatype Cell = NoCell | StateCell | FailuresCell | SuccessesCell | ProbesCell | TripsCell | StampCell

  /** The shared variable the next access of a thread reads or writes. */
  function CellOf(pc: Pc): Cell {
    match pc
    case CheckLoad(_) | LoadState(_) | SuccessLoad | FailureLoad => StateCell
    case SwapHalfOpen(_) | SwapClosed | SwapOpen => StateCell
    case SuccessClear | FailureAdd | ClosedFailures | OpenFailures => FailuresCell
    case SuccessAdd | HalfSuccesses(_) | ClosedSuccesses | OpenSuccesses => SuccessesCell
    case LoadProbes | CasProbes(_) | SuccessSub | FailureSub => ProbesCell
    case HalfProbes(_) | ClosedProbes | OpenProbes => ProbesCell
    case OpenTrips => TripsCell
    case CheckStamp(_) | ClosedStamp | OpenStamp(_) => StampCell
    case Idle | CheckElapsed(_, _) | OpenClock => NoCell
  }

  predicate SameIn(c: Cell, b: CB.Breaker, d: CB.Breaker) {
    match c
    case NoCell => true
    case StateCell => b.state == d.state
    case FailuresCell => b.failures == d.failures
    case SuccessesCell => b.successes == d.successes
    case ProbesCell => b.probes == d.probes
    case TripsCell => b.trips == d.trips
    case StampCell => b.openedAt == d.openedAt
  }

  /** Every step is a single atomic access: what it writes and where the thread goes on depend on the one variable it
      accesses, whatever other threads did to the rest, and the rest stays as it is. */
  lemma AccessIsLocal(cfg: CB.Config, b: CB.Breaker, d: CB.Breaker, pc: Pc, a: Action, other: Cell)
    requires SameIn(CellOf(pc), b, d)
    ensures var (b', pcb) := Access(cfg, b, pc, a);
            var (d', pcd) := Access(cfg, d, pc, a);
            && pcb == pcd && SameIn(CellOf(pc), b', d')
            && (other != CellOf(pc) ==> SameIn(other, b', b))
  {}

  // ---------------------------------------------------------------------------
  // What an answer means under every interleaving
  // ---------------------------------------------------------------------------

  /** The thread is inside `allow_request`. */
  predicate Asking(pc: Pc) {
    match pc
    case CheckLoad(c) => c == AllowCall
    case CheckStamp(c) => c == AllowCall
    case CheckElapsed(c, _) => c == AllowCall
    case SwapHalfOpen(c) => c == AllowCall
    case HalfSuccesses(c) => c == AllowCall
    case HalfProbes(c) => c == AllowCall
    case LoadState(c) => c == AllowCall
    case LoadProbes => true
    case CasProbes(_) => true
    case _ => false
  }

  /** The access finds the circuit open, or all probes taken. */
  predicate Refuses(cfg: CB.Config, b: CB.Breaker, pc: Pc) {
    match pc
    case LoadState(c) => c == AllowCall && b.state == CB.Open
    case LoadProbes => cfg.halfOpenMaxProbes <= b.probes
    case _ => false
  }

  /** A request is answered by exactly these accesses, and asks on after any other; after a compare-exchange that
      failed it reads the counter anew. */
  lemma AskingAccess(cfg: CB.Config, b: CB.Breaker, pc: Pc, a: Action)
    requires Asking(pc)
    ensures var pc' := Access(cfg, b, pc, a).1;
            && (Lets(b, pc, a) || Refuses(cfg, b, pc) ==> pc' == Idle)
            && (!Lets(b, pc, a) && !Refuses(cfg, b, pc) ==> Asking(pc'))
            && !(Lets(b, pc, a) && Refuses(cfg, b, pc))
            && (pc.CasProbes? && !Lets(b, pc, a) ==> pc' == LoadProbes)
  {}

  /** Access n of the run answers the request of thread t. */
  ghost predicate AnsweredAt(cfg: CB.Config, w: World, acts: seq<Action>, t: nat, n: nat) {
    && n < |acts| && acts[n].thread == t
    && var v := Run(cfg, w, acts[..n]);
       AdmitsNow(v, acts[n]) || Refuses(cfg, v.shared, PcOf(v, t))
  }

  /** Under every interleaving a request that is no longer asking was answered: it was let through, or an access of
      its own found the circuit open or all probes taken at that moment. */
  lemma {:induction false} StopsAskingOnlyAnswered(cfg: CB.Config, w: World, acts: seq<Action>, t: nat)
    returns (n: nat)
    requires Asking(PcOf(w, t)) && !Asking(PcOf(Run(cfg, w, acts), t))
    ensures AnsweredAt(cfg, w, acts, t, n)
    decreases |acts|
  {
    var w1 := Step(cfg, w, acts[0]);
    AskingAccess(cfg, w.shared, PcOf(w, t), acts[0]);
    assert acts[..0] == [];
    if acts[0].thread == t && !Asking(PcOf(w1, t)) {
      n := 0;
    } else {
      var m := StopsAskingOnlyAnswered(cfg, w1, acts[1..], t);
      n := m + 1;
      assert acts[..n][1..] == acts[1..][..m] && acts[..n][0] == acts[0];
    }
  }
}
