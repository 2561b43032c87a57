/** oauth2-resilience/src/circuit_breaker.rs when calls overlap: exactly when an open circuit keeps requests out for
    the open duration, whatever any number of threads do. */
module BreakerOverlap {
  import opened Machine
  import CB = CircuitBreakers
  import opened BreakerAtomics

  // ---------------------------------------------------------------------------
  // Kinds of positions
  // ---------------------------------------------------------------------------

  /** About to swap the state away from Open. */
  predicate Leaves(pc: Pc) {
    pc.SwapHalfOpen? || pc.SwapClosed?
  }

  /** About to count a success. */
  predicate Succeeds(pc: Pc) {
    pc.SuccessSub? || pc.SuccessAdd?
  }

  /** Past the state check of `allow_request` and asking for a probe. */
  predicate Probes(pc: Pc) {
    pc.LoadProbes? || pc.CasProbes?
  }

  /** About to subtract one from `probe_count`. */
  predicate Subtracts(pc: Pc) {
    pc.SuccessSub? || pc.FailureSub?
  }

  /** Inside a transition that has yet to reset `probe_count`. */
  predicate Clears(pc: Pc) {
    || pc.HalfSuccesses? || pc.HalfProbes?
    || pc.ClosedFailures? || pc.ClosedSuccesses? || pc.ClosedProbes?
    || pc.OpenClock? || pc.OpenStamp? || pc.OpenFailures? || pc.OpenSuccesses? || pc.OpenProbes?
  }

  ghost predicate Nobody(w: World, kind: Pc -> bool) {
    forall t :: t in w.pcs ==> !kind(w.pcs[t])
  }

  function Number(w: World, kind: Pc -> bool): nat {
    |Where(w.pcs, kind)|
  }

  lemma NumberZero(w: World, kind: Pc -> bool)
    ensures Number(w, kind) == 0 <==> Nobody(w, kind)
  {
    if Nobody(w, kind) {
      assert Where(w.pcs, kind) == {};
    } else {
      var t :| t in w.pcs && kind(w.pcs[t]);
      assert t in Where(w.pcs, kind);
    }
  }

  /** A thread asks for a probe only with a count below the limit; true of every reachable world. */
  ghost predicate CasBelow(cfg: CB.Config, w: World) {
    forall t :: t in w.pcs && w.pcs[t].CasProbes? ==> w.pcs[t].current < cfg.halfOpenMaxProbes
  }

  lemma {:induction false} CasBelowAlways(cfg: CB.Config, w: World, acts: seq<Action>)
    requires CasBelow(cfg, w)
    ensures CasBelow(cfg, Run(cfg, w, acts))
    decreases |acts|
  {
    if acts != [] {
      CasBelowAlways(cfg, Step(cfg, w, acts[0]), acts[1..]);
    }
  }

  // ---------------------------------------------------------------------------
  // When an open circuit stays shut
  // ---------------------------------------------------------------------------

  /** The circuit is Open at every step, and no access lets a request through. */
  predicate Shut(cfg: CB.Config, w: World, acts: seq<Action>)
    decreases |acts|
  {
    && w.shared.state == CB.Open
    && (acts == [] || (!AdmitsNow(w, acts[0]) && Shut(cfg, Step(cfg, w, acts[0]), acts[1..])))
  }

  /** The clock readings never go back, and lie in [from, until). */
  predicate Timely(acts: seq<Action>, from: real, until: real)
    decreases |acts|
  {
    acts == [] || (from <= acts[0].now < until && Timely(acts[1..], acts[0].now, until))
  }

  /** Whatever any threads do with clock readings in [from, until), the circuit stays shut. */
  ghost predicate StaysShut(cfg: CB.Config, w: World, from: real, until: real) {
    forall acts :: Timely(acts, from, until) ==> Shut(cfg, w, acts)
  }

  /** On this stamp the timer has not run out before `until`. */
  predicate Lasts(cfg: CB.Config, stamp: real, until: real) {
    until <= stamp + cfg.openDuration
  }

  /** The thread holds no instant on which the timer runs out early: neither a copy of `opened_at` it is about to
      compare with the clock, nor a reading it is about to store there. */
  predicate HoldsNoOld(cfg: CB.Config, pc: Pc, until: real) {
    match pc
    case CheckElapsed(_, stamp) => Lasts(cfg, stamp, until)
    case OpenStamp(reading) => Lasts(cfg, reading, until)
    case _ => true
  }

  ghost predicate NoOldStamp(cfg: CB.Config, w: World, until: real) {
    && (w.shared.openedAt.Some? ==> Lasts(cfg, w.shared.openedAt.value, until))
    && forall t :: t in w.pcs ==> HoldsNoOld(cfg, w.pcs[t], until)
  }

  /** On no stamp, stored or held by a thread, does the timer run out before `until`; nobody is about to leave Open,
      nor can the successes on their way reach the threshold; and no request past the state check can find or get
      room for a probe. */
  ghost predicate Guarded(cfg: CB.Config, w: World, until: real) {
    && w.shared.state == CB.Open
    && NoOldStamp(cfg, w, until)
    && Nobody(w, Leaves)
    && (Nobody(w, Succeeds) || w.shared.successes + Number(w, Succeeds) < cfg.successThreshold)
    && NoRoom(cfg, w)
  }

  ghost predicate NoRoom(cfg: CB.Config, w: World) {
    || Nobody(w, Probes)
    || cfg.halfOpenMaxProbes == 0
    || (Nobody(w, Clears) && cfg.halfOpenMaxProbes + Number(w, Subtracts) <= w.shared.probes)
  }

  lemma NumberAfter(cfg: CB.Config, w: World, a: Action, kind: Pc -> bool)
    requires !kind(Idle)
    ensures Number(Step(cfg, w, a), kind)
            == Number(w, kind) + (if kind(Access(cfg, w.shared, PcOf(w, a.thread), a).1) then 1 else 0)
               - (if kind(PcOf(w, a.thread)) then 1 else 0)
  {
    WhereAfterMove(w.pcs, a.thread, Access(cfg, w.shared, PcOf(w, a.thread), a).1, kind);
  }

  /** In an open circuit no access brings a thread anew to counting a success. */
  lemma OpenSuccess(cfg: CB.Config, b: CB.Breaker, pc: Pc, a: Action)
    requires b.state == CB.Open
    ensures var (b', pc') := Access(cfg, b, pc, a);
            && (Succeeds(pc') ==> pc == SuccessSub)
            && (if pc == SuccessAdd then b'.successes == Inc(b.successes) else b'.successes <= b.successes)
  {}

  lemma SuccessesStayShort(cfg: CB.Config, w: World, a: Action, until: real)
    requires Guarded(cfg, w, until)
    ensures var w' := Step(cfg, w, a);
            Nobody(w', Succeeds) || w'.shared.successes + Number(w', Succeeds) < cfg.successThreshold
  {
    OpenSuccess(cfg, w.shared, PcOf(w, a.thread), a);
    NumberAfter(cfg, w, a, Succeeds);
    NumberZero(w, Succeeds);
    NumberZero(Step(cfg, w, a), Succeeds);
  }

  lemma NobodyGetsIn(cfg: CB.Config, w: World, a: Action, until: real)
    requires Guarded(cfg, w, until) && CasBelow(cfg, w)
    ensures !AdmitsNow(w, a)
  {}

  /** In an open circuit no access brings a thread anew to a probe, a reset or a subtraction. */
  lemma OpenAccess(cfg: CB.Config, b: CB.Breaker, pc: Pc, a: Action)
    requires b.state == CB.Open && !Leaves(pc) && !Lets(b, pc, a)
    ensures var (b', pc') := Access(cfg, b, pc, a);
            && (Probes(pc') ==> Probes(pc)) && (Clears(pc') ==> Clears(pc)) && !Subtracts(pc')
            && (!Clears(pc) ==> b'.probes == if Subtracts(pc) then Dec(b.probes) else b.probes)
  {}

  lemma RoomStaysAway(cfg: CB.Config, w: World, a: Action, until: real)
    requires Guarded(cfg, w, until) && !AdmitsNow(w, a)
    ensures NoRoom(cfg, Step(cfg, w, a))
  {
    var w', pc := Step(cfg, w, a), PcOf(w, a.thread);
    OpenAccess(cfg, w.shared, pc, a);
    if Nobody(w, Probes) {
      assert Nobody(w', Probes);
    } else if cfg.halfOpenMaxProbes != 0 {
      assert Nobody(w', Clears);
      NumberAfter(cfg, w, a, Subtracts);
    }
  }

  lemma StaysOpen(cfg: CB.Config, b: CB.Breaker, pc: Pc, a: Action, until: real)
    requires b.state == CB.Open && !Leaves(pc) && HoldsNoOld(cfg, pc, until) && a.now < until && 0.0 < cfg.openDuration
    requires pc == SuccessAdd ==> Inc(b.successes) < cfg.successThreshold
    ensures var (b', pc') := Access(cfg, b, pc, a);
            b'.state == CB.Open && !Leaves(pc')
  {}

  lemma NobodyLeaves(cfg: CB.Config, w: World, a: Action, until: real)
    requires Guarded(cfg, w, until) && a.now < until && 0.0 < cfg.openDuration
    ensures Nobody(Step(cfg, w, a), Leaves) && Step(cfg, w, a).shared.state == CB.Open
  {
    if PcOf(w, a.thread) == SuccessAdd {
      assert a.thread in Where(w.pcs, Succeeds);
      NumberZero(w, Succeeds);
    }
    StaysOpen(cfg, w.shared, PcOf(w, a.thread), a, until);
  }

  /** An access hands on only stamps that were there, or the reading it takes. */
  lemma StampsHandedOn(cfg: CB.Config, b: CB.Breaker, pc: Pc, a: Action, until: real)
    requires HoldsNoOld(cfg, pc, until) && Lasts(cfg, a.now, until)
    requires b.openedAt.Some? ==> Lasts(cfg, b.openedAt.value, until)
    ensures var (b', pc') := Access(cfg, b, pc, a);
            HoldsNoOld(cfg, pc', until) && (b'.openedAt.Some? ==> Lasts(cfg, b'.openedAt.value, until))
  {}

  /** A guarded circuit stays Open and admits nothing, whatever any number of threads do in a span no longer than the
      open duration. */
  lemma {:induction false} GuardedShut(cfg: CB.Config, w: World, from: real, until: real, acts: seq<Action>)
    requires 0.0 < cfg.openDuration && Lasts(cfg, from, until)
    requires Guarded(cfg, w, until) && CasBelow(cfg, w) && Timely(acts, from, until)
    ensures Shut(cfg, w, acts)
    decreases |acts|
  {
    if acts != [] {
      var a := acts[0];
      SuccessesStayShort(cfg, w, a, until);
      NobodyGetsIn(cfg, w, a, until);
      RoomStaysAway(cfg, w, a, until);
      NobodyLeaves(cfg, w, a, until);
      StampsHandedOn(cfg, w.shared, PcOf(w, a.thread), a, until);
      GuardedShut(cfg, Step(cfg, w, a), a.now, until, acts[1..]);
    }
  }

  // What breaks it

  lemma Onward(cfg: CB.Config, w: World, from: real, until: real, a: Action)
    requires StaysShut(cfg, w, from, until) && from <= a.now < until
    ensures w.shared.state == CB.Open && !AdmitsNow(w, a) && StaysShut(cfg, Step(cfg, w, a), a.now, until)
  {
    assert [a][1..] == [] && Timely([], a.now, until);
    assert Timely([a], from, until);
    assert Shut(cfg, w, [a]);
    forall acts | Timely(acts, a.now, until) ensures Shut(cfg, Step(cfg, w, a), acts) {
      assert ([a] + acts)[0] == a && ([a] + acts)[1..] == acts;
      assert Timely([a] + acts, from, until);
      assert Shut(cfg, w, [a] + acts);
    }
  }

  lemma StillOpen(cfg: CB.Config, w: World, from: real, until: real)
    requires StaysShut(cfg, w, from, until)
    ensures w.shared.state == CB.Open
  {
    assert Timely([], from, until) && Shut(cfg, w, []);
  }

  lemma {:induction false} Above(s: set<nat>) returns (m: nat)
    ensures forall x :: x in s ==> x < m
    decreases s
  {
    if s == {} {
      m := 0;
    } else {
      var x :| x in s;
      var n := Above(s - {x});
      m := if n <= x then x + 1 else n;
      assert forall y :: y in s ==> y == x || y in s - {x};
    }
  }

  lemma NewThread(w: World) returns (t: nat)
    ensures t !in w.pcs
  {
    t := Above(w.pcs.Keys);
  }

  lemma LeavingBreaks(cfg: CB.Config, w: World, from: real, until: real)
    requires from < until && !Nobody(w, Leaves)
    ensures !StaysShut(cfg, w, from, until)
  {
    if StaysShut(cfg, w, from, until) {
      var th :| th in w.pcs && Leaves(w.pcs[th]);
      var a := Action(th, StateCall, from, false);
      Onward(cfg, w, from, until, a);
      StillOpen(cfg, Step(cfg, w, a), from, until);
    }
  }

  /** A thread that holds an old copy of `opened_at` finds the timer run out. */
  lemma OldCopyBreaks(cfg: CB.Config, w: World, from: real, until: real, th: nat)
    requires 0.0 < cfg.openDuration && from < until
    requires th in w.pcs && w.pcs[th].CheckElapsed? && !Lasts(cfg, w.pcs[th].stamp, until)
    ensures !StaysShut(cfg, w, from, until)
  {
    if StaysShut(cfg, w, from, until) {
      var due := w.pcs[th].stamp + cfg.openDuration;
      var a := Action(th, StateCall, if from <= due then due else from, false);
      Onward(cfg, w, from, until, a);
      assert Leaves(Step(cfg, w, a).pcs[th]);
      LeavingBreaks(cfg, Step(cfg, w, a), a.now, until);
    }
  }

  /** From an old `opened_at` every new call makes such a copy. */
  lemma OldStampBreaks(cfg: CB.Config, w: World, from: real, until: real)
    requires 0.0 < cfg.openDuration && from < until
    requires w.shared.openedAt.Some? && !Lasts(cfg, w.shared.openedAt.value, until)
    ensures !StaysShut(cfg, w, from, until)
  {
    if StaysShut(cfg, w, from, until) {
      var stranger := NewThread(w);
      var a := Action(stranger, StateCall, from, false);
      Onward(cfg, w, from, until, a);
      var w1 := Step(cfg, w, a);
      Onward(cfg, w1, from, until, a);
      var w2 := Step(cfg, w1, a);
      Onward(cfg, w2, from, until, a);
      var w3 := Step(cfg, w2, a);
      assert PcOf(w2, stranger) == CheckStamp(StateCall);
      assert w3.pcs[stranger] == CheckElapsed(StateCall, w.shared.openedAt.value);
      OldCopyBreaks(cfg, w3, from, until, stranger);
    }
  }

  /** A thread that took its reading long ago stores an old `opened_at`. */
  lemma OldReadingBreaks(cfg: CB.Config, w: World, from: real, until: real, th: nat)
    requires 0.0 < cfg.openDuration && from < until
    requires th in w.pcs && w.pcs[th].OpenStamp? && !Lasts(cfg, w.pcs[th].reading, until)
    ensures !StaysShut(cfg, w, from, until)
  {
    if StaysShut(cfg, w, from, until) {
      var a := Action(th, StateCall, from, false);
      Onward(cfg, w, from, until, a);
      OldStampBreaks(cfg, Step(cfg, w, a), from, until);
    }
  }

  lemma AnyOldStampBreaks(cfg: CB.Config, w: World, from: real, until: real)
    requires 0.0 < cfg.openDuration && from < until && !NoOldStamp(cfg, w, until)
    ensures !StaysShut(cfg, w, from, until)
  {
    if w.shared.openedAt.Some? && !Lasts(cfg, w.shared.openedAt.value, until) {
      OldStampBreaks(cfg, w, from, until);
    } else {
      var th :| th in w.pcs && !HoldsNoOld(cfg, w.pcs[th], until);
      if w.pcs[th].CheckElapsed? {
        OldCopyBreaks(cfg, w, from, until, th);
      } else {
        OldReadingBreaks(cfg, w, from, until, th);
      }
    }
  }

  lemma SuccessCounted(cfg: CB.Config, w: World, from: real, until: real, th: nat)
    requires from < until && th in w.pcs && w.pcs[th] == SuccessAdd
    requires w.shared.successes + Number(w, Succeeds) < U32_SIZE && StaysShut(cfg, w, from, until)
    ensures var w' := Step(cfg, w, Action(th, StateCall, from, false));
            && StaysShut(cfg, w', from, until) && w'.shared.successes == w.shared.successes + 1 < cfg.successThreshold
            && Number(w', Succeeds) == Number(w, Succeeds) - 1
  {
    var a := Action(th, StateCall, from, false);
    var w' := Step(cfg, w, a);
    assert th in Where(w.pcs, Succeeds);
    Onward(cfg, w, from, until, a);
    NumberAfter(cfg, w, a, Succeeds);
    if cfg.successThreshold <= w.shared.successes + 1 {
      assert w'.pcs[th] == SwapClosed;
      LeavingBreaks(cfg, w', from, until);
    }
  }

  lemma {:induction false} SuccessesBreak(cfg: CB.Config, w: World, from: real, until: real)
    requires from < until && !Nobody(w, Succeeds)
    requires cfg.successThreshold <= w.shared.successes + Number(w, Succeeds) < U32_SIZE
    ensures !StaysShut(cfg, w, from, until)
    decreases Number(w, Succeeds)
  {
    if StaysShut(cfg, w, from, until) {
      var th :| th in w.pcs && Succeeds(w.pcs[th]);
      var a := Action(th, StateCall, from, false);
      var w1 := w;
      if w.pcs[th] == SuccessSub {
        w1 := Step(cfg, w, a);
        Onward(cfg, w, from, until, a);
        NumberAfter(cfg, w, a, Succeeds);
      }
      SuccessCounted(cfg, w1, from, until, th);
      var w2 := Step(cfg, w1, a);
      NumberZero(w2, Succeeds);
      SuccessesBreak(cfg, w2, from, until);
    }
  }

  lemma ProberGetsIn(cfg: CB.Config, w: World, from: real, until: real, p: nat)
    requires from < until && p in w.pcs && Probes(w.pcs[p]) && w.shared.probes < cfg.halfOpenMaxProbes
    ensures !StaysShut(cfg, w, from, until)
  {
    if StaysShut(cfg, w, from, until) {
      var a := Action(p, StateCall, from, false);
      var w1 := w;
      if w.pcs[p].CasProbes? {
        w1 := Step(cfg, w, a);
        Onward(cfg, w, from, until, a);
      }
      assert w1.pcs[p] == LoadProbes && w1.shared == w.shared;
      Onward(cfg, w1, from, until, a);
      Onward(cfg, Step(cfg, w1, a), from, until, a);
    }
  }

  lemma {:induction false} ClearingLetsIn(cfg: CB.Config, w: World, from: real, until: real, p: nat, r: nat)
    requires from < until && 0 < cfg.halfOpenMaxProbes
    requires p in w.pcs && Probes(w.pcs[p]) && r in w.pcs && Clears(w.pcs[r])
    ensures !StaysShut(cfg, w, from, until)
    decreases Rank(w.pcs[r])
  {
    if StaysShut(cfg, w, from, until) {
      var a := Action(r, StateCall, from, false);
      var w1 := Step(cfg, w, a);
      Onward(cfg, w, from, until, a);
      assert w1.pcs[p] == w.pcs[p];
      if Clears(w1.pcs[r]) {
        ClearingLetsIn(cfg, w1, from, until, p, r);
      } else {
        assert w1.shared.probes == 0;
        ProberGetsIn(cfg, w1, from, until, p);
      }
    }
  }

  lemma {:induction false} SubtractingLetsIn(cfg: CB.Config, w: World, from: real, until: real, p: nat)
    requires from < until && 0 < cfg.halfOpenMaxProbes && p in w.pcs && Probes(w.pcs[p])
    requires w.shared.probes < cfg.halfOpenMaxProbes + Number(w, Subtracts)
    ensures !StaysShut(cfg, w, from, until)
    decreases Number(w, Subtracts)
  {
    if w.shared.probes < cfg.halfOpenMaxProbes {
      ProberGetsIn(cfg, w, from, until, p);
    } else if StaysShut(cfg, w, from, until) {
      NumberZero(w, Subtracts);
      var th :| th in w.pcs && Subtracts(w.pcs[th]);
      var a := Action(th, StateCall, from, false);
      NumberAfter(cfg, w, a, Subtracts);
      Onward(cfg, w, from, until, a);
      SubtractingLetsIn(cfg, Step(cfg, w, a), from, until, p);
    }
  }

  lemma RoomBreaks(cfg: CB.Config, w: World, from: real, until: real)
    requires from < until && !NoRoom(cfg, w)
    ensures !StaysShut(cfg, w, from, until)
  {
    var p :| p in w.pcs && Probes(w.pcs[p]);
    if Nobody(w, Clears) {
      SubtractingLetsIn(cfg, w, from, until, p);
    } else {
      var r :| r in w.pcs && Clears(w.pcs[r]);
      ClearingLetsIn(cfg, w, from, until, p, r);
    }
  }

  /** Exactly when an open circuit keeps requests out: over any span [from, until) no longer than the open duration,
      under every interleaving of any threads, the circuit stays Open and lets nothing through if and only if it is
      guarded. The one premise is that fewer than 2^32 successes are counted or on their way. */
  lemma ShutIffGuarded(cfg: CB.Config, w: World, from: real, until: real)
    requires 0.0 < cfg.openDuration && from < until && Lasts(cfg, from, until) && CasBelow(cfg, w)
    requires w.shared.successes + Number(w, Succeeds) < U32_SIZE
    ensures StaysShut(cfg, w, from, until) <==> Guarded(cfg, w, until)
  {
    if Guarded(cfg, w, until) {
      forall acts | Timely(acts, from, until) ensures Shut(cfg, w, acts) {
        GuardedShut(cfg, w, from, until, acts);
      }
    } else if w.shared.state != CB.Open {
      assert Timely([], from, until) && !Shut(cfg, w, []);
    } else if !NoOldStamp(cfg, w, until) {
      AnyOldStampBreaks(cfg, w, from, until);
    } else if !Nobody(w, Leaves) {
      LeavingBreaks(cfg, w, from, until);
    } else if !NoRoom(cfg, w) {
      RoomBreaks(cfg, w, from, until);
    } else {
      SuccessesBreak(cfg, w, from, until);
    }
  }

  // ---------------------------------------------------------------------------
  // Old stamps are reached
  // ---------------------------------------------------------------------------

  /** Thread `a.thread` performs n accesses in a row. */
  function Repeat(cfg: CB.Config, w: World, a: Action, n: nat): World
    decreases n
  {
    if n == 0 then w else Repeat(cfg, Step(cfg, w, a), a, n - 1)
  }

  lemma {:induction false} RepeatIsRun(cfg: CB.Config, w: World, a: Action, n: nat)
    ensures Run(cfg, w, seq(n, _ => a)) == Repeat(cfg, w, a, n)
    decreases n
  {
    if n > 0 {
      assert seq(n, _ => a)[1..] == seq(n - 1, _ => a);
      RepeatIsRun(cfg, Step(cfg, w, a), a, n - 1);
    }
  }

  /** The run is in clock order and has not passed `now`. */
  predicate UpTo(acts: seq<Action>, now: real) {
    InClockOrder(acts) && forall i :: 0 <= i < |acts| ==> acts[i].now <= now
  }

  /** A run goes on with a whole call. */
  lemma ThenCall(cfg: CB.Config, acts: seq<Action>, a: Action) returns (more: seq<Action>)
    requires UpTo(acts, a.now) && PcOf(Run(cfg, START, acts), a.thread) == Idle && !a.spurious
    ensures UpTo(more, a.now)
    ensures var w := Run(cfg, START, acts);
            Run(cfg, START, more) == World(CB.Step(cfg, w.shared, EventOf(a)), w.pcs[a.thread := Idle])
  {
    var call := WholeCall(cfg, Run(cfg, START, acts), a);
    RunConcat(cfg, START, acts, call);
    more := acts + call;
  }

  /** A run goes on with n accesses of a call. */
  lemma ThenAccesses(cfg: CB.Config, acts: seq<Action>, a: Action, n: nat) returns (more: seq<Action>)
    requires UpTo(acts, a.now)
    ensures UpTo(more, a.now) && Run(cfg, START, more) == Repeat(cfg, Run(cfg, START, acts), a, n)
  {
    RepeatIsRun(cfg, Run(cfg, START, acts), a, n);
    RunConcat(cfg, START, acts, seq(n, _ => a));
    more := acts + seq(n, _ => a);
  }

  /** Three accesses of a new call copy `opened_at`. */
  lemma CopiesStamp(cfg: CB.Config, w: World, a: Action)
    requires PcOf(w, a.thread) == Idle && (a.call == AllowCall || a.call == StateCall)
    requires w.shared.state == CB.Open && w.shared.openedAt.Some?
    ensures Repeat(cfg, w, a, 3)
            == World(w.shared, w.pcs[a.thread := CheckElapsed(a.call, w.shared.openedAt.value)])
  {
    var w1 := Step(cfg, w, a);
    var w2 := Step(cfg, w1, a);
    assert PcOf(w1, a.thread) == CheckLoad(a.call) && PcOf(w2, a.thread) == CheckStamp(a.call);
    assert Repeat(cfg, w1, a, 2) == Step(cfg, w2, a);
    assert Step(cfg, w2, a).pcs == w.pcs[a.thread := CheckElapsed(a.call, w.shared.openedAt.value)];
  }

  /** Two more swap the circuit to HalfOpen, once the copied stamp lies the open duration back. */
  lemma TimerSwaps(cfg: CB.Config, w: World, a: Action, c: Call, stamp: real)
    requires PcOf(w, a.thread) == CheckElapsed(c, stamp) && w.shared.state == CB.Open
    requires cfg.openDuration <= Elapsed(stamp, a.now)
    ensures Repeat(cfg, w, a, 2) == World(w.shared.(state := CB.HalfOpen), w.pcs[a.thread := HalfSuccesses(c)])
  {
    var w1 := Step(cfg, w, a);
    assert PcOf(w1, a.thread) == SwapHalfOpen(c);
    assert Repeat(cfg, w1, a, 1) == Step(cfg, w1, a);
    assert Step(cfg, w1, a).pcs == w.pcs[a.thread := HalfSuccesses(c)];
  }

  /** Four more take the probe, up to the compare-exchange. */
  lemma TakesProbe(cfg: CB.Config, w: World, a: Action)
    requires PcOf(w, a.thread) == HalfSuccesses(AllowCall)
    requires w.shared.state == CB.HalfOpen && 1 <= cfg.halfOpenMaxProbes
    ensures var w' := Repeat(cfg, w, a, 4);
            w'.shared.probes == 0 && PcOf(w', a.thread) == CasProbes(0)
  {
    var w1 := Step(cfg, w, a);
    var w2 := Step(cfg, w1, a);
    var w3 := Step(cfg, w2, a);
    assert PcOf(w1, a.thread) == HalfProbes(AllowCall) && PcOf(w2, a.thread) == LoadState(AllowCall);
    assert PcOf(w3, a.thread) == LoadProbes && w3.shared.probes == 0;
    assert Repeat(cfg, w2, a, 2) == Step(cfg, w3, a);
  }

  /** A request with an old copy of the stamp is admitted after these six accesses. */
  lemma OldCopyAdmits(cfg: CB.Config, w: World, a: Action, stamp: real)
    requires PcOf(w, a.thread) == CheckElapsed(AllowCall, stamp) && w.shared.state == CB.Open && !a.spurious
    requires cfg.openDuration <= Elapsed(stamp, a.now) && 1 <= cfg.halfOpenMaxProbes
    ensures AdmitsNow(Run(cfg, w, seq(2, _ => a) + seq(4, _ => a)), a)
  {
    TimerSwaps(cfg, w, a, AllowCall, stamp);
    TakesProbe(cfg, Repeat(cfg, w, a, 2), a);
    RepeatIsRun(cfg, w, a, 2);
    RepeatIsRun(cfg, Repeat(cfg, w, a, 2), a, 4);
    RunConcat(cfg, w, seq(2, _ => a), seq(4, _ => a));
  }

  /** Thread 1 records failures up to the threshold at 0 and trips the circuit. */
  lemma Tripped(cfg: CB.Config) returns (acts: seq<Action>)
    requires 1 <= cfg.failureThreshold
    ensures var w := Run(cfg, START, acts);
            w.shared == CB.Breaker(CB.Open, 0, 0, 0, 1, Some(0.0)) && AllIdle(w)
    ensures UpTo(acts, 0.0)
  {
    var calls := seq(cfg.failureThreshold, _ => Action(1, FailureCall, 0.0, false));
    acts := CallsInARow(cfg, START, calls);
    CB.FailuresTrip(cfg, CB.FRESH, cfg.failureThreshold, 0.0);
    assert Events(calls) == seq(cfg.failureThreshold, _ => CB.Failure(0.0));
  }

  /** A thread about to swap the circuit open from HalfOpen, while `opened_at` still holds the previous trip. */
  lemma ReopeningThread(cfg: CB.Config) returns (acts: seq<Action>)
    requires 1 <= cfg.failureThreshold && 0.0 < cfg.openDuration
    ensures var w := Run(cfg, START, acts);
            && w.shared.state == CB.HalfOpen && w.shared.openedAt == Some(0.0)
            && PcOf(w, 1) == SwapOpen && PcOf(w, 2) == Idle
    ensures UpTo(acts, cfg.openDuration)
  {
    var d := cfg.openDuration;
    var trip := Tripped(cfg);
    var look := ThenCall(cfg, trip, Action(1, StateCall, d, false));
    var fail := Action(1, FailureCall, d, false);
    acts := ThenAccesses(cfg, look, fail, 3);
    FailsInHalfOpen(cfg, Run(cfg, START, look), fail);
  }

  lemma FailsInHalfOpen(cfg: CB.Config, w: World, fail: Action)
    requires w.shared.state == CB.HalfOpen && PcOf(w, fail.thread) == Idle && fail.call == FailureCall
    ensures Repeat(cfg, w, fail, 3)
            == World(w.shared.(probes := Dec(w.shared.probes)), w.pcs[fail.thread := SwapOpen])
  {
    var w1 := Step(cfg, w, fail);
    var w2 := Step(cfg, w1, fail);
    assert PcOf(w1, fail.thread) == FailureLoad && PcOf(w2, fail.thread) == FailureSub;
    assert Repeat(cfg, w1, fail, 2) == Step(cfg, w2, fail);
    assert Step(cfg, w2, fail).pcs == w.pcs[fail.thread := SwapOpen];
  }

  /** An old `opened_at` is reached: since the swap comes before the time stamp, another thread can leave Open on the
      old stamp and be admitted. All readings are in order, so everything from the swap to the admission happens at
      the very instant the circuit opened. */
  lemma OverlapAdmitsAtOnce(cfg: CB.Config)
    returns (pre: seq<Action>, swap: Action, mid: seq<Action>, admit: Action)
    requires 1 <= cfg.failureThreshold && 0.0 < cfg.openDuration && 1 <= cfg.halfOpenMaxProbes
    ensures Run(cfg, START, pre).shared.state != CB.Open
    ensures Step(cfg, Run(cfg, START, pre), swap).shared.state == CB.Open
    ensures AdmitsNow(Run(cfg, Step(cfg, Run(cfg, START, pre), swap), mid), admit)
    ensures InClockOrder(pre + [swap] + mid + [admit]) && swap.now == admit.now
  {
    pre := ReopeningThread(cfg);
    swap := Action(1, FailureCall, cfg.openDuration, false);
    admit := Action(2, AllowCall, cfg.openDuration, false);
    var w := Step(cfg, Run(cfg, START, pre), swap);
    CopiesStamp(cfg, w, admit);
    RepeatIsRun(cfg, w, admit, 3);
    OldCopyAdmits(cfg, Repeat(cfg, w, admit, 3), admit, 0.0);
    RunConcat(cfg, w, seq(3, _ => admit), seq(2, _ => admit) + seq(4, _ => admit));
    mid := seq(3, _ => admit) + (seq(2, _ => admit) + seq(4, _ => admit));
  }

  /** A tripped circuit is looked at when the open duration is over, and trips again. */
  lemma TripsAgain(cfg: CB.Config)
    requires 0.0 < cfg.openDuration
    ensures var d, b := cfg.openDuration, CB.Breaker(CB.Open, 0, 0, 0, 1, Some(0.0));
            CB.Step(cfg, CB.Step(cfg, b, CB.Observe(d)), CB.Failure(d)) == CB.Breaker(CB.Open, 0, 0, 0, 2, Some(d))
  {
    var b := CB.Breaker(CB.Open, 0, 0, 0, 1, Some(0.0));
    assert CB.Step(cfg, b, CB.Observe(cfg.openDuration)) == b.(state := CB.HalfOpen);
  }

  /** Thread 2 copies the stamp 0 and is delayed, while thread 1 looks and trips the circuit again. */
  lemma DelayedRequest(cfg: CB.Config) returns (acts: seq<Action>)
    requires 1 <= cfg.failureThreshold && 0.0 < cfg.openDuration
    ensures var w := Run(cfg, START, acts);
            && w.shared == CB.Breaker(CB.Open, 0, 0, 0, 2, Some(cfg.openDuration))
            && PcOf(w, 2) == CheckElapsed(AllowCall, 0.0)
            && forall t :: t in w.pcs && t != 2 ==> w.pcs[t] == Idle
    ensures UpTo(acts, cfg.openDuration)
  {
    var d := cfg.openDuration;
    var trip := Tripped(cfg);
    var ask := Action(2, AllowCall, 0.0, false);
    CopiesStamp(cfg, Run(cfg, START, trip), ask);
    var copied := ThenAccesses(cfg, trip, ask, 3);
    var look := ThenCall(cfg, copied, Action(1, StateCall, d, false));
    acts := ThenCall(cfg, look, Action(1, FailureCall, d, false));
    TripsAgain(cfg);
  }

  /** A held copy of an old stamp is reached: a request copies `opened_at` and is delayed. Meanwhile the circuit is
      looked at and trips again, and that trip is over and stamped. The request is then admitted at the instant of
      that trip. */
  lemma DelayedRequestAdmitsAtOnce(cfg: CB.Config) returns (pre: seq<Action>, mid: seq<Action>, admit: Action)
    requires 1 <= cfg.failureThreshold && 0.0 < cfg.openDuration && 1 <= cfg.halfOpenMaxProbes
    ensures var w := Run(cfg, START, pre);
            && w.shared == CB.Breaker(CB.Open, 0, 0, 0, 2, Some(admit.now))
            && (forall t :: t in w.pcs && t != admit.thread ==> w.pcs[t] == Idle)
            && AdmitsNow(Run(cfg, w, mid), admit)
    ensures InClockOrder(pre + mid + [admit])
  {
    pre := DelayedRequest(cfg);
    admit := Action(2, AllowCall, cfg.openDuration, false);
    mid := seq(2, _ => admit) + seq(4, _ => admit);
    OldCopyAdmits(cfg, Run(cfg, START, pre), admit, 0.0);
  }
}
