/** oauth2-resilience/src/circuit_breaker.rs when calls overlap: exactly when a half-open circuit keeps to its probe
    limit, whatever any number of threads do. */
module BreakerProbes {
  import opened Machine
  import CB = CircuitBreakers
  import opened BreakerAtomics
  import opened BreakerOverlap

  /** The circuit is HalfOpen at every step: the run lies within one epoch. */
  predicate StaysHalfOpen(cfg: CB.Config, w: World, acts: seq<Action>)
    decreases |acts|
  {
    w.shared.state == CB.HalfOpen && (acts == [] || StaysHalfOpen(cfg, Step(cfg, w, acts[0]), acts[1..]))
  }

  /** The clock readings never go back, and none lies before `from`. */
  predicate Onwards(acts: seq<Action>, from: real)
    decreases |acts|
  {
    acts == [] || (from <= acts[0].now && Onwards(acts[1..], acts[0].now))
  }

  /** A probe admitted, or one given back by a recorded outcome. */
  function Taken(w: World, a: Action): int {
    (if AdmitsNow(w, a) then 1 else 0) - (if Subtracts(PcOf(w, a.thread)) then 1 else 0)
  }

  /** Probes admitted minus probes given back. */
  function InFlight(cfg: CB.Config, w: World, acts: seq<Action>): int
    decreases |acts|
  {
    if acts == [] then 0 else Taken(w, acts[0]) + InFlight(cfg, Step(cfg, w, acts[0]), acts[1..])
  }

  /** However threads interleave, outcomes included, at most k more probes are in flight within the epoch. */
  ghost predicate AtMost(cfg: CB.Config, w: World, now: real, k: int) {
    forall acts :: Onwards(acts, now) && StaysHalfOpen(cfg, w, acts) ==> InFlight(cfg, w, acts) <= k
  }

  /** The limit is kept: never more probes in flight than the counter leaves room for. */
  ghost predicate LimitKept(cfg: CB.Config, w: World, now: real) {
    AtMost(cfg, w, now, cfg.halfOpenMaxProbes - w.shared.probes)
  }

  // ---------------------------------------------------------------------------
  // Without a reset on its way the limit is kept
  // ---------------------------------------------------------------------------

  /** Within an epoch the counter moves by what is taken, no reset begins, and a probe is admitted only below the
      limit. */
  lemma HalfOpenAccess(cfg: CB.Config, w: World, a: Action)
    requires w.shared.state == CB.HalfOpen && Nobody(w, Clears) && CasBelow(cfg, w)
    requires Step(cfg, w, a).shared.state == CB.HalfOpen
    ensures var w' := Step(cfg, w, a);
            && Nobody(w', Clears) && CasBelow(cfg, w')
            && (AdmitsNow(w, a) ==> w.shared.probes < cfg.halfOpenMaxProbes)
            && w'.shared.probes == (if Taken(w, a) == 1 then Inc(w.shared.probes)
                                    else if Taken(w, a) == -1 then Dec(w.shared.probes) else w.shared.probes)
  {
    assert !Clears(PcOf(w, a.thread));
  }

  /** n is the number of probes in flight, of which the counter is the remainder modulo 2^32. */
  lemma {:induction false} CounterBoundsFlight(cfg: CB.Config, w: World, acts: seq<Action>, n: int)
    requires Nobody(w, Clears) && CasBelow(cfg, w) && StaysHalfOpen(cfg, w, acts)
    requires w.shared.probes == Wrap(n) && n <= cfg.halfOpenMaxProbes
    ensures var flight := n + InFlight(cfg, w, acts);
            flight <= cfg.halfOpenMaxProbes && Run(cfg, w, acts).shared.probes == Wrap(flight)
    decreases |acts|
  {
    if acts != [] {
      HalfOpenAccess(cfg, w, acts[0]);
      IncIsWrap(n);
      FullDoesNotFit(cfg, n);
      CounterBoundsFlight(cfg, Step(cfg, w, acts[0]), acts[1..], n + Taken(w, acts[0]));
    }
  }

  lemma FullDoesNotFit(cfg: CB.Config, n: int)
    requires n <= cfg.halfOpenMaxProbes
    ensures Wrap(n) < cfg.halfOpenMaxProbes ==> n < cfg.halfOpenMaxProbes
  {}

  /** With a limit of zero nothing is ever admitted, resets or not. */
  lemma {:induction false} ZeroAdmitsNone(cfg: CB.Config, w: World, acts: seq<Action>)
    requires CasBelow(cfg, w) && StaysHalfOpen(cfg, w, acts) && cfg.halfOpenMaxProbes == 0
    ensures InFlight(cfg, w, acts) <= 0
    decreases |acts|
  {
    if acts != [] {
      assert Run(cfg, w, [acts[0]]) == Step(cfg, w, acts[0]);
      CasBelowAlways(cfg, w, [acts[0]]);
      ZeroAdmitsNone(cfg, Step(cfg, w, acts[0]), acts[1..]);
    }
  }

  // ---------------------------------------------------------------------------
  // With one it is not
  // ---------------------------------------------------------------------------

  lemma Further(cfg: CB.Config, w: World, now: real, k: int, a: Action)
    requires AtMost(cfg, w, now, k) && w.shared.state == CB.HalfOpen && now <= a.now
    requires Step(cfg, w, a).shared.state == CB.HalfOpen
    ensures AtMost(cfg, Step(cfg, w, a), a.now, k - Taken(w, a)) && 0 <= k
  {
    assert Onwards([], now) && StaysHalfOpen(cfg, w, []) && InFlight(cfg, w, []) == 0;
    forall acts | Onwards(acts, a.now) && StaysHalfOpen(cfg, Step(cfg, w, a), acts)
      ensures InFlight(cfg, Step(cfg, w, a), acts) <= k - Taken(w, a)
    {
      assert ([a] + acts)[0] == a && ([a] + acts)[1..] == acts;
      assert Onwards([a] + acts, now) && StaysHalfOpen(cfg, w, [a] + acts);
      assert InFlight(cfg, w, [a] + acts) <= k;
    }
  }

  /** A new request takes a free probe. */
  lemma RequestGetsProbe(cfg: CB.Config, w: World, now: real, k: int, t: nat) returns (w': World)
    requires AtMost(cfg, w, now, k) && w.shared.state == CB.HalfOpen && w.shared.probes < cfg.halfOpenMaxProbes
    requires t !in w.pcs
    ensures AtMost(cfg, w', now, k - 1) && w' == World(w.shared.(probes := w.shared.probes + 1), w.pcs[t := Idle])
  {
    var a := Action(t, AllowCall, now, false);
    Further(cfg, w, now, k, a);
    var w1 := Step(cfg, w, a);
    Further(cfg, w1, now, k, a);
    var w2 := Step(cfg, w1, a);
    Further(cfg, w2, now, k, a);
    var w3 := Step(cfg, w2, a);
    Further(cfg, w3, now, k, a);
    var w4 := Step(cfg, w3, a);
    assert PcOf(w3, t) == LoadProbes && PcOf(w4, t) == CasProbes(w.shared.probes);
    Further(cfg, w4, now, k, a);
    w' := Step(cfg, w4, a);
    assert w'.pcs == w.pcs[t := Idle];
  }

  /** New requests take all free probes; the other threads stay where they are. */
  lemma {:induction false} FillUp(cfg: CB.Config, w: World, now: real, k: int) returns (w': World, k': int)
    requires AtMost(cfg, w, now, k) && w.shared.state == CB.HalfOpen && w.shared.probes <= cfg.halfOpenMaxProbes
    ensures AtMost(cfg, w', now, k') && k' == k - (cfg.halfOpenMaxProbes - w.shared.probes)
    ensures w'.shared == w.shared.(probes := cfg.halfOpenMaxProbes)
    ensures forall t :: t in w.pcs ==> t in w'.pcs && w'.pcs[t] == w.pcs[t]
    decreases cfg.halfOpenMaxProbes - w.shared.probes
  {
    if w.shared.probes == cfg.halfOpenMaxProbes {
      w', k' := w, k;
    } else {
      var t := NewThread(w);
      var w1 := RequestGetsProbe(cfg, w, now, k, t);
      w', k' := FillUp(cfg, w1, now, k - 1);
    }
  }

  lemma {:induction false} ResetThenTake(cfg: CB.Config, w: World, now: real, k: int, r: nat)
    requires AtMost(cfg, w, now, k) && w.shared.state == CB.HalfOpen && 1 <= cfg.halfOpenMaxProbes
    requires r in w.pcs && Clears(w.pcs[r])
    ensures 1 <= k
    decreases Rank(w.pcs[r])
  {
    var a := Action(r, StateCall, now, false);
    Further(cfg, w, now, k, a);
    var w1 := Step(cfg, w, a);
    if Clears(w1.pcs[r]) {
      ResetThenTake(cfg, w1, now, k, r);
    } else {
      var t := NewThread(w1);
      var w2 := RequestGetsProbe(cfg, w1, now, k, t);
      assert Onwards([], now) && StaysHalfOpen(cfg, w2, []) && InFlight(cfg, w2, []) == 0;
    }
  }

  /** All free probes are taken, then the counter is reset, and one more is taken. */
  lemma ResetBreaks(cfg: CB.Config, w: World, now: real, k: int)
    requires AtMost(cfg, w, now, k) && w.shared.state == CB.HalfOpen && w.shared.probes <= cfg.halfOpenMaxProbes
    requires 1 <= cfg.halfOpenMaxProbes && !Nobody(w, Clears)
    ensures cfg.halfOpenMaxProbes - w.shared.probes < k
  {
    var r :| r in w.pcs && Clears(w.pcs[r]);
    var w1, k1 := FillUp(cfg, w, now, k);
    ResetThenTake(cfg, w1, now, k1, r);
  }

  /** Exactly when a half-open circuit keeps to its probe limit: within the epoch, under every interleaving of any
      threads and with any outcomes, the probes admitted minus those given back fit what the counter leaves, if and
      only if no reset of the counter is on its way (or no probe is allowed at all). The state is swapped before the
      counter is reset, so every transition to HalfOpen passes through such a world. */
  lemma LimitIffNoReset(cfg: CB.Config, w: World, now: real)
    requires w.shared.state == CB.HalfOpen && w.shared.probes <= cfg.halfOpenMaxProbes && CasBelow(cfg, w)
    ensures LimitKept(cfg, w, now) <==> cfg.halfOpenMaxProbes == 0 || Nobody(w, Clears)
  {
    var room := cfg.halfOpenMaxProbes - w.shared.probes;
    if cfg.halfOpenMaxProbes == 0 || Nobody(w, Clears) {
      forall acts | Onwards(acts, now) && StaysHalfOpen(cfg, w, acts) ensures InFlight(cfg, w, acts) <= room {
        if cfg.halfOpenMaxProbes == 0 {
          ZeroAdmitsNone(cfg, w, acts);
        } else {
          CounterBoundsFlight(cfg, w, acts, w.shared.probes);
        }
      }
    } else if LimitKept(cfg, w, now) {
      ResetBreaks(cfg, w, now, room);
    }
  }

  lemma {:induction false} OnwardsInOrder(acts: seq<Action>, from: real)
    requires Onwards(acts, from)
    ensures InClockOrder(acts) && forall i :: 0 <= i < |acts| ==> from <= acts[i].now
    decreases |acts|
  {
    if acts != [] {
      OnwardsInOrder(acts[1..], acts[0].now);
      assert forall i :: 1 <= i < |acts| ==> acts[i] == acts[1..][i - 1];
    }
  }

  /** Such a world is reached in an ordinary run: right after the swap to HalfOpen, before the counter is reset, more
      than half_open_max_probes probes get in flight. */
  lemma LateResetExceedsLimit(cfg: CB.Config) returns (pre: seq<Action>, acts: seq<Action>)
    requires 1 <= cfg.failureThreshold && 0.0 < cfg.openDuration && 1 <= cfg.halfOpenMaxProbes
    ensures var w := Run(cfg, START, pre);
            && w.shared.state == CB.HalfOpen && w.shared.probes == 0 && InClockOrder(pre + acts)
            && StaysHalfOpen(cfg, w, acts) && cfg.halfOpenMaxProbes < InFlight(cfg, w, acts)
  {
    var d := cfg.openDuration;
    var trip := Tripped(cfg);
    var look := Action(1, StateCall, d, false);
    CopiesStamp(cfg, Run(cfg, START, trip), look);
    var copied := ThenAccesses(cfg, trip, look, 3);
    TimerSwaps(cfg, Run(cfg, START, copied), look, StateCall, 0.0);
    pre := ThenAccesses(cfg, copied, look, 2);
    var w := Run(cfg, START, pre);
    assert Clears(w.pcs[1]);
    if AtMost(cfg, w, d, cfg.halfOpenMaxProbes) {
      ResetBreaks(cfg, w, d, cfg.halfOpenMaxProbes);
    }
    acts :| Onwards(acts, d) && StaysHalfOpen(cfg, w, acts) && cfg.halfOpenMaxProbes < InFlight(cfg, w, acts);
    OnwardsInOrder(acts, d);
  }
}
