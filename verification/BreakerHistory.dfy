/** What the counters of oauth2-resilience/src/circuit_breaker.rs mean: the breaker is compared with a reference
    that keeps no counter, only the log of calls since the last state change. */
module BreakerHistory {
  import opened Machine
  import opened CircuitBreakers

  /** A logged call and, for `allow_request`, whether it was admitted. */
  datatype Entry = Entry(ev: Event, admitted: bool)

  /** The current epoch: its state, the calls since it began (the call that opened a HalfOpen epoch by asking
      for admission is its first), how often the circuit tripped so far and when it last did. */
  datatype Epoch = Epoch(state: CircuitState, log: seq<Entry>, trips: nat, trippedAt: real)

  /** Failures since the last success. */
  function ConsecutiveFailures(log: seq<Entry>): nat {
    if log == [] then 0 else
    var last := log[|log| - 1].ev;
    if last.Success? then 0
    else (if last.Failure? then 1 else 0) + ConsecutiveFailures(log[..|log| - 1])
  }

  function Successes(log: seq<Entry>): nat {
    if log == [] then 0
    else (if log[|log| - 1].ev.Success? then 1 else 0) + Successes(log[..|log| - 1])
  }

  function Outcomes(log: seq<Entry>): nat {
    if log == [] then 0 else
    var last := log[|log| - 1].ev;
    (if last.Success? || last.Failure? then 1 else 0) + Outcomes(log[..|log| - 1])
  }

  function Admitted(log: seq<Entry>): nat {
    if log == [] then 0
    else (if log[|log| - 1].admitted then 1 else 0) + Admitted(log[..|log| - 1])
  }

  function Logged(h: Epoch, ev: Event, admitted: bool): Epoch {
    h.(log := h.log + [Entry(ev, admitted)])
  }

  function Tripped(h: Epoch, at: real): Epoch {
    Epoch(Open, [], h.trips + 1, at)
  }

  function ProbeFits(cfg: Config, log: seq<Entry>): bool {
    Wrap(Admitted(log) - Outcomes(log)) < cfg.halfOpenMaxProbes
  }

  /** The reference machine. */
  function Follow(cfg: Config, h: Epoch, ev: Event): Epoch {
    match h.state
    case Closed =>
      if ev.Failure? && cfg.failureThreshold <= ConsecutiveFailures(h.log) + 1 then Tripped(h, ev.at)
      else Logged(h, ev, ev.Allow?)
    case Open =>
      if (ev.Allow? || ev.Observe?) && cfg.openDuration <= Elapsed(h.trippedAt, ev.at)
      then h.(state := HalfOpen, log := [Entry(ev, ev.Allow? && ProbeFits(cfg, []))])
      else Logged(h, ev, false)
    case HalfOpen =>
      if ev.Failure? then Tripped(h, ev.at)
      else if ev.Success? && cfg.successThreshold <= Successes(h.log) + 1 then h.(state := Closed, log := [])
      else Logged(h, ev, ev.Allow? && ProbeFits(cfg, h.log))
  }

  function FollowAll(cfg: Config, h: Epoch, evs: seq<Event>): Epoch
    decreases |evs|
  {
    if evs == [] then h else FollowAll(cfg, Follow(cfg, h, evs[0]), evs[1..])
  }

  /** Whether the reference lets the call through. */
  function LetsThrough(cfg: Config, h: Epoch, ev: Event): bool {
    var log := Follow(cfg, h, ev).log;
    ev.Allow? && log != [] && log[|log| - 1].admitted
  }

  const BEGIN := Epoch(Closed, [], 0, 0.0)

  // ---------------------------------------------------------------------------
  // Counters refine history
  // ---------------------------------------------------------------------------

  /** The counters are exactly these functions of the epoch's log. */
  ghost predicate Refines(cfg: Config, b: Breaker, h: Epoch) {
    && b.state == h.state
    && b.trips == Wrap(h.trips)
    && b.failures == (if h.state == Closed then ConsecutiveFailures(h.log) else 0)
    && b.successes == (if h.state == HalfOpen then Successes(h.log) else 0)
    && b.probes == (if h.state == HalfOpen then Wrap(Admitted(h.log) - Outcomes(h.log)) else 0)
    && b.openedAt == (if h.state == Closed then None else Some(h.trippedAt))
    && (h.state == Closed ==> ConsecutiveFailures(h.log) < cfg.failureThreshold || ConsecutiveFailures(h.log) == 0)
    && (h.state == HalfOpen ==> Successes(h.log) < cfg.successThreshold || Successes(h.log) == 0)
    && (h.state == HalfOpen ==> forall i :: 0 <= i < |h.log| ==> !h.log[i].ev.Failure?)
  }

  lemma LogGrows(log: seq<Entry>, e: Entry)
    ensures ConsecutiveFailures(log + [e])
            == if e.ev.Success? then 0 else (if e.ev.Failure? then 1 else 0) + ConsecutiveFailures(log)
    ensures Successes(log + [e]) == (if e.ev.Success? then 1 else 0) + Successes(log)
    ensures Outcomes(log + [e]) == (if e.ev.Success? || e.ev.Failure? then 1 else 0) + Outcomes(log)
    ensures Admitted(log + [e]) == (if e.admitted then 1 else 0) + Admitted(log)
  {
    assert (log + [e])[..|log|] == log;
  }

  lemma ClosedRefines(cfg: Config, b: Breaker, h: Epoch, ev: Event)
    requires Refines(cfg, b, h) && h.state == Closed
    ensures Refines(cfg, Step(cfg, b, ev), Follow(cfg, h, ev))
    ensures Admits(cfg, b, ev) == LetsThrough(cfg, h, ev)
  {
    LogGrows(h.log, Entry(ev, ev.Allow?));
    IncIsWrap(h.trips);
  }

  /** The first entry of a HalfOpen epoch. */
  lemma FirstProbe(cfg: Config, e: Entry)
    requires e.ev.Allow? || e.ev.Observe?
    ensures ProbeFits(cfg, []) == (0 < cfg.halfOpenMaxProbes)
    ensures Successes([e]) == 0
    ensures Wrap(Admitted([e]) - Outcomes([e])) == if e.admitted then 1 else 0
  {
    assert [e] == [] + [e];
    LogGrows([], e);
  }

  lemma OpenRefines(cfg: Config, b: Breaker, h: Epoch, ev: Event)
    requires Refines(cfg, b, h) && h.state == Open
    ensures Refines(cfg, Step(cfg, b, ev), Follow(cfg, h, ev))
    ensures Admits(cfg, b, ev) == LetsThrough(cfg, h, ev)
  {
    var next, log := Step(cfg, b, ev), Follow(cfg, h, ev).log;
    if Follow(cfg, h, ev).state == HalfOpen {
      FirstProbe(cfg, log[0]);
      assert log == [log[0]];
      assert next.probes == if log[0].admitted then 1 else 0;
    } else {
      assert next == b;
    }
  }

  lemma ProbeRefines(cfg: Config, b: Breaker, h: Epoch, ev: Event)
    requires Refines(cfg, b, h) && h.state == HalfOpen && (ev.Allow? || ev.Observe?)
    ensures Refines(cfg, Step(cfg, b, ev), Follow(cfg, h, ev))
    ensures Admits(cfg, b, ev) == LetsThrough(cfg, h, ev)
  {
    var fits := ev.Allow? && ProbeFits(cfg, h.log);
    var diff := Admitted(h.log) - Outcomes(h.log);
    LogGrows(h.log, Entry(ev, fits));
    IncIsWrap(diff);
  }

  lemma SuccessRefines(cfg: Config, b: Breaker, h: Epoch, at: real)
    requires Refines(cfg, b, h) && h.state == HalfOpen
    ensures Refines(cfg, RecordSuccess(cfg, b, at), Follow(cfg, h, Success(at)))
  {
    LogGrows(h.log, Entry(Success(at), false));
    IncIsWrap(Admitted(h.log) - Outcomes(h.log));
  }

  lemma FailureRefines(cfg: Config, b: Breaker, h: Epoch, at: real)
    requires Refines(cfg, b, h) && h.state == HalfOpen
    ensures Refines(cfg, RecordFailure(cfg, b, at), Follow(cfg, h, Failure(at)))
  {
    IncIsWrap(h.trips);
  }

  lemma {:induction false} StepRefines(cfg: Config, b: Breaker, h: Epoch, ev: Event)
    requires Refines(cfg, b, h)
    ensures Refines(cfg, Step(cfg, b, ev), Follow(cfg, h, ev))
    ensures Admits(cfg, b, ev) == LetsThrough(cfg, h, ev)
  {
    match h.state
    case Closed => ClosedRefines(cfg, b, h, ev);
    case Open => OpenRefines(cfg, b, h, ev);
    case HalfOpen =>
      if ev.Success? {
        SuccessRefines(cfg, b, h, ev.at);
      } else if ev.Failure? {
        FailureRefines(cfg, b, h, ev.at);
      } else {
        ProbeRefines(cfg, b, h, ev);
      }
  }

  /** Counters refine history: after every run the state, all counters and every answer are the ones that the
      log of the current epoch dictates. */
  lemma {:induction false} CountersRefineHistory(cfg: Config, b: Breaker, h: Epoch, evs: seq<Event>)
    requires Refines(cfg, b, h)
    ensures Refines(cfg, Run(cfg, b, evs), FollowAll(cfg, h, evs))
    ensures forall ev :: Admits(cfg, Run(cfg, b, evs), ev) == LetsThrough(cfg, FollowAll(cfg, h, evs), ev)
    decreases |evs|
  {
    if evs == [] {
      forall ev ensures Admits(cfg, b, ev) == LetsThrough(cfg, h, ev) {
        StepRefines(cfg, b, h, ev);
      }
    } else {
      StepRefines(cfg, b, h, evs[0]);
      CountersRefineHistory(cfg, Step(cfg, b, evs[0]), Follow(cfg, h, evs[0]), evs[1..]);
    }
  }

  // ---------------------------------------------------------------------------
  // Thresholds are exact, in terms of observable states only
  // ---------------------------------------------------------------------------

  /** `epoch` is what was called since the circuit entered `state` at the end of `before`. */
  ghost predicate EpochOf(cfg: Config, before: seq<Event>, epoch: seq<Event>, state: CircuitState) {
    && (if before == [] then state == Closed
        else Run(cfg, FRESH, before[..|before| - 1]).state != state)
    && forall i :: 0 <= i <= |epoch| ==> Run(cfg, FRESH, before + epoch[..i]).state == state
  }

  function Plain(evs: seq<Event>): seq<Entry> {
    seq(|evs|, i requires 0 <= i < |evs| => Entry(evs[i], false))
  }

  lemma ReachesRefines(cfg: Config, evs: seq<Event>) returns (h: Epoch)
    ensures Refines(cfg, Run(cfg, FRESH, evs), h)
  {
    CountersRefineHistory(cfg, FRESH, BEGIN, evs);
    h := FollowAll(cfg, BEGIN, evs);
  }

  lemma EntryCounters(cfg: Config, before: seq<Event>, state: CircuitState)
    requires EpochOf(cfg, before, [], state)
    ensures var b := Run(cfg, FRESH, before);
            b.state == state && b.failures == 0 && b.successes == 0
  {
    assert before + [][..0] == before;
    if before != [] {
      var init, ev := before[..|before| - 1], before[|before| - 1];
      assert init + [ev] == before;
      RunSnoc(cfg, FRESH, init, ev);
      var h := ReachesRefines(cfg, init);
    }
  }

  /** The counters that matter in `state` are those functions of the calls of the epoch. */
  ghost predicate CountsEpoch(b: Breaker, epoch: seq<Event>, state: CircuitState) {
    && b.state == state
    && (state == Closed ==> b.failures == ConsecutiveFailures(Plain(epoch)))
    && (state == HalfOpen ==> b.successes == Successes(Plain(epoch)))
  }

  lemma EpochStep(cfg: Config, b: Breaker, h: Epoch, epoch: seq<Event>, ev: Event, state: CircuitState)
    requires Refines(cfg, b, h) && CountsEpoch(b, epoch, state) && state != Open
    requires Step(cfg, b, ev).state == state
    ensures CountsEpoch(Step(cfg, b, ev), epoch + [ev], state)
  {
    LogGrows(Plain(epoch), Entry(ev, false));
    assert Plain(epoch + [ev]) == Plain(epoch) + [Entry(ev, false)];
  }

  lemma {:induction false} EpochCounters(cfg: Config, before: seq<Event>, epoch: seq<Event>, state: CircuitState)
    requires EpochOf(cfg, before, epoch, state) && state != Open
    ensures CountsEpoch(Run(cfg, FRESH, before + epoch), epoch, state)
    decreases |epoch|
  {
    assert epoch[..|epoch|] == epoch;
    if epoch == [] {
      assert before + epoch == before && Plain(epoch) == [];
      EntryCounters(cfg, before, state);
    } else {
      var init, ev := epoch[..|epoch| - 1], epoch[|epoch| - 1];
      assert forall i :: 0 <= i <= |init| ==> init[..i] == epoch[..i];
      EpochCounters(cfg, before, init, state);
      assert before + epoch == (before + init) + [ev] && init + [ev] == epoch;
      RunSnoc(cfg, FRESH, before + init, ev);
      var h := ReachesRefines(cfg, before + init);
      EpochStep(cfg, Run(cfg, FRESH, before + init), h, init, ev, state);
    }
  }

  /** Closed opens exactly at the failure_threshold-th consecutive failure since the last success or since the
      circuit closed: never before, and never later. */
  lemma ClosedOpensAtThreshold(cfg: Config, before: seq<Event>, epoch: seq<Event>, ev: Event)
    requires EpochOf(cfg, before, epoch, Closed) && 1 <= cfg.failureThreshold
    ensures ConsecutiveFailures(Plain(epoch)) < cfg.failureThreshold
    ensures Run(cfg, FRESH, before + epoch + [ev]).state
            == if ev.Failure? && ConsecutiveFailures(Plain(epoch)) + 1 == cfg.failureThreshold then Open else Closed
  {
    EpochCounters(cfg, before, epoch, Closed);
    var h := ReachesRefines(cfg, before + epoch);
    RunSnoc(cfg, FRESH, before + epoch, ev);
  }

  /** HalfOpen closes exactly at the success_threshold-th success of the epoch, and any failure reopens it. */
  lemma HalfOpenClosesAtThreshold(cfg: Config, before: seq<Event>, epoch: seq<Event>, ev: Event)
    requires EpochOf(cfg, before, epoch, HalfOpen) && 1 <= cfg.successThreshold
    ensures Successes(Plain(epoch)) < cfg.successThreshold
    ensures Run(cfg, FRESH, before + epoch + [ev]).state
            == if ev.Failure? then Open
               else if ev.Success? && Successes(Plain(epoch)) + 1 == cfg.successThreshold then Closed
               else HalfOpen
  {
    EpochCounters(cfg, before, epoch, HalfOpen);
    var h := ReachesRefines(cfg, before + epoch);
    RunSnoc(cfg, FRESH, before + epoch, ev);
  }

  // ---------------------------------------------------------------------------
  // Probe ledger
  // ---------------------------------------------------------------------------

  /** No outcome was recorded that has no admitted probe of this epoch before it. */
  ghost predicate Matched(log: seq<Entry>) {
    forall i :: 0 <= i <= |log| ==> Outcomes(log[..i]) <= Admitted(log[..i])
  }

  ghost predicate ProbesBounded(cfg: Config, h: Epoch) {
    h.state == HalfOpen && Matched(h.log) ==> Admitted(h.log) - Outcomes(h.log) <= cfg.halfOpenMaxProbes
  }

  lemma MatchedPrefix(log: seq<Entry>, e: Entry)
    requires Matched(log + [e])
    ensures Matched(log) && 0 <= Admitted(log) - Outcomes(log)
  {
    assert forall i :: 0 <= i <= |log| ==> (log + [e])[..i] == log[..i];
    assert log[..|log|] == log;
  }

  /** A probe is logged as admitted only if it fits. */
  lemma LoggedProbeFits(cfg: Config, log: seq<Entry>, e: Entry)
    requires Matched(log + [e]) && Admitted(log) - Outcomes(log) <= cfg.halfOpenMaxProbes
    requires e.admitted ==> ProbeFits(cfg, log)
    ensures Admitted(log + [e]) - Outcomes(log + [e]) <= cfg.halfOpenMaxProbes
  {
    MatchedPrefix(log, e);
    LogGrows(log, e);
  }

  lemma StepBoundsProbes(cfg: Config, h: Epoch, ev: Event)
    requires ProbesBounded(cfg, h)
    ensures ProbesBounded(cfg, Follow(cfg, h, ev))
  {
    var h' := Follow(cfg, h, ev);
    if h'.state == HalfOpen && Matched(h'.log) {
      var base := if h.state == HalfOpen then h.log else [];
      var e := h'.log[|h'.log| - 1];
      assert h'.log == base + [e];
      MatchedPrefix(base, e);
      LoggedProbeFits(cfg, base, e);
    }
  }

  lemma {:induction false} RunBoundsProbes(cfg: Config, h: Epoch, evs: seq<Event>)
    requires ProbesBounded(cfg, h)
    ensures ProbesBounded(cfg, FollowAll(cfg, h, evs))
    decreases |evs|
  {
    if evs != [] {
      StepBoundsProbes(cfg, h, evs[0]);
      RunBoundsProbes(cfg, Follow(cfg, h, evs[0]), evs[1..]);
    }
  }

  /** Probe ledger: in every reachable HalfOpen state the probe counter is admissions minus outcomes of the epoch
      modulo 2^32; it is that number itself, and at most half_open_max_probes, when every outcome belongs to an
      earlier probe of the epoch; and a denied call changes nothing. */
  lemma ProbeLedger(cfg: Config, evs: seq<Event>, now: real)
    requires Run(cfg, FRESH, evs).state == HalfOpen
    ensures var b, log := Run(cfg, FRESH, evs), FollowAll(cfg, BEGIN, evs).log;
            && b.probes == Wrap(Admitted(log) - Outcomes(log))
            && (Matched(log) ==> b.probes == Admitted(log) - Outcomes(log) <= cfg.halfOpenMaxProbes)
            && (!AllowRequest(cfg, b, now).1 ==> AllowRequest(cfg, b, now).0 == b)
  {
    CountersRefineHistory(cfg, FRESH, BEGIN, evs);
    RunBoundsProbes(cfg, BEGIN, evs);
    var log := FollowAll(cfg, BEGIN, evs).log;
    if Matched(log) {
      assert log[..|log|] == log;
    }
  }

  /** As long as the outcomes are too few to wrap around to the limit, a log that went below zero stays there: no
      probe fits a counter that has wrapped. */
  ghost predicate BelowZero(cfg: Config, h: Epoch) {
    h.state == HalfOpen && Outcomes(h.log) + cfg.halfOpenMaxProbes < U32_SIZE && !Matched(h.log) ==>
      Admitted(h.log) < Outcomes(h.log)
  }

  lemma WrappedDoesNotFit(cfg: Config, log: seq<Entry>)
    requires Admitted(log) < Outcomes(log) && Outcomes(log) + cfg.halfOpenMaxProbes < U32_SIZE
    ensures Wrap(Admitted(log) - Outcomes(log)) == U32_SIZE + Admitted(log) - Outcomes(log) > cfg.halfOpenMaxProbes
  {}

  lemma UnmatchedEntry(log: seq<Entry>, e: Entry)
    requires Matched(log) && !Matched(log + [e])
    ensures Admitted(log + [e]) < Outcomes(log + [e])
  {
    assert forall i :: 0 <= i <= |log| ==> (log + [e])[..i] == log[..i];
    assert (log + [e])[..|log| + 1] == log + [e];
  }

  lemma StepStaysBelow(cfg: Config, h: Epoch, ev: Event)
    requires BelowZero(cfg, h)
    ensures BelowZero(cfg, Follow(cfg, h, ev))
  {
    var h' := Follow(cfg, h, ev);
    if h'.state == HalfOpen && Outcomes(h'.log) + cfg.halfOpenMaxProbes < U32_SIZE && !Matched(h'.log) {
      var base := if h.state == HalfOpen then h.log else [];
      var e := h'.log[|h'.log| - 1];
      assert h'.log == base + [e];
      LogGrows(base, e);
      if Matched(base) {
        UnmatchedEntry(base, e);
      } else {
        assert h.state == HalfOpen;
        WrappedDoesNotFit(cfg, base);
      }
    }
  }

  lemma {:induction false} RunStaysBelow(cfg: Config, h: Epoch, evs: seq<Event>)
    requires BelowZero(cfg, h)
    ensures BelowZero(cfg, FollowAll(cfg, h, evs))
    decreases |evs|
  {
    if evs != [] {
      StepStaysBelow(cfg, h, evs[0]);
      RunStaysBelow(cfg, Follow(cfg, h, evs[0]), evs[1..]);
    }
  }

  /** The clean bound is exact: the counter of a half-open circuit is within its limit if and only if every outcome of
      the epoch came after a probe of it that had no outcome yet. */
  lemma ProbesBoundedIffMatched(cfg: Config, evs: seq<Event>)
    requires Run(cfg, FRESH, evs).state == HalfOpen
    requires Outcomes(FollowAll(cfg, BEGIN, evs).log) + cfg.halfOpenMaxProbes < U32_SIZE
    ensures Run(cfg, FRESH, evs).probes <= cfg.halfOpenMaxProbes <==> Matched(FollowAll(cfg, BEGIN, evs).log)
  {
    ProbeLedger(cfg, evs, 0.0);
    CountersRefineHistory(cfg, FRESH, BEGIN, evs);
    RunStaysBelow(cfg, BEGIN, evs);
    var log := FollowAll(cfg, BEGIN, evs).log;
    if !Matched(log) {
      WrappedDoesNotFit(cfg, log);
    }
  }

  /** Only probing and looking, no outcome. */
  predicate OnlyPolls(evs: seq<Event>) {
    forall i :: 0 <= i < |evs| ==> evs[i].Allow? || evs[i].Observe?
  }

  /** Why `Matched` is needed: one success that belongs to no probe of the epoch takes the counter below zero,
      and the breaker then denies every request and stays HalfOpen for as long as no further outcome arrives. */
  lemma {:induction false} StragglerStarvesProbes(cfg: Config, b: Breaker, now: real, polls: seq<Event>, next: real)
    requires b.state == HalfOpen && b.probes == 0 && b.successes + 1 < cfg.successThreshold
    requires OnlyPolls(polls)
    ensures var c := RecordSuccess(cfg, b, now);
            && c.state == HalfOpen && c.probes == U32_SIZE - 1
            && Run(cfg, c, polls) == c
            && !AllowRequest(cfg, Run(cfg, c, polls), next).1
    decreases |polls|
  {
    if polls != [] {
      StragglerStarvesProbes(cfg, b, now, polls[1..], next);
    }
  }

  /** Such a straggler is an ordinary run: one request more than the threshold is admitted, the failures of the others
      trip the circuit, and its success arrives after the open duration, before any probe. */
  function StragglerRun(cfg: Config): seq<Event> {
    seq(cfg.failureThreshold + 1, _ => Allow(0.0)) + seq(cfg.failureThreshold, _ => Failure(0.0))
    + [Observe(cfg.openDuration)]
  }

  lemma StarvationIsReachable(cfg: Config, polls: seq<Event>, next: real)
    requires 1 <= cfg.failureThreshold && 2 <= cfg.successThreshold && 0.0 <= cfg.openDuration && OnlyPolls(polls)
    ensures var b := Run(cfg, FRESH, StragglerRun(cfg));
            var c := Run(cfg, Step(cfg, b, Success(cfg.openDuration)), polls);
            b.state == HalfOpen && c.state == HalfOpen && !AllowRequest(cfg, c, next).1
  {
    var asks, fails := seq(cfg.failureThreshold + 1, _ => Allow(0.0)), seq(cfg.failureThreshold, _ => Failure(0.0));
    RequestsKeepClosed(cfg, FRESH, cfg.failureThreshold + 1, 0.0);
    FailuresTrip(cfg, FRESH, cfg.failureThreshold, 0.0);
    RunConcat(cfg, FRESH, asks, fails);
    RunSnoc(cfg, FRESH, asks + fails, Observe(cfg.openDuration));
    var b := Run(cfg, FRESH, StragglerRun(cfg));
    assert b == Breaker(HalfOpen, 0, 0, 0, 1, Some(0.0));
    StragglerStarvesProbes(cfg, b, cfg.openDuration, polls, next);
  }
}
