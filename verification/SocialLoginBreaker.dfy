/** crates/oauth2-social-login/src/circuit_breaker.rs: the mutex-based breaker of the social-login providers, and
    its agreement with the atomic breaker configured for one probe and one success. */
module SocialLoginBreaker {
  import opened Machine
  import CB = CircuitBreakers

  datatype State = Closed | Open(since: real) | HalfOpen

  datatype Inner = Inner(state: State, consecutiveFailures: u32)

  datatype Config = Config(failureThreshold: u32, cooldown: real)

  const FRESH := Inner(Closed, 0)

  function AllowRequest(cfg: Config, m: Inner, now: real): (Inner, bool) {
    match m.state
    case Closed => (m, true)
    case Open(since) => if cfg.cooldown <= Elapsed(since, now) then (m.(state := HalfOpen), true) else (m, false)
    case HalfOpen => (m, false)
  }

  function OnSuccess(m: Inner): Inner {
    Inner(Closed, 0)
  }

  function OnFailure(cfg: Config, m: Inner, now: real): Inner {
    var n := Inc(m.consecutiveFailures);
    Inner(if cfg.failureThreshold <= n || m.state == HalfOpen then Open(now) else m.state, n)
  }

  class CircuitBreaker {
    const cfg: Config
    var inner: Inner

    constructor (failureThreshold: u32, cooldown: real)
      ensures inner == FRESH && cfg == Config(failureThreshold, cooldown)
    {
      cfg := Config(failureThreshold, cooldown);
      inner := FRESH;
    }

    method AllowNow(now: real) returns (allowed: bool)
      modifies this
      ensures (inner, allowed) == AllowRequest(cfg, old(inner), now)
    {
      match inner.state
      case Closed => allowed := true;
      case Open(since) =>
        if cfg.cooldown <= Elapsed(since, now) {
          inner := inner.(state := HalfOpen);
          allowed := true;
        } else {
          allowed := false;
        }
      case HalfOpen => allowed := false;
    }

    method SucceedNow()
      modifies this
      ensures inner == OnSuccess(old(inner))
    {
      inner := inner.(consecutiveFailures := 0);
      inner := inner.(state := Closed);
    }

    method FailNow(now: real)
      modifies this
      ensures inner == OnFailure(cfg, old(inner), now)
    {
      inner := inner.(consecutiveFailures := Inc(inner.consecutiveFailures));
      if cfg.failureThreshold <= inner.consecutiveFailures || inner.state == HalfOpen {
        inner := inner.(state := Open(now));
      }
    }
  }

  // ---------------------------------------------------------------------------
  // Runs of both breakers on the same calls
  // ---------------------------------------------------------------------------

  /** The mutex breaker has no `state()`; looking at it does nothing. */
  function Step(cfg: Config, m: Inner, ev: CB.Event): Inner {
    match ev
    case Allow(at) => AllowRequest(cfg, m, at).0
    case Success(_) => OnSuccess(m)
    case Failure(at) => OnFailure(cfg, m, at)
    case Observe(_) => m
  }

  function Run(cfg: Config, m: Inner, evs: seq<CB.Event>): Inner
    decreases |evs|
  {
    if evs == [] then m else Run(cfg, Step(cfg, m, evs[0]), evs[1..])
  }

  lemma {:induction false} RunConcat(cfg: Config, m: Inner, xs: seq<CB.Event>, ys: seq<CB.Event>)
    ensures Run(cfg, m, xs + ys) == Run(cfg, Run(cfg, m, xs), ys)
    decreases |xs|
  {
    if xs == [] {
      assert xs + ys == ys;
    } else {
      assert (xs + ys)[1..] == xs[1..] + ys;
      RunConcat(cfg, Step(cfg, m, xs[0]), xs[1..], ys);
    }
  }

  lemma RunSnoc(cfg: Config, m: Inner, evs: seq<CB.Event>, ev: CB.Event)
    ensures Run(cfg, m, evs + [ev]) == Step(cfg, Run(cfg, m, evs), ev)
  {
    RunConcat(cfg, m, evs, [ev]);
    assert [ev][1..] == [];
    assert Run(cfg, Run(cfg, m, evs), [ev]) == Run(cfg, Step(cfg, Run(cfg, m, evs), ev), []);
  }

  // ---------------------------------------------------------------------------
  // The state is a function of the history
  // ---------------------------------------------------------------------------

  /** Failures since the last success, in whatever state they were recorded. */
  function FailuresSinceSuccess(evs: seq<CB.Event>): nat {
    if evs == [] then 0 else
    var last := evs[|evs| - 1];
    if last.Success? then 0 else (if last.Failure? then 1 else 0) + FailuresSinceSuccess(evs[..|evs| - 1])
  }

  /** The state the history dictates, without any counter. */
  function StateAfter(cfg: Config, evs: seq<CB.Event>): State {
    if evs == [] then Closed else
    var before, last := StateAfter(cfg, evs[..|evs| - 1]), evs[|evs| - 1];
    match last
    case Success(_) => Closed
    case Failure(at) =>
      if before == HalfOpen || cfg.failureThreshold <= Wrap(FailuresSinceSuccess(evs)) then Open(at) else before
    case Allow(at) => if before.Open? && cfg.cooldown <= Elapsed(before.since, at) then HalfOpen else before
    case Observe(_) => before
  }

  /** Over every run the failure counter is the number of failures since the last success modulo 2^32, in every state,
      and the state is the one that history dictates. */
  lemma {:induction false} HistoryDictates(cfg: Config, evs: seq<CB.Event>)
    ensures Run(cfg, FRESH, evs) == Inner(StateAfter(cfg, evs), Wrap(FailuresSinceSuccess(evs)))
    decreases |evs|
  {
    if evs == [] {
      assert Wrap(0) == 0;
    } else {
      var init, last := evs[..|evs| - 1], evs[|evs| - 1];
      HistoryDictates(cfg, init);
      assert init + [last] == evs;
      RunSnoc(cfg, FRESH, init, last);
      IncIsWrap(FailuresSinceSuccess(init));
      assert Wrap(0) == 0;
    }
  }

  /** Event i is a failure that opens the circuit or, in an open one, restarts the cooldown. */
  ghost predicate OpensAt(cfg: Config, evs: seq<CB.Event>, i: nat) {
    && i < |evs| && evs[i].Failure?
    && (|| cfg.failureThreshold <= Wrap(FailuresSinceSuccess(evs[..i + 1]))
        || Run(cfg, FRESH, evs[..i]).state == HalfOpen)
  }

  /** A request is admitted exactly if the circuit is Closed, or Open for at least the cooldown; in the latter case no
      second one is. */
  lemma AdmitsIff(cfg: Config, m: Inner, at: real)
    requires m.state.Open? ==> m.state.since <= at
    ensures AllowRequest(cfg, m, at).1
            <==> m.state == Closed || (m.state.Open? && m.state.since + cfg.cooldown <= at)
    ensures AllowRequest(cfg, m, at).1 && m.state.Open? ==> !AllowRequest(cfg, AllowRequest(cfg, m, at).0, at).1
  {}

  lemma SuffixKeepsOpening(cfg: Config, evs: seq<CB.Event>, i: nat)
    requires i + 1 < |evs|
    ensures OpensAt(cfg, evs, i) <==> OpensAt(cfg, evs[..|evs| - 1], i)
  {
    assert evs[..|evs| - 1][..i + 1] == evs[..i + 1] && evs[..|evs| - 1][..i] == evs[..i];
  }

  /** An open circuit counts its cooldown from the last failure that met the threshold or ended a HalfOpen; since then
      there was no success, and no request late enough to begin a probe. */
  lemma {:induction false} OpenSinceLastOpening(cfg: Config, evs: seq<CB.Event>) returns (i: nat)
    requires Run(cfg, FRESH, evs).state.Open?
    ensures OpensAt(cfg, evs, i) && Run(cfg, FRESH, evs).state == Open(evs[i].at)
    ensures forall j :: i < j < |evs| ==>
              && !OpensAt(cfg, evs, j) && !evs[j].Success?
              && (evs[j].Allow? ==> Elapsed(evs[i].at, evs[j].at) < cfg.cooldown)
    decreases |evs|
  {
    var init, last := evs[..|evs| - 1], evs[|evs| - 1];
    assert init + [last] == evs && evs[..|evs|] == evs;
    RunSnoc(cfg, FRESH, init, last);
    HistoryDictates(cfg, evs);
    HistoryDictates(cfg, init);
    if OpensAt(cfg, evs, |evs| - 1) {
      i := |evs| - 1;
    } else {
      i := OpenSinceLastOpening(cfg, init);
      SuffixKeepsOpening(cfg, evs, i);
      forall j | i < j < |evs| - 1 ensures !OpensAt(cfg, evs, j) {
        SuffixKeepsOpening(cfg, evs, j);
      }
    }
  }

  function Answers(cfg: Config, m: Inner, evs: seq<CB.Event>): seq<bool>
    decreases |evs|
  {
    if evs == [] then []
    else (if evs[0].Allow? then [AllowRequest(cfg, m, evs[0].at).1] else [])
         + Answers(cfg, Step(cfg, m, evs[0]), evs[1..])
  }

  function AtomicAnswers(cfg: CB.Config, b: CB.Breaker, evs: seq<CB.Event>): seq<bool>
    decreases |evs|
  {
    if evs == [] then []
    else (if evs[0].Allow? then [CB.AllowRequest(cfg, b, evs[0].at).1] else [])
         + AtomicAnswers(cfg, CB.Step(cfg, b, evs[0]), evs[1..])
  }

  /** The atomic breaker that plays the same role: one probe, one success. */
  function Counterpart(cfg: Config): CB.Config {
    CB.Config(cfg.failureThreshold, 1, cfg.cooldown, 1)
  }

  /** The simulation relation. The failure counters agree only while both are Closed; an atomic breaker that was
      merely looked at may already be HalfOpen while the mutex breaker still waits to be asked. */
  ghost predicate Simulates(cfg: Config, b: CB.Breaker, m: Inner, clock: real) {
    match b.state
    case Closed => m.state == Closed && b.failures == m.consecutiveFailures
    case Open => b.openedAt.Some? && m.state == Open(b.openedAt.value) && b.openedAt.value <= clock
    case HalfOpen =>
      && b.successes == 0
      && b.probes <= 1
      && (if b.probes == 1 then m.state == HalfOpen
          else m.state.Open? && m.state.since <= clock && cfg.cooldown <= Elapsed(m.state.since, clock))
  }

  /** The outcomes that drive the breakers apart. While Open, a success closes only the mutex breaker, and a failure
      after the opening instant restarts only its cooldown. Before the first probe of a HalfOpen epoch, a failure
      reopens only the atomic breaker if the other's failure counter has wrapped around below the threshold. */
  predicate Splits(cfg: Config, b: CB.Breaker, m: Inner, ev: CB.Event) {
    var overThreshold := cfg.failureThreshold <= Inc(m.consecutiveFailures);
    match b.state
    case Closed => false
    case Open => ev.Success? || (ev.Failure? && overThreshold && b.openedAt != Some(ev.at))
    case HalfOpen => ev.Failure? && b.probes == 0 && !overThreshold
  }

  predicate NeverSplits(cfg: Config, b: CB.Breaker, m: Inner, evs: seq<CB.Event>)
    decreases |evs|
  {
    evs == [] ||
    (&& !Splits(cfg, b, m, evs[0])
     && NeverSplits(cfg, CB.Step(Counterpart(cfg), b, evs[0]), Step(cfg, m, evs[0]), evs[1..]))
  }

  lemma StepSimulates(cfg: Config, b: CB.Breaker, m: Inner, clock: real, ev: CB.Event)
    requires Simulates(cfg, b, m, clock) && clock <= ev.at && !Splits(cfg, b, m, ev)
    ensures Simulates(cfg, CB.Step(Counterpart(cfg), b, ev), Step(cfg, m, ev), ev.at)
    ensures ev.Allow? ==> CB.AllowRequest(Counterpart(cfg), b, ev.at).1 == AllowRequest(cfg, m, ev.at).1
  {}

  lemma {:induction false} RunsAgree(cfg: Config, b: CB.Breaker, m: Inner, clock: real, evs: seq<CB.Event>)
    requires Simulates(cfg, b, m, clock) && CB.InOrder(clock, evs) && NeverSplits(cfg, b, m, evs)
    ensures AtomicAnswers(Counterpart(cfg), b, evs) == Answers(cfg, m, evs)
    decreases |evs|
  {
    if evs != [] {
      var ev := evs[0];
      StepSimulates(cfg, b, m, clock, ev);
      RunsAgree(cfg, CB.Step(Counterpart(cfg), b, ev), Step(cfg, m, ev), ev.at, evs[1..]);
    }
  }

  // ---------------------------------------------------------------------------
  // Exactly which runs keep the breakers together
  // ---------------------------------------------------------------------------

  predicate OnlyRequests(evs: seq<CB.Event>) {
    forall i :: 0 <= i < |evs| ==> evs[i].Allow?
  }

  /** No sequence of requests from now on tells the two breakers apart. */
  ghost predicate Indistinguishable(cfg: Config, b: CB.Breaker, m: Inner, clock: real) {
    forall evs :: OnlyRequests(evs) && CB.InOrder(clock, evs) ==>
      AtomicAnswers(Counterpart(cfg), b, evs) == Answers(cfg, m, evs)
  }

  /** And so at every point of the run. */
  ghost predicate Together(cfg: Config, b: CB.Breaker, m: Inner, clock: real, evs: seq<CB.Event>)
    decreases |evs|
  {
    && Indistinguishable(cfg, b, m, clock)
    && (evs != [] ==> Together(cfg, CB.Step(Counterpart(cfg), b, evs[0]), Step(cfg, m, evs[0]), evs[0].at, evs[1..]))
  }

  lemma {:induction false} RequestsNeverSplit(cfg: Config, b: CB.Breaker, m: Inner, evs: seq<CB.Event>)
    requires OnlyRequests(evs)
    ensures NeverSplits(cfg, b, m, evs)
    decreases |evs|
  {
    if evs != [] {
      assert evs[0].Allow?;
      RequestsNeverSplit(cfg, CB.Step(Counterpart(cfg), b, evs[0]), Step(cfg, m, evs[0]), evs[1..]);
    }
  }

  lemma SimulatedIndistinguishable(cfg: Config, b: CB.Breaker, m: Inner, clock: real)
    requires Simulates(cfg, b, m, clock)
    ensures Indistinguishable(cfg, b, m, clock)
  {
    forall evs | OnlyRequests(evs) && CB.InOrder(clock, evs)
      ensures AtomicAnswers(Counterpart(cfg), b, evs) == Answers(cfg, m, evs)
    {
      RequestsNeverSplit(cfg, b, m, evs);
      RunsAgree(cfg, b, m, clock, evs);
    }
  }

  /** One request, asked now or later, keeps them indistinguishable and gets the same answer. */
  lemma AskOne(cfg: Config, b: CB.Breaker, m: Inner, clock: real, at: real)
    requires Indistinguishable(cfg, b, m, clock) && clock <= at
    ensures CB.AllowRequest(Counterpart(cfg), b, at).1 == AllowRequest(cfg, m, at).1
    ensures Indistinguishable(cfg, CB.AllowRequest(Counterpart(cfg), b, at).0, AllowRequest(cfg, m, at).0, at)
  {
    var ask := CB.Allow(at);
    var b', m' := CB.AllowRequest(Counterpart(cfg), b, at).0, AllowRequest(cfg, m, at).0;
    assert [ask][1..] == [] && OnlyRequests([ask]) && CB.InOrder(clock, [ask]);
    assert AtomicAnswers(Counterpart(cfg), b, [ask])[0] == Answers(cfg, m, [ask])[0];
    forall evs | OnlyRequests(evs) && CB.InOrder(at, evs)
      ensures AtomicAnswers(Counterpart(cfg), b', evs) == Answers(cfg, m', evs)
    {
      assert ([ask] + evs)[1..] == evs && OnlyRequests([ask] + evs);
      var all := AtomicAnswers(Counterpart(cfg), b, [ask] + evs);
      assert all == Answers(cfg, m, [ask] + evs);
      assert all[1..] == AtomicAnswers(Counterpart(cfg), b', evs) && all[1..] == Answers(cfg, m', evs);
    }
  }

  /** After a splitting outcome at most two requests tell them apart. */
  lemma SplitIsSeen(cfg: Config, b: CB.Breaker, m: Inner, clock: real, ev: CB.Event)
    requires Simulates(cfg, b, m, clock) && clock <= ev.at && Splits(cfg, b, m, ev) && 0.0 < cfg.cooldown
    ensures !Indistinguishable(cfg, CB.Step(Counterpart(cfg), b, ev), Step(cfg, m, ev), ev.at)
  {
    var b', m' := CB.Step(Counterpart(cfg), b, ev), Step(cfg, m, ev);
    if Indistinguishable(cfg, b', m', ev.at) {
      if ev.Success? {
        AskOne(cfg, b', m', ev.at, ev.at);
        AskOne(cfg, CB.AllowRequest(Counterpart(cfg), b', ev.at).0, AllowRequest(cfg, m', ev.at).0, ev.at, ev.at);
      } else if b.state == CB.Open {
        var due := b.openedAt.value + cfg.cooldown;
        AskOne(cfg, b', m', ev.at, if ev.at <= due then due else ev.at);
      } else {
        AskOne(cfg, b', m', ev.at, ev.at);
      }
    }
  }

  lemma {:induction false} TogetherIff(cfg: Config, b: CB.Breaker, m: Inner, clock: real, evs: seq<CB.Event>)
    requires Simulates(cfg, b, m, clock) && CB.InOrder(clock, evs) && 0.0 < cfg.cooldown
    ensures Together(cfg, b, m, clock, evs) <==> NeverSplits(cfg, b, m, evs)
    decreases |evs|
  {
    SimulatedIndistinguishable(cfg, b, m, clock);
    if evs != [] {
      if Splits(cfg, b, m, evs[0]) {
        SplitIsSeen(cfg, b, m, clock, evs[0]);
      } else {
        StepSimulates(cfg, b, m, clock, evs[0]);
        TogetherIff(cfg, CB.Step(Counterpart(cfg), b, evs[0]), Step(cfg, m, evs[0]), evs[0].at, evs[1..]);
      }
    }
  }

  /** The two breakers agree exactly on the runs without a splitting outcome: on these they give the same answers and
      no request ever tells them apart, and on any other run some request could. */
  lemma BreakersAgreeIff(cfg: Config, start: real, evs: seq<CB.Event>)
    requires CB.InOrder(start, evs)
    ensures NeverSplits(cfg, CB.FRESH, FRESH, evs) ==>
              AtomicAnswers(Counterpart(cfg), CB.FRESH, evs) == Answers(cfg, FRESH, evs)
    ensures 0.0 < cfg.cooldown ==>
              (Together(cfg, CB.FRESH, FRESH, start, evs) <==> NeverSplits(cfg, CB.FRESH, FRESH, evs))
  {
    if NeverSplits(cfg, CB.FRESH, FRESH, evs) {
      RunsAgree(cfg, CB.FRESH, FRESH, start, evs);
    }
    if 0.0 < cfg.cooldown {
      TogetherIff(cfg, CB.FRESH, FRESH, start, evs);
    }
  }

  // ---------------------------------------------------------------------------
  // Runs whose outcomes come in time
  // ---------------------------------------------------------------------------

  predicate IsOutcome(ev: CB.Event) {
    ev.Success? || ev.Failure?
  }

  /** Requests admitted in the current state epoch whose outcome is still to come. */
  function Pending(cfg: CB.Config, b: CB.Breaker, ev: CB.Event, pending: nat): nat
    requires IsOutcome(ev) ==> 0 < pending
  {
    var carried := if CB.Step(cfg, b, ev).state == b.state then pending else 0;
    if CB.Admits(cfg, b, ev) then carried + 1
    else if IsOutcome(ev) && 0 < carried then carried - 1
    else carried
  }

  /** Every outcome belongs to a request that was admitted in the state epoch in which it is recorded. */
  ghost predicate SameEpoch(cfg: CB.Config, b: CB.Breaker, pending: nat, evs: seq<CB.Event>)
    decreases |evs|
  {
    evs != [] ==>
      && (IsOutcome(evs[0]) ==> 0 < pending)
      && SameEpoch(cfg, CB.Step(cfg, b, evs[0]), Pending(cfg, b, evs[0], pending), evs[1..])
  }

  lemma {:induction false} InTimeNeverSplits(
    cfg: Config, b: CB.Breaker, m: Inner, pending: nat, clock: real, evs: seq<CB.Event>)
    requires Simulates(cfg, b, m, clock) && CB.InOrder(clock, evs)
    requires (b.state == CB.Open ==> pending == 0) && (b.state == CB.HalfOpen ==> pending == b.probes)
    requires SameEpoch(Counterpart(cfg), b, pending, evs)
    ensures NeverSplits(cfg, b, m, evs)
    decreases |evs|
  {
    if evs != [] {
      var ev := evs[0];
      StepSimulates(cfg, b, m, clock, ev);
      InTimeNeverSplits(cfg, CB.Step(Counterpart(cfg), b, ev), Step(cfg, m, ev),
                        Pending(Counterpart(cfg), b, ev, pending), ev.at, evs[1..]);
    }
  }

  /** The two breakers agree: on every run whose outcomes are recorded in the epoch that admitted their requests,
      the mutex breaker and its atomic counterpart give the same sequence of answers. */
  lemma BreakersAgree(cfg: Config, start: real, evs: seq<CB.Event>)
    requires CB.InOrder(start, evs) && SameEpoch(Counterpart(cfg), CB.FRESH, 0, evs)
    ensures AtomicAnswers(Counterpart(cfg), CB.FRESH, evs) == Answers(cfg, FRESH, evs)
  {
    InTimeNeverSplits(cfg, CB.FRESH, FRESH, 0, start, evs);
    RunsAgree(cfg, CB.FRESH, FRESH, start, evs);
  }

  lemma {:induction false} FailuresOpen(cfg: Config, m: Inner, n: nat, t: real)
    requires m.state == Closed && 1 <= n && m.consecutiveFailures + n == cfg.failureThreshold
    ensures Run(cfg, m, seq(n, _ => CB.Failure(t))) == Inner(Open(t), cfg.failureThreshold)
    decreases n
  {
    var evs := seq(n, _ => CB.Failure(t));
    assert evs[1..] == seq(n - 1, _ => CB.Failure(t));
    if n == 1 {
      assert Run(cfg, m, evs) == Step(cfg, m, CB.Failure(t));
    } else {
      FailuresOpen(cfg, Step(cfg, m, CB.Failure(t)), n - 1, t);
    }
  }

  lemma {:induction false} RequestsKeepClosed(cfg: Config, m: Inner, n: nat, t: real)
    requires m.state == Closed
    ensures Run(cfg, m, seq(n, _ => CB.Allow(t))) == m
    decreases n
  {
    if n > 0 {
      assert seq(n, _ => CB.Allow(t))[1..] == seq(n - 1, _ => CB.Allow(t));
      RequestsKeepClosed(cfg, m, n - 1, t);
    }
  }

  /** One request more than the threshold is admitted, and all the others fail. */
  function AllButOneFail(cfg: Config, t: real): seq<CB.Event> {
    seq(cfg.failureThreshold + 1, _ => CB.Allow(t)) + seq(cfg.failureThreshold, _ => CB.Failure(t))
  }

  /** A splitting outcome is an ordinary event: when all but one of the admitted requests failed and opened the
      circuit, the success of the last one closes the mutex breaker at once but is ignored by the atomic one. */
  lemma LateSuccessSplitsThem(cfg: Config, t: real)
    requires 1 <= cfg.failureThreshold && 0.0 < cfg.cooldown
    ensures var b := CB.Run(Counterpart(cfg), CB.FRESH, AllButOneFail(cfg, t));
            var m := Run(cfg, FRESH, AllButOneFail(cfg, t));
            && !CB.AllowRequest(Counterpart(cfg), CB.Step(Counterpart(cfg), b, CB.Success(t)), t).1
            && AllowRequest(cfg, Step(cfg, m, CB.Success(t)), t).1
  {
    var n: nat, c := cfg.failureThreshold, Counterpart(cfg);
    RequestsKeepClosed(cfg, FRESH, n + 1, t);
    FailuresOpen(cfg, FRESH, n, t);
    RunConcat(cfg, FRESH, seq(n + 1, _ => CB.Allow(t)), seq(n, _ => CB.Failure(t)));
    CB.RequestsKeepClosed(c, CB.FRESH, n + 1, t);
    CB.FailuresTrip(c, CB.FRESH, n, t);
    CB.RunConcat(c, CB.FRESH, seq(n + 1, _ => CB.Allow(t)), seq(n, _ => CB.Failure(t)));
  }
}
