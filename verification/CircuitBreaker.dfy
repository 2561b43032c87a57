/** oauth2-resilience/src/circuit_breaker.rs, one step per method call: the Closed/Open/HalfOpen machine with
    its failure, success, probe and trip counters. A call reads the clock once, as `now`. */
module CircuitBreakers {
  import opened Machine

  datatype CircuitState = Closed | Open | HalfOpen

  datatype Config = Config(failureThreshold: u32, successThreshold: u32, openDuration: real, halfOpenMaxProbes: u32)

  datatype Breaker = Breaker(
    state: CircuitState, failures: u32, successes: u32, probes: u32, trips: u32, openedAt: Option<real>)

  const FRESH := Breaker(Closed, 0, 0, 0, 0, None)

  function TransitionTo(b: Breaker, target: CircuitState, now: real): Breaker {
    if b.state == target then b else
    match target
    case Open => Breaker(Open, 0, 0, 0, Inc(b.trips), Some(now))
    case HalfOpen => b.(state := HalfOpen, successes := 0, probes := 0)
    case Closed => Breaker(Closed, 0, 0, 0, b.trips, None)
  }

  function CheckTransition(cfg: Config, b: Breaker, now: real): Breaker {
    if b.state == Open && b.openedAt.Some? && cfg.openDuration <= Elapsed(b.openedAt.value, now)
    then TransitionTo(b, HalfOpen, now)
    else b
  }

  function AllowRequest(cfg: Config, b: Breaker, now: real): (Breaker, bool) {
    var c := CheckTransition(cfg, b, now);
    match c.state
    case Closed => (c, true)
    case Open => (c, false)
    case HalfOpen => if c.probes < cfg.halfOpenMaxProbes then (c.(probes := c.probes + 1), true) else (c, false)
  }

  function RecordSuccess(cfg: Config, b: Breaker, now: real): Breaker {
    match b.state
    case Closed => b.(failures := 0)
    case HalfOpen =>
      var c := b.(probes := Dec(b.probes), successes := Inc(b.successes));
      if cfg.successThreshold <= c.successes then TransitionTo(c, Closed, now) else c
    case Open => b
  }

  function RecordFailure(cfg: Config, b: Breaker, now: real): Breaker {
    match b.state
    case Closed =>
      var c := b.(failures := Inc(b.failures));
      if cfg.failureThreshold <= c.failures then TransitionTo(c, Open, now) else c
    case HalfOpen => TransitionTo(b.(probes := Dec(b.probes)), Open, now)
    case Open => b
  }

  // ---------------------------------------------------------------------------
  // Runs
  // ---------------------------------------------------------------------------

  /** One call: `allow_request`, `record_success`, `record_failure` or `state`. */
  datatype Event = Allow(at: real) | Success(at: real) | Failure(at: real) | Observe(at: real)

  function Step(cfg: Config, b: Breaker, ev: Event): Breaker {
    match ev
    case Allow(at) => AllowRequest(cfg, b, at).0
    case Success(at) => RecordSuccess(cfg, b, at)
    case Failure(at) => RecordFailure(cfg, b, at)
    case Observe(at) => CheckTransition(cfg, b, at)
  }

  /** Whether the call is an `allow_request` that is let through. */
  predicate Admits(cfg: Config, b: Breaker, ev: Event) {
    ev.Allow? && AllowRequest(cfg, b, ev.at).1
  }

  function Run(cfg: Config, b: Breaker, evs: seq<Event>): Breaker
    decreases |evs|
  {
    if evs == [] then b else Run(cfg, Step(cfg, b, evs[0]), evs[1..])
  }

  predicate InOrder(clock: real, evs: seq<Event>)
    decreases |evs|
  {
    evs == [] || (clock <= evs[0].at && InOrder(evs[0].at, evs[1..]))
  }

  lemma {:induction false} RunConcat(cfg: Config, b: Breaker, xs: seq<Event>, ys: seq<Event>)
    ensures Run(cfg, b, xs + ys) == Run(cfg, Run(cfg, b, xs), ys)
    decreases |xs|
  {
    if xs == [] {
      assert xs + ys == ys;
    } else {
      assert (xs + ys)[1..] == xs[1..] + ys;
      RunConcat(cfg, Step(cfg, b, xs[0]), xs[1..], ys);
    }
  }

  lemma RunSnoc(cfg: Config, b: Breaker, xs: seq<Event>, ev: Event)
    ensures Run(cfg, b, xs + [ev]) == Step(cfg, Run(cfg, b, xs), ev)
  {
    RunConcat(cfg, b, xs, [ev]);
    assert [ev][1..] == [];
    assert Run(cfg, Run(cfg, b, xs), [ev]) == Run(cfg, Step(cfg, Run(cfg, b, xs), ev), []);
  }

  /** The failures that are missing to the threshold trip a closed circuit. */
  lemma {:induction false} FailuresTrip(cfg: Config, b: Breaker, n: nat, t: real)
    requires b.state == Closed && 1 <= n && b.failures + n == cfg.failureThreshold
    ensures Run(cfg, b, seq(n, _ => Failure(t))) == Breaker(Open, 0, 0, 0, Inc(b.trips), Some(t))
    decreases n
  {
    var evs := seq(n, _ => Failure(t));
    assert evs[1..] == seq(n - 1, _ => Failure(t));
    if n == 1 {
      assert Run(cfg, b, evs) == Step(cfg, b, Failure(t));
    } else {
      FailuresTrip(cfg, Step(cfg, b, Failure(t)), n - 1, t);
    }
  }

  lemma {:induction false} RequestsKeepClosed(cfg: Config, b: Breaker, n: nat, t: real)
    requires b.state == Closed
    ensures Run(cfg, b, seq(n, _ => Allow(t))) == b
    decreases n
  {
    if n > 0 {
      assert seq(n, _ => Allow(t))[1..] == seq(n - 1, _ => Allow(t));
      RequestsKeepClosed(cfg, b, n - 1, t);
    }
  }

  // ---------------------------------------------------------------------------
  // The shared mutable breaker, calls not overlapping
  // ---------------------------------------------------------------------------

  class CircuitBreaker {
    const cfg: Config
    var state: CircuitState
    var failureCount: u32
    var successCount: u32
    var probeCount: u32
    var totalTrips: u32
    var openedAt: Option<real>

    ghost function View(): Breaker
      reads this
    {
      Breaker(state, failureCount, successCount, probeCount, totalTrips, openedAt)
    }

    constructor (cfg: Config)
      ensures View() == FRESH && this.cfg == cfg
    {
      this.cfg := cfg;
      state := Closed;
      failureCount, successCount, probeCount, totalTrips := 0, 0, 0, 0;
      openedAt := None;
    }

    method Transition(target: CircuitState, now: real)
      modifies this
      ensures View() == TransitionTo(old(View()), target, now)
    {
      var before := state;
      state := target;
      if before == target {
        return;
      }
      match target
      case Open =>
        openedAt := Some(now);
        failureCount := 0;
        successCount := 0;
        probeCount := 0;
        totalTrips := Inc(totalTrips);
      case HalfOpen =>
        successCount := 0;
        probeCount := 0;
      case Closed =>
        failureCount := 0;
        successCount := 0;
        probeCount := 0;
        openedAt := None;
    }

    method CheckTimer(now: real)
      modifies this
      ensures View() == CheckTransition(cfg, old(View()), now)
    {
      if state != Open {
        return;
      }
      if openedAt.Some? && cfg.openDuration <= Elapsed(openedAt.value, now) {
        Transition(HalfOpen, now);
      }
    }

    method State(now: real) returns (s: CircuitState)
      modifies this
      ensures View() == CheckTransition(cfg, old(View()), now) && s == state
    {
      CheckTimer(now);
      s := state;
    }

    /** `spurious` is how often `compare_exchange_weak` fails without cause before it succeeds. */
    method AllowNow(now: real, spurious: nat) returns (allowed: bool)
      modifies this
      ensures (View(), allowed) == AllowRequest(cfg, old(View()), now)
    {
      CheckTimer(now);
      match state
      case Closed => allowed := true;
      case Open => allowed := false;
      case HalfOpen =>
        var failuresLeft := spurious;
        ghost var before := View();
        while true
          invariant View() == before
          decreases failuresLeft
        {
          var current := probeCount;
          if cfg.halfOpenMaxProbes <= current {
            return false;
          }
          if failuresLeft == 0 {
            probeCount := current + 1;
            return true;
          }
          failuresLeft := failuresLeft - 1;
        }
    }

    method SucceedNow(now: real)
      modifies this
      ensures View() == RecordSuccess(cfg, old(View()), now)
    {
      match state
      case Closed => failureCount := 0;
      case HalfOpen =>
        probeCount := Dec(probeCount);
        successCount := Inc(successCount);
        if cfg.successThreshold <= successCount {
          Transition(Closed, now);
        }
      case Open =>
    }

    method FailNow(now: real)
      modifies this
      ensures View() == RecordFailure(cfg, old(View()), now)
    {
      match state
      case Closed =>
        failureCount := Inc(failureCount);
        if cfg.failureThreshold <= failureCount {
          Transition(Open, now);
        }
      case HalfOpen =>
        probeCount := Dec(probeCount);
        Transition(Open, now);
      case Open =>
    }
  }
}
