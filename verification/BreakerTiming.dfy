/** How often oauth2-resilience/src/circuit_breaker.rs can trip, and what an open circuit keeps out. */
module BreakerTiming {
  import opened CircuitBreakers

  predicate Trips(cfg: Config, b: Breaker, ev: Event) {
    b.state != Open && Step(cfg, b, ev).state == Open
  }

  /** The instants at which the circuit goes from Closed or HalfOpen to Open. */
  function TripTimes(cfg: Config, b: Breaker, evs: seq<Event>): seq<real>
    decreases |evs|
  {
    if evs == [] then []
    else (if Trips(cfg, b, evs[0]) then [evs[0].at] else []) + TripTimes(cfg, Step(cfg, b, evs[0]), evs[1..])
  }

  /** The instants at which a request is let through. */
  function AdmitTimes(cfg: Config, b: Breaker, evs: seq<Event>): seq<real>
    decreases |evs|
  {
    if evs == [] then []
    else (if Admits(cfg, b, evs[0]) then [evs[0].at] else []) + AdmitTimes(cfg, Step(cfg, b, evs[0]), evs[1..])
  }

  /** An open circuit knows when it opened. */
  ghost predicate Stamped(b: Breaker, clock: real) {
    b.state == Open ==> b.openedAt.Some? && b.openedAt.value <= clock
  }

  /** Every instant in `ts` lies at or after `t`. */
  ghost predicate NotBefore(t: real, ts: seq<real>) {
    forall i :: 0 <= i < |ts| ==> t <= ts[i]
  }

  ghost predicate Spaced(d: real, ts: seq<real>) {
    forall i :: 0 <= i < |ts| - 1 ==> ts[i] + d <= ts[i + 1]
  }

  lemma {:induction false} AllNotBefore(cfg: Config, b: Breaker, clock: real, evs: seq<Event>)
    requires InOrder(clock, evs)
    ensures NotBefore(clock, TripTimes(cfg, b, evs)) && NotBefore(clock, AdmitTimes(cfg, b, evs))
    decreases |evs|
  {
    if evs != [] {
      AllNotBefore(cfg, Step(cfg, b, evs[0]), evs[0].at, evs[1..]);
    }
  }

  /** From an open circuit nothing is admitted, and it cannot trip again, before the open duration is over. */
  lemma {:induction false} OpenKeepsOut(cfg: Config, b: Breaker, clock: real, evs: seq<Event>)
    requires InOrder(clock, evs) && b.state == Open && Stamped(b, clock)
    ensures NotBefore(b.openedAt.value + cfg.openDuration, TripTimes(cfg, b, evs))
    ensures NotBefore(b.openedAt.value + cfg.openDuration, AdmitTimes(cfg, b, evs))
    decreases |evs|
  {
    if evs != [] {
      var c := Step(cfg, b, evs[0]);
      if c.state == Open {
        OpenKeepsOut(cfg, c, evs[0].at, evs[1..]);
      } else {
        AllNotBefore(cfg, c, evs[0].at, evs[1..]);
      }
    }
  }

  /** And no longer: a request to a circuit that opened at t is admitted exactly from t + open_duration on, if any
      probe is allowed at all. */
  lemma OpenAdmitsFromThere(cfg: Config, b: Breaker, t: real, at: real)
    requires b.state == Open && b.openedAt.Some? && b.openedAt.value == t <= at && 1 <= cfg.halfOpenMaxProbes
    ensures Admits(cfg, b, Allow(at)) <==> t + cfg.openDuration <= at
  {}

  lemma {:induction false} StaysStamped(cfg: Config, b: Breaker, clock: real, pre: seq<Event>, post: seq<Event>)
    requires InOrder(clock, pre + post) && Stamped(b, clock)
    ensures var t := if pre == [] then clock else pre[|pre| - 1].at;
            Stamped(Run(cfg, b, pre), t) && InOrder(t, post)
    decreases |pre|
  {
    if pre == [] {
      assert pre + post == post;
    } else {
      assert (pre + post)[1..] == pre[1..] + post;
      StaysStamped(cfg, Step(cfg, b, pre[0]), pre[0].at, pre[1..], post);
    }
  }

  /** No request is admitted within the open duration of a trip: whatever came before the trip and whatever is
      called after it, every later admission is at least that far away. */
  lemma NoAdmissionAfterTrip(cfg: Config, start: real, pre: seq<Event>, trip: Event, post: seq<Event>)
    requires InOrder(start, pre + ([trip] + post)) && Trips(cfg, Run(cfg, FRESH, pre), trip)
    ensures NotBefore(trip.at + cfg.openDuration, AdmitTimes(cfg, Run(cfg, FRESH, pre + [trip]), post))
    ensures NotBefore(trip.at + cfg.openDuration, TripTimes(cfg, Run(cfg, FRESH, pre + [trip]), post))
  {
    StaysStamped(cfg, FRESH, start, pre, [trip] + post);
    assert ([trip] + post)[1..] == post;
    RunSnoc(cfg, FRESH, pre, trip);
    OpenKeepsOut(cfg, Run(cfg, FRESH, pre + [trip]), trip.at, post);
  }

  lemma {:induction false} TripsSpaced(cfg: Config, b: Breaker, clock: real, evs: seq<Event>)
    requires InOrder(clock, evs) && Stamped(b, clock)
    ensures Spaced(cfg.openDuration, TripTimes(cfg, b, evs))
    decreases |evs|
  {
    if evs != [] {
      var c := Step(cfg, b, evs[0]);
      TripsSpaced(cfg, c, evs[0].at, evs[1..]);
      if Trips(cfg, b, evs[0]) {
        OpenKeepsOut(cfg, c, evs[0].at, evs[1..]);
      } else {
        assert TripTimes(cfg, b, evs) == TripTimes(cfg, c, evs[1..]);
      }
    }
  }

  /** How many of `ts` lie in the closed interval [from, to]. */
  function CountIn(ts: seq<real>, from: real, to: real): nat {
    if ts == [] then 0 else (if from <= ts[0] <= to then 1 else 0) + CountIn(ts[1..], from, to)
  }

  /** The time that n intervals of length d take. */
  function Span(n: nat, d: real): real {
    if n == 0 then 0.0 else d + Span(n - 1, d)
  }

  lemma {:induction false} SpacedCount(d: real, ts: seq<real>, from: real, to: real)
    requires Spaced(d, ts) && 0.0 < d && 0 < CountIn(ts, from, to)
    ensures Span(CountIn(ts, from, to) - 1, d) <= to - (if from <= ts[0] then ts[0] else from)
    decreases |ts|
  {
    var rest := ts[1..];
    forall i | 0 <= i < |rest| - 1 ensures rest[i] + d <= rest[i + 1] {
      assert ts[i + 1] + d <= ts[i + 1 + 1];
    }
    if 0 < CountIn(rest, from, to) {
      SpacedCount(d, rest, from, to);
      assert 0.0 <= Span(CountIn(rest, from, to) - 1, d) by {
        SpanIsProduct(CountIn(rest, from, to) - 1, d);
      }
    }
  }

  lemma {:induction false} SpanIsProduct(n: nat, d: real)
    ensures Span(n, d) == n as real * d
    ensures 0.0 <= d ==> 0.0 <= Span(n, d)
  {
    if n > 0 {
      SpanIsProduct(n - 1, d);
    }
  }

  /** Trip-rate bound: in every run, any interval of length L holds at most 1 + L / open_duration trips. */
  lemma TripRateBound(cfg: Config, start: real, evs: seq<Event>, from: real, length: real)
    requires InOrder(start, evs) && 0.0 < cfg.openDuration && 0.0 <= length
    ensures CountIn(TripTimes(cfg, FRESH, evs), from, from + length) as real <= 1.0 + length / cfg.openDuration
  {
    var ts, d := TripTimes(cfg, FRESH, evs), cfg.openDuration;
    var n := CountIn(ts, from, from + length);
    TripsSpaced(cfg, FRESH, start, evs);
    if n > 0 {
      SpacedCount(d, ts, from, from + length);
      SpanIsProduct(n - 1, d);
      QuotientBound((n - 1) as real, d, length);
    } else {
      QuotientBound(0.0, d, length);
    }
  }

  lemma QuotientBound(x: real, d: real, l: real)
    requires 0.0 < d && x * d <= l
    ensures x <= l / d
  {
    var q := l / d;
    assert q * d == l;
    assert 0.0 <= (q - x) * d;
  }
}
