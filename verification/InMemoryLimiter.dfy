/** oauth2-ratelimit/src/in_memory.rs: a map of token buckets, one per key, pruned by a background sweep.
    One `check` reads the clock once. */
module InMemoryLimiter {
  import opened Machine
  import opened TokenBuckets
  import opened RateLimit

  datatype Entry = Entry(bucket: Bucket, lastSeen: real)

  type Store = map<string, Entry>

  /** A bucket that was created by this limiter, at whatever level it is now. */
  ghost predicate Ours(cfg: Config, b: Bucket) {
    && Valid(b)
    && b.maxTokens == AtLeastOne(cfg.maxRequests)
    && b.refillRate == b.maxTokens as real / AtLeastOne(cfg.windowSecs) as real
  }

  ghost predicate StoreValid(cfg: Config, store: Store) {
    forall k :: k in store ==> Ours(cfg, store[k].bucket)
  }

  /** What `check` reports after the bucket answered. */
  function Report(cfg: Config, taken: Consumed, now: real): RateLimitResult
    requires Valid(taken.bucket)
  {
    RateLimitResult(taken.allowed, Remaining(taken), cfg.maxRequests, now + WindowSecs(taken.bucket) as real,
                    if taken.allowed then None else Some(SecondsUntilRefill(taken.bucket)))
  }

  function Check(cfg: Config, store: Store, key: string, now: real): (r: (Store, RateLimitResult))
    requires StoreValid(cfg, store)
    ensures StoreValid(cfg, r.0)
  {
    var bucket := if key in store then store[key].bucket else NewBucket(cfg.maxRequests, cfg.windowSecs, now);
    var taken := TryConsume(bucket, now);
    (store[key := Entry(taken.bucket, now)], Report(cfg, taken, now))
  }

  /** The sweep keeps an entry exactly while it was seen less than two windows ago. */
  function Sweep(cfg: Config, store: Store, now: real): (r: Store)
    requires StoreValid(cfg, store)
    ensures StoreValid(cfg, r)
  {
    map k | k in store && Elapsed(store[k].lastSeen, now) < (cfg.windowSecs * 2) as real :: store[k]
  }

  // ---------------------------------------------------------------------------
  // Runs
  // ---------------------------------------------------------------------------

  datatype Event = CheckKey(key: string, at: real) | Cleanup(at: real)

  predicate InOrder(clock: real, evs: seq<Event>)
    decreases |evs|
  {
    evs == [] || (clock <= evs[0].at && InOrder(evs[0].at, evs[1..]))
  }

  function Step(cfg: Config, store: Store, ev: Event): (r: Store)
    requires StoreValid(cfg, store)
    ensures StoreValid(cfg, r)
  {
    match ev
    case CheckKey(key, at) => Check(cfg, store, key, at).0
    case Cleanup(at) => Sweep(cfg, store, at)
  }

  /** The results a client of `key` sees over a whole run, among all other clients and sweeps. */
  function Observed(cfg: Config, store: Store, evs: seq<Event>, key: string): seq<RateLimitResult>
    requires StoreValid(cfg, store)
    decreases |evs|
  {
    if evs == [] then [] else
    var rest := Observed(cfg, Step(cfg, store, evs[0]), evs[1..], key);
    if evs[0].CheckKey? && evs[0].key == key then [Check(cfg, store, key, evs[0].at).1] + rest else rest
  }

  function TimesOf(evs: seq<Event>, key: string): seq<real> {
    if evs == [] then [] else
    var rest := TimesOf(evs[1..], key);
    if evs[0].CheckKey? && evs[0].key == key then [evs[0].at] + rest else rest
  }

  /** The lone bucket a call at `first` finds. */
  function Initial(cfg: Config, b: Option<Bucket>, first: real): (r: Bucket)
    requires b.Some? ==> Ours(cfg, b.value)
    ensures Ours(cfg, r)
  {
    if b.Some? then b.value else NewBucket(cfg.maxRequests, cfg.windowSecs, first)
  }

  /** The reference: one bucket, created at the first call, shared with nobody and never evicted. */
  function Alone(cfg: Config, b: Option<Bucket>, ts: seq<real>): seq<RateLimitResult>
    requires b.Some? ==> Ours(cfg, b.value)
    decreases |ts|
  {
    if ts == [] then [] else
    var taken := TryConsume(Initial(cfg, b, ts[0]), ts[0]);
    [Report(cfg, taken, ts[0])] + Alone(cfg, Some(taken.bucket), ts[1..])
  }

  // ---------------------------------------------------------------------------
  // Eviction is unobservable and keys are independent
  // ---------------------------------------------------------------------------

  /** The store and the lone bucket agree on `key` at time `clock`: either the store still has the lone
      bucket, or it dropped it when it had been idle for two windows. */
  ghost predicate Coupled(cfg: Config, store: Store, key: string, b: Option<Bucket>, clock: real) {
    if key in store then
      && b == Some(store[key].bucket)
      && store[key].lastSeen == store[key].bucket.lastRefill
    else
      b.Some? ==> Ours(cfg, b.value) && b.value.lastRefill + (cfg.windowSecs * 2) as real <= clock
  }

  /** Why re-creating an evicted bucket is invisible: the old one would be full by now. */
  lemma EvictedWouldBeFull(cfg: Config, b: Bucket, now: real)
    requires Ours(cfg, b) && 1 <= cfg.windowSecs
    requires b.lastRefill + (cfg.windowSecs * 2) as real <= now
    ensures TryConsume(b, now) == TryConsume(NewBucket(cfg.maxRequests, cfg.windowSecs, now), now)
  {
    FullAfterWindow(b, cfg.windowSecs, now);
    assert Refill(b, now) == NewBucket(cfg.maxRequests, cfg.windowSecs, now);
    ConsumeAfterRefill(b, now);
  }

  lemma {:induction false} CoupledRun(
    cfg: Config, store: Store, evs: seq<Event>, key: string, b: Option<Bucket>, clock: real)
    requires StoreValid(cfg, store) && 1 <= cfg.windowSecs && InOrder(clock, evs)
    requires Coupled(cfg, store, key, b, clock)
    ensures b.Some? ==> Ours(cfg, b.value)
    ensures Observed(cfg, store, evs, key) == Alone(cfg, b, TimesOf(evs, key))
    decreases |evs|
  {
    if evs != [] {
      var ev := evs[0];
      var next := Step(cfg, store, ev);
      if ev.CheckKey? && ev.key == key {
        if key !in store && b.Some? {
          EvictedWouldBeFull(cfg, b.value, ev.at);
        }
        CoupledRun(cfg, next, evs[1..], key, Some(next[key].bucket), ev.at);
      } else {
        CoupledRun(cfg, next, evs[1..], key, b, ev.at);
      }
    }
  }

  /** Over every interleaving of checks on any keys with sweeps, every result a key sees is the one a
      never-evicted bucket fed only that key's checks would give. */
  lemma {:induction false} EvictionUnobservable(cfg: Config, evs: seq<Event>, key: string, start: real)
    requires 1 <= cfg.windowSecs && InOrder(start, evs)
    ensures Observed(cfg, map[], evs, key) == Alone(cfg, None, TimesOf(evs, key))
  {
    CoupledRun(cfg, map[], evs, key, None, start);
  }

  ghost predicate Unobservable(cfg: Config) {
    forall evs: seq<Event>, key: string, start: real ::
      InOrder(start, evs) ==> Observed(cfg, map[], evs, key) == Alone(cfg, None, TimesOf(evs, key))
  }

  lemma SecondReportDiffers(cfg: Config, b: Bucket, now: real)
    requires Valid(b) && b.tokens == b.maxTokens as real && b.lastRefill == now
    ensures var first := TryConsume(b, now);
            Report(cfg, first, now) != Report(cfg, TryConsume(first.bucket, now), now)
  {
    var first := TryConsume(b, now);
    var second := TryConsume(first.bucket, now);
    assert second.allowed ==> second.bucket.tokens == first.bucket.tokens - 1.0;
    assert second.allowed ==> Remaining(second) < Remaining(first);
  }

  /** A check, a sweep, and the check again, all at one instant. */
  function CheckSweepCheck(key: string): seq<Event> {
    [CheckKey(key, 0.0)] + ([Cleanup(0.0)] + [CheckKey(key, 0.0)])
  }

  lemma ObservedOnce(cfg: Config, key: string)
    ensures Observed(cfg, map[], [CheckKey(key, 0.0)], key) == [Check(cfg, map[], key, 0.0).1]
  {
    assert [CheckKey(key, 0.0)][1..] == [];
  }

  lemma SweptAway(cfg: Config, key: string)
    requires cfg.windowSecs == 0
    ensures Observed(cfg, map[], CheckSweepCheck(key), key)
            == [Check(cfg, map[], key, 0.0).1, Check(cfg, map[], key, 0.0).1]
  {
    var evs := CheckSweepCheck(key);
    var tail := [Cleanup(0.0)] + [CheckKey(key, 0.0)];
    assert evs[1..] == tail && tail[1..] == [CheckKey(key, 0.0)];
    var store := Step(cfg, map[], evs[0]);
    assert Step(cfg, store, tail[0]) == map[];
    ObservedOnce(cfg, key);
    assert Observed(cfg, store, tail, key) == [Check(cfg, map[], key, 0.0).1];
  }

  lemma TimesOfCheckSweepCheck(key: string)
    ensures TimesOf(CheckSweepCheck(key), key) == [0.0, 0.0]
    ensures InOrder(0.0, CheckSweepCheck(key))
  {
    var evs := CheckSweepCheck(key);
    assert evs[1..] == [Cleanup(0.0), CheckKey(key, 0.0)];
    assert evs[1..][1..] == [CheckKey(key, 0.0)] && evs[1..][1..][1..] == [];
    assert TimesOf(evs[1..][1..], key) == [0.0] && TimesOf(evs[1..], key) == [0.0];
    assert InOrder(0.0, evs[1..][1..]) && InOrder(0.0, evs[1..]);
  }

  /** With a zero window the sweep drops every entry at once, while the bucket takes a second to refill. */
  lemma ZeroWindowForgets(cfg: Config, key: string)
    requires cfg.windowSecs == 0
    ensures !Unobservable(cfg)
  {
    var evs := CheckSweepCheck(key);
    SweptAway(cfg, key);
    TimesOfCheckSweepCheck(key);
    var b := Initial(cfg, None, 0.0);
    var first := TryConsume(b, 0.0);
    SecondReportDiffers(cfg, b, 0.0);
    assert [0.0, 0.0][1..] == [0.0] && [0.0][1..] == [];
    assert Alone(cfg, Some(first.bucket), [0.0]) == [Report(cfg, TryConsume(first.bucket, 0.0), 0.0)];
    assert Alone(cfg, None, [0.0, 0.0])[1] == Report(cfg, TryConsume(first.bucket, 0.0), 0.0);
    assert Observed(cfg, map[], evs, key)[1] == Report(cfg, first, 0.0);
    assert Observed(cfg, map[], evs, key) != Alone(cfg, None, TimesOf(evs, key));
  }

  /** Eviction and sharing are invisible exactly for the configurations with a window of a second or more. */
  lemma UnobservableIff(cfg: Config)
    ensures Unobservable(cfg) <==> 1 <= cfg.windowSecs
  {
    if 1 <= cfg.windowSecs {
      forall evs: seq<Event>, key: string, start: real | InOrder(start, evs)
        ensures Observed(cfg, map[], evs, key) == Alone(cfg, None, TimesOf(evs, key))
      {
        EvictionUnobservable(cfg, evs, key, start);
      }
    } else {
      ZeroWindowForgets(cfg, "");
    }
  }

  // ---------------------------------------------------------------------------
  // Bucket guarantees carried over to the shared, evicting limiter
  // ---------------------------------------------------------------------------

  function AllowedCount(rs: seq<RateLimitResult>): nat {
    if rs == [] then 0 else (if rs[0].allowed then 1 else 0) + AllowedCount(rs[1..])
  }

  /** The lone bucket after the calls `ts`. */
  function Left(cfg: Config, b: Option<Bucket>, ts: seq<real>): (r: Option<Bucket>)
    requires b.Some? ==> Ours(cfg, b.value)
    ensures r.Some? ==> Ours(cfg, r.value)
    decreases |ts|
  {
    if ts == [] then b else
    Left(cfg, Some(TryConsume(Initial(cfg, b, ts[0]), ts[0]).bucket), ts[1..])
  }

  lemma {:induction false} AloneConcat(cfg: Config, b: Option<Bucket>, ts: seq<real>, us: seq<real>)
    requires b.Some? ==> Ours(cfg, b.value)
    ensures Alone(cfg, b, ts + us) == Alone(cfg, b, ts) + Alone(cfg, Left(cfg, b, ts), us)
    ensures |Alone(cfg, b, ts)| == |ts|
    decreases |ts|
  {
    if ts == [] {
      assert ts + us == us;
    } else {
      assert (ts + us)[1..] == ts[1..] + us;
      AloneConcat(cfg, Some(TryConsume(Initial(cfg, b, ts[0]), ts[0]).bucket), ts[1..], us);
    }
  }

  lemma {:induction false} AloneCount(cfg: Config, b: Option<Bucket>, ts: seq<real>)
    requires b.Some? ==> Ours(cfg, b.value)
    requires ts != []
    ensures AllowedCount(Alone(cfg, b, ts)) == Admissions(Initial(cfg, b, ts[0]), ts)
    decreases |ts|
  {
    var taken := TryConsume(Initial(cfg, b, ts[0]), ts[0]);
    assert Alone(cfg, b, ts)[1..] == Alone(cfg, Some(taken.bucket), ts[1..]);
    if |ts| > 1 {
      AloneCount(cfg, Some(taken.bucket), ts[1..]);
    }
  }

  lemma {:induction false} LeftOrdered(cfg: Config, b: Option<Bucket>, clock: real, ts: seq<real>, us: seq<real>)
    requires b.Some? ==> Ours(cfg, b.value) && b.value.lastRefill <= clock
    requires Ordered(clock, ts + us) && us != []
    ensures Ordered(Initial(cfg, Left(cfg, b, ts), us[0]).lastRefill, us)
    decreases |ts|
  {
    if ts == [] {
      assert ts + us == us;
    } else {
      assert (ts + us)[1..] == ts[1..] + us;
      LeftOrdered(cfg, Some(TryConsume(Initial(cfg, b, ts[0]), ts[0]).bucket), ts[0], ts[1..], us);
    }
  }

  lemma {:induction false} TimesInOrder(clock: real, evs: seq<Event>, key: string)
    requires InOrder(clock, evs)
    ensures Ordered(clock, TimesOf(evs, key))
    decreases |evs|
  {
    if evs != [] {
      TimesInOrder(evs[0].at, evs[1..], key);
      LowerOrder(clock, evs[0].at, TimesOf(evs[1..], key));
    }
  }

  lemma {:induction false} PrefixOrdered(clock: real, ts: seq<real>, us: seq<real>)
    requires Ordered(clock, ts + us)
    ensures Ordered(clock, ts)
    decreases |ts|
  {
    if ts != [] {
      assert (ts + us)[1..] == ts[1..] + us;
      PrefixOrdered(ts[0], ts[1..], us);
    }
  }

  lemma AloneSlice(cfg: Config, clock: real, ts: seq<real>, i: nat, j: nat) returns (b: Bucket)
    requires i < j <= |ts| && Ordered(clock, ts)
    ensures |Alone(cfg, None, ts)| == |ts|
    ensures Ours(cfg, b) && Ordered(b.lastRefill, ts[i..j])
    ensures AllowedCount(Alone(cfg, None, ts)[i..j]) == Admissions(b, ts[i..j])
  {
    var pre, mid, post := ts[..i], ts[i..j], ts[j..];
    assert ts == pre + mid + post;
    AloneConcat(cfg, None, pre + mid, post);
    AloneConcat(cfg, None, pre, mid);
    AloneConcat(cfg, Left(cfg, None, pre), mid, []);
    AloneConcat(cfg, Left(cfg, None, pre + mid), post, []);
    assert Alone(cfg, None, ts)[i..j] == Alone(cfg, Left(cfg, None, pre), mid);
    AloneCount(cfg, Left(cfg, None, pre), mid);
    PrefixOrdered(clock, pre + mid, post);
    LeftOrdered(cfg, None, clock, pre, mid);
    b := Initial(cfg, Left(cfg, None, pre), mid[0]);
  }

  lemma {:induction false} AloneBurst(cfg: Config, clock: real, ts: seq<real>, i: nat, j: nat)
    requires 1 <= cfg.windowSecs && i < j <= |ts| && Ordered(clock, ts)
    ensures var cap := AtLeastOne(cfg.maxRequests) as real;
            && |Alone(cfg, None, ts)| == |ts|
            && AllowedCount(Alone(cfg, None, ts)[i..j]) as real
               <= cap + Drip(cap / cfg.windowSecs as real, ts[j - 1] - ts[i])
  {
    var b := AloneSlice(cfg, clock, ts, i, j);
    StretchBound(b, ts[i..j]);
  }

  /** Burst bound of the shared limiter: in every run, with any other keys and any sweeps in between,
      the i-th to j-th check of a key admit at most capacity + rate * (their time span). */
  lemma LimiterBurstBound(cfg: Config, evs: seq<Event>, key: string, start: real, i: nat, j: nat)
    requires 1 <= cfg.windowSecs && InOrder(start, evs)
    requires i < j <= |TimesOf(evs, key)|
    ensures var ts := TimesOf(evs, key);
            var cap := AtLeastOne(cfg.maxRequests) as real;
            && |Observed(cfg, map[], evs, key)| == |ts|
            && AllowedCount(Observed(cfg, map[], evs, key)[i..j]) as real
               <= cap + Drip(cap / cfg.windowSecs as real, ts[j - 1] - ts[i])
  {
    EvictionUnobservable(cfg, evs, key, start);
    TimesInOrder(start, evs, key);
    AloneBurst(cfg, start, TimesOf(evs, key), i, j);
  }

  /** At most max_requests * (1 + span / window_secs) checks are allowed. */
  predicate WithinRate(cfg: Config, allowed: nat, span: real) {
    (allowed - cfg.maxRequests) as real * cfg.windowSecs as real <= cfg.maxRequests as real * span
  }

  lemma RateInSeconds(cfg: Config, allowed: nat, span: real)
    requires 1 <= cfg.windowSecs && 1 <= cfg.maxRequests
    requires var cap := AtLeastOne(cfg.maxRequests) as real;
             allowed as real <= cap + Drip(cap / cfg.windowSecs as real, span)
    ensures WithinRate(cfg, allowed, span)
  {
    var m, w, over := cfg.maxRequests as real, cfg.windowSecs as real, (allowed - cfg.maxRequests) as real;
    var r := m / w;
    assert r * w == m;
    assert over * w <= r * span * w;
    assert r * span * w == r * w * span;
  }

  /** The burst bound in the configuration's own terms, for any stretch of a key's checks. */
  lemma {:induction false} ConfiguredBurstBound(
    cfg: Config, evs: seq<Event>, key: string, start: real, i: nat, j: nat)
    requires 1 <= cfg.windowSecs && 1 <= cfg.maxRequests && InOrder(start, evs) && i < j <= |TimesOf(evs, key)|
    ensures |Observed(cfg, map[], evs, key)| == |TimesOf(evs, key)|
    ensures WithinRate(cfg, AllowedCount(Observed(cfg, map[], evs, key)[i..j]),
                       TimesOf(evs, key)[j - 1] - TimesOf(evs, key)[i])
  {
    LimiterBurstBound(cfg, evs, key, start, i, j);
    RateInSeconds(cfg, AllowedCount(Observed(cfg, map[], evs, key)[i..j]),
                  TimesOf(evs, key)[j - 1] - TimesOf(evs, key)[i]);
  }

  /** Result number n of the lone bucket, and the bucket it leaves. */
  lemma AloneAt(cfg: Config, ts: seq<real>, n: nat)
    requires n < |ts|
    ensures |Alone(cfg, None, ts)| == |ts|
    ensures var taken := TryConsume(Initial(cfg, Left(cfg, None, ts[..n]), ts[n]), ts[n]);
            && Alone(cfg, None, ts)[n] == Report(cfg, taken, ts[n])
            && Left(cfg, None, ts[..n + 1]) == Some(taken.bucket)
  {
    assert ts[..n] + ts[n..] == ts && ts[n..][0] == ts[n];
    AloneConcat(cfg, None, ts[..n], ts[n..]);
    AloneConcat(cfg, None, ts, []);
    LeftSnoc(cfg, None, ts[..n], ts[n]);
    assert ts[..n] + [ts[n]] == ts[..n + 1];
  }

  lemma {:induction false} LeftSnoc(cfg: Config, b: Option<Bucket>, ts: seq<real>, t: real)
    requires b.Some? ==> Ours(cfg, b.value)
    ensures Left(cfg, b, ts + [t]) == Some(TryConsume(Initial(cfg, Left(cfg, b, ts), t), t).bucket)
    decreases |ts|
  {
    if ts == [] {
      assert ts + [t] == [t] && [t][1..] == [];
    } else {
      assert (ts + [t])[1..] == ts[1..] + [t];
      LeftSnoc(cfg, Some(TryConsume(Initial(cfg, b, ts[0]), ts[0]).bucket), ts[1..], t);
    }
  }

  lemma {:induction false} LeftAfter(cfg: Config, b: Bucket, ts: seq<real>)
    requires Ours(cfg, b)
    ensures Left(cfg, Some(b), ts) == Some(After(b, ts))
    decreases |ts|
  {
    if ts != [] {
      LeftAfter(cfg, TryConsume(b, ts[0]).bucket, ts[1..]);
    }
  }

  lemma {:induction false} LeftConcat(cfg: Config, b: Option<Bucket>, ts: seq<real>, us: seq<real>)
    requires b.Some? ==> Ours(cfg, b.value)
    ensures Left(cfg, b, ts + us) == Left(cfg, Left(cfg, b, ts), us)
    decreases |ts|
  {
    if ts == [] {
      assert ts + us == us;
    } else {
      assert (ts + us)[1..] == ts[1..] + us;
      LeftConcat(cfg, Some(TryConsume(Initial(cfg, b, ts[0]), ts[0]).bucket), ts[1..], us);
    }
  }

  /** Of the calls at `ts` with results `rs`: if call i is rejected and those in between come before the advised
      instant, call j is admitted exactly if it comes at or after it. */
  ghost predicate AdviceExact(ts: seq<real>, rs: seq<RateLimitResult>, i: nat, j: nat)
    requires |rs| == |ts|
  {
    i < j < |ts| && rs[i].retryAfter.Some? ==>
      var advised := ts[i] + rs[i].retryAfter.value;
      (forall n :: i < n < j ==> ts[n] < advised) ==> (rs[j].allowed <==> advised <= ts[j])
  }

  /** The lone bucket after call i, and the calls from there to call j. */
  lemma {:induction false} FromCallToCall(cfg: Config, clock: real, ts: seq<real>, i: nat, j: nat) returns (b: Bucket)
    requires i < j < |ts| && Ordered(clock, ts)
    ensures Ours(cfg, b) && Left(cfg, None, ts[..i + 1]) == Some(b)
    ensures Left(cfg, None, ts[..j]) == Some(After(b, ts[i + 1..j]))
    ensures Ordered(b.lastRefill, ts[i + 1..j] + [ts[j]])
  {
    AloneAt(cfg, ts, i);
    var pre, polls, post := ts[..i + 1], ts[i + 1..j], ts[j + 1..];
    b := Left(cfg, None, pre).value;
    assert ts[..j] == pre + polls;
    LeftConcat(cfg, None, pre, polls);
    LeftAfter(cfg, b, polls);
    assert ts == pre + (polls + [ts[j]] + post);
    LeftOrdered(cfg, None, clock, pre, polls + [ts[j]] + post);
    PrefixOrdered(b.lastRefill, polls + [ts[j]], post);
  }

  lemma {:induction false} AloneRetry(cfg: Config, clock: real, ts: seq<real>, i: nat, j: nat)
    requires Ordered(clock, ts)
    ensures |Alone(cfg, None, ts)| == |ts| && AdviceExact(ts, Alone(cfg, None, ts), i, j)
  {
    AloneConcat(cfg, None, ts, []);
    var rs := Alone(cfg, None, ts);
    if i < j < |ts| && rs[i].retryAfter.Some? && forall n :: i < n < j ==> ts[n] < ts[i] + rs[i].retryAfter.value {
      AloneAt(cfg, ts, i);
      AloneAt(cfg, ts, j);
      var b := FromCallToCall(cfg, clock, ts, i, j);
      assert b.tokens < 1.0 && b.lastRefill == ts[i] && rs[i].retryAfter == Some(SecondsUntilRefill(b));
      RetryAdviceExact(b, ts[i + 1..j], ts[j]);
    }
  }

  /** Retry advice of the shared limiter is exact: when a check of a key is rejected and the key's checks in between
      come too early, a later check is admitted if and only if it comes at or after the advised instant. */
  lemma {:induction false} LimiterRetryExact(cfg: Config, evs: seq<Event>, key: string, start: real, i: nat, j: nat)
    requires 1 <= cfg.windowSecs && InOrder(start, evs)
    ensures |Observed(cfg, map[], evs, key)| == |TimesOf(evs, key)|
    ensures AdviceExact(TimesOf(evs, key), Observed(cfg, map[], evs, key), i, j)
  {
    EvictionUnobservable(cfg, evs, key, start);
    TimesInOrder(start, evs, key);
    AloneRetry(cfg, start, TimesOf(evs, key), i, j);
  }

  // ---------------------------------------------------------------------------
  // What a result reports
  // ---------------------------------------------------------------------------

  /** Of calls at `ts` with results `rs`: the calls after call i up to call j that come at its instant are allowed as
      often as call i reported to remain. */
  ghost predicate RemainingIsExact(ts: seq<real>, rs: seq<RateLimitResult>, i: nat, j: nat)
    requires |rs| == |ts|
  {
    i < j <= |ts| && (forall n :: i < n < j ==> ts[n] == ts[i]) ==>
      AllowedCount(rs[i + 1..j]) == Min(j - i - 1, rs[i].remaining)
  }

  function Min(a: int, b: int): int {
    if a <= b then a else b
  }

  lemma {:induction false} AloneAfter(cfg: Config, ts: seq<real>, i: nat, j: nat)
    requires i < j <= |ts|
    ensures |Alone(cfg, None, ts)| == |ts|
    ensures Alone(cfg, None, ts)[i + 1..j] == Alone(cfg, Left(cfg, None, ts[..i + 1]), ts[i + 1..j])
  {
    var pre, mid, post := ts[..i + 1], ts[i + 1..j], ts[j..];
    assert ts == pre + mid + post;
    AloneConcat(cfg, None, pre + mid, post);
    AloneConcat(cfg, None, pre, mid);
    AloneConcat(cfg, Left(cfg, None, pre), mid, []);
    AloneConcat(cfg, Left(cfg, None, pre + mid), post, []);
  }

  lemma {:induction false} AloneRemaining(cfg: Config, ts: seq<real>, i: nat, j: nat)
    ensures |Alone(cfg, None, ts)| == |ts| && RemainingIsExact(ts, Alone(cfg, None, ts), i, j)
  {
    AloneConcat(cfg, None, ts, []);
    if i < j <= |ts| && forall n :: i < n < j ==> ts[n] == ts[i] {
      AloneAt(cfg, ts, i);
      AloneAfter(cfg, ts, i, j);
      var taken := TryConsume(Initial(cfg, Left(cfg, None, ts[..i]), ts[i]), ts[i]);
      var same := ts[i + 1..j];
      assert same == seq(j - i - 1, _ => ts[i]);
      if same != [] {
        AloneCount(cfg, Some(taken.bucket), same);
        RemainingExact(Initial(cfg, Left(cfg, None, ts[..i]), ts[i]), ts[i], j - i - 1);
      }
    }
  }

  lemma AloneReports(cfg: Config, ts: seq<real>, i: nat)
    requires i < |ts| && 1 <= cfg.windowSecs
    ensures |Alone(cfg, None, ts)| == |ts|
    ensures var r := Alone(cfg, None, ts)[i];
            && r.limit == cfg.maxRequests && r.resetAt == ts[i] + cfg.windowSecs as real
            && (r.retryAfter.None? <==> r.allowed) && (!r.allowed ==> r.remaining == 0)
  {
    AloneAt(cfg, ts, i);
    var taken := TryConsume(Initial(cfg, Left(cfg, None, ts[..i]), ts[i]), ts[i]);
    WindowRoundTrip(cfg.maxRequests, cfg.windowSecs, taken.bucket);
  }

  /** What every result of the shared limiter reports: the configured limit, a reset one window ahead, a retry advice
      exactly with a rejection, and as remaining exactly how many of the key's checks at that instant are still
      allowed, whatever other keys and sweeps do. */
  lemma ResultsReport(cfg: Config, evs: seq<Event>, key: string, start: real, i: nat, j: nat)
    requires 1 <= cfg.windowSecs && InOrder(start, evs) && i < |TimesOf(evs, key)|
    ensures |Observed(cfg, map[], evs, key)| == |TimesOf(evs, key)|
    ensures var ts, r := TimesOf(evs, key), Observed(cfg, map[], evs, key)[i];
            && r.limit == cfg.maxRequests && r.resetAt == ts[i] + cfg.windowSecs as real
            && (r.retryAfter.None? <==> r.allowed) && (!r.allowed ==> r.remaining == 0)
    ensures RemainingIsExact(TimesOf(evs, key), Observed(cfg, map[], evs, key), i, j)
  {
    EvictionUnobservable(cfg, evs, key, start);
    TimesInOrder(start, evs, key);
    AloneReports(cfg, TimesOf(evs, key), i);
    AloneRemaining(cfg, TimesOf(evs, key), i, j);
  }

  /** The first check of a key is allowed and leaves the rest of the capacity. */
  lemma FirstCheck(cfg: Config, evs: seq<Event>, key: string, start: real)
    requires 1 <= cfg.windowSecs && 1 <= cfg.maxRequests && InOrder(start, evs) && TimesOf(evs, key) != []
    ensures Observed(cfg, map[], evs, key) != []
    ensures Observed(cfg, map[], evs, key)[0].allowed
    ensures Observed(cfg, map[], evs, key)[0].remaining == cfg.maxRequests - 1
  {
    EvictionUnobservable(cfg, evs, key, start);
  }

  /** The sweep keeps memory bounded: after it, exactly the keys seen less than two windows ago are left, each with
      its entry as it was. */
  lemma SweepMeaning(cfg: Config, store: Store, now: real, key: string)
    requires StoreValid(cfg, store)
    ensures var after := Sweep(cfg, store, now);
            && (key in after <==>
                  key in store && 1 <= cfg.windowSecs && now < store[key].lastSeen + 2.0 * cfg.windowSecs as real)
            && (key in after ==> after[key] == store[key])
  {}

  // ---------------------------------------------------------------------------
  // The shared mutable limiter
  // ---------------------------------------------------------------------------

  class RateLimiter {
    const cfg: Config
    var buckets: Store

    ghost predicate Ok()
      reads this
    {
      StoreValid(cfg, buckets)
    }

    constructor (maxRequests: u32, windowSecs: nat)
      ensures Ok() && buckets == map[] && cfg == Config(maxRequests, windowSecs)
    {
      cfg := Config(maxRequests, windowSecs);
      buckets := map[];
    }

    method CheckNow(key: string, now: real) returns (result: RateLimitResult)
      requires Ok()
      modifies this`buckets
      ensures Ok()
      ensures (buckets, result) == Check(cfg, old(buckets), key, now)
    {
      if key !in buckets {
        buckets := buckets[key := Entry(NewBucket(cfg.maxRequests, cfg.windowSecs, now), now)];
      }
      buckets := buckets[key := buckets[key].(lastSeen := now)];
      var taken := TryConsume(buckets[key].bucket, now);
      buckets := buckets[key := buckets[key].(bucket := taken.bucket)];
      result := Report(cfg, taken, now);
      assert buckets == old(buckets)[key := Entry(taken.bucket, now)];
    }

    /** `DashMap::retain`: every entry is looked at once, and dropped if it has expired. */
    method CleanupNow(now: real)
      requires Ok()
      modifies this`buckets
      ensures Ok()
      ensures buckets == Sweep(cfg, old(buckets), now)
    {
      var expiry := (cfg.windowSecs * 2) as real;
      var pending := buckets.Keys;
      while pending != {}
        invariant pending <= buckets.Keys <= old(buckets).Keys
        invariant forall k :: k in buckets ==> buckets[k] == old(buckets)[k]
        invariant forall k :: k in old(buckets) && k !in pending ==>
                    (k in buckets <==> Elapsed(old(buckets)[k].lastSeen, now) < expiry)
        decreases |pending|
      {
        var k :| k in pending;
        pending := pending - {k};
        if !(Elapsed(buckets[k].lastSeen, now) < expiry) {
          buckets := buckets - {k};
        }
      }
    }
  }
}
