/** oauth2-ratelimit/src/redis.rs: a fixed-window counter per key, updated by one atomic Lua script.
    A key with an expiry is gone from that instant on, EXPIRE with zero seconds deletes, and TTL rounds to
    whole seconds; the script sees one clock reading. */
module RedisLimiter {
  import opened Machine
  import opened RateLimit

  datatype Cell = Cell(count: nat, expiry: Option<real>)

  type Store = map<string, Cell>

  datatype Script = Script(cell: Option<Cell>, count: nat, ttl: int)

  datatype Outcome = Backend | Answer(result: RateLimitResult)

  /** What Redis still holds under a key at `now`. */
  function Live(c: Option<Cell>, now: real): Option<Cell> {
    if c.Some? && c.value.expiry.Some? && c.value.expiry.value <= now then None else c
  }

  function Expire(c: Option<Cell>, now: real, secs: nat): Option<Cell> {
    if c.None? || secs == 0 then None else Some(c.value.(expiry := Some(now + secs as real)))
  }

  /** TTL: -2 without a key, -1 without an expiry, otherwise the remaining time to the nearest second. */
  function Ttl(c: Option<Cell>, now: real): int {
    if c.None? then -2
    else if c.value.expiry.None? then -1
    else (c.value.expiry.value - now + 0.5).Floor
  }

  /** The Lua script on one key. */
  function RunScript(c: Option<Cell>, now: real, window: nat): Script {
    var live := Live(c, now);
    var bumped := if live.Some? then live.value.(count := live.value.count + 1) else Cell(1, None);
    var started := if bumped.count == 1 then Expire(Some(bumped), now, window) else Some(bumped);
    if Ttl(started, now) < 0 then
      Script(Expire(started, now, window), bumped.count, window)
    else
      Script(started, bumped.count, Ttl(started, now))
  }

  function Max(a: int, b: int): int {
    if a < b then b else a
  }

  /** The Rust side of `check`; a count that does not fit a `u32` is a conversion error. */
  function Decide(cfg: Config, s: Script, now: real): Outcome {
    if U32_SIZE <= s.count then Backend else
    var allowed := s.count <= cfg.maxRequests;
    Answer(RateLimitResult(allowed,
                           if allowed then cfg.maxRequests - s.count else 0,
                           cfg.maxRequests,
                           now + Max(s.ttl, 0) as real,
                           if allowed then None else Some(Max(s.ttl, 1) as real)))
  }

  /** The counter INCR leaves at `now`. */
  function Bumped(c: Option<Cell>, now: real): Cell {
    if Live(c, now).Some? then c.value.(count := c.value.count + 1) else Cell(1, None)
  }

  /** Whether the script's count lets the request through. */
  predicate Admits(cfg: Config, c: Option<Cell>, now: real) {
    Bumped(c, now).count <= cfg.maxRequests
  }

  /** What the script leaves: a window is started for a first or unlimited counter, any other is kept. */
  function Next(cfg: Config, c: Option<Cell>, now: real): Option<Cell> {
    var b := Bumped(c, now);
    if b.count != 1 && b.expiry.Some? then Some(b)
    else if cfg.windowSecs == 0 then None
    else Some(b.(expiry := Some(now + cfg.windowSecs as real)))
  }

  /** The script and the answer computed from it are described by `Next` and `Admits`. */
  lemma ScriptMeaning(cfg: Config, c: Option<Cell>, now: real)
    ensures var s := RunScript(c, now, cfg.windowSecs);
            var o := Decide(cfg, s, now);
            && s.cell == Next(cfg, c, now)
            && s.count == Bumped(c, now).count
            && (Admits(cfg, c, now) <==> o.Answer? && o.result.allowed)
            && (o.Answer? ==> o.result.remaining == (if Admits(cfg, c, now) then cfg.maxRequests - s.count else 0))
            && (o.Answer? ==> (o.result.retryAfter.None? <==> o.result.allowed))
  {}

  // ---------------------------------------------------------------------------
  // One script call
  // ---------------------------------------------------------------------------

  /** Expiries are at most a window ahead, or missing (a leftover that would block the client forever). */
  ghost predicate Healable(cfg: Config, c: Option<Cell>, now: real) {
    c.Some? && c.value.expiry.Some? ==> c.value.expiry.value <= now + cfg.windowSecs as real
  }

  /** Self-healing: whatever a key looked like, after a check it expires within a window (with a zero
      window it is gone at once), and the reported TTL is that remaining time up to half a second. */
  lemma ScriptHeals(cfg: Config, c: Option<Cell>, now: real)
    requires Healable(cfg, c, now)
    ensures var s := RunScript(c, now, cfg.windowSecs);
            && (s.cell.Some? <==> 0 < cfg.windowSecs)
            && (s.cell.Some? ==>
                  && s.cell.value.count == s.count >= 1
                  && s.cell.value.expiry.Some?
                  && now < s.cell.value.expiry.value <= now + cfg.windowSecs as real
                  && s.cell.value.expiry.value - now - 0.5 <= s.ttl as real <= s.cell.value.expiry.value - now + 0.5)
  {}

  /** What an answer reports: the configured limit, and as reset the key's expiry, to half a second. */
  lemma AnswerReports(cfg: Config, c: Option<Cell>, now: real)
    requires Healable(cfg, c, now) && 1 <= cfg.windowSecs
    ensures var s := RunScript(c, now, cfg.windowSecs);
            var o := Decide(cfg, s, now);
            && s.cell.Some? && s.cell.value.expiry.Some? && (o.Backend? <==> U32_SIZE <= s.count)
            && (o.Answer? ==>
                  && o.result.limit == cfg.maxRequests
                  && -0.5 <= o.result.resetAt - s.cell.value.expiry.value <= 0.5)
  {
    ScriptHeals(cfg, c, now);
  }

  /** The first check at or after the expiry opens a fresh window and is admitted. */
  lemma ExpiredKeyAdmits(cfg: Config, c: Option<Cell>, now: real)
    requires Live(c, now).None? && 1 <= cfg.maxRequests
    ensures var s := RunScript(c, now, cfg.windowSecs);
            var o := Decide(cfg, s, now);
            && s.count == 1 && o.Answer? && o.result.allowed
            && s.cell == (if cfg.windowSecs == 0 then None else Some(Cell(1, Some(now + cfg.windowSecs as real))))
  {}

  // ---------------------------------------------------------------------------
  // Runs on one key
  // ---------------------------------------------------------------------------

  /** Admissions at instants in the half-open interval [from, to). */
  function AdmittedIn(cfg: Config, c: Option<Cell>, ts: seq<real>, from: real, to: real): nat
    decreases |ts|
  {
    if ts == [] then 0 else
    (if from <= ts[0] < to && Admits(cfg, c, ts[0]) then 1 else 0)
    + AdmittedIn(cfg, Next(cfg, c, ts[0]), ts[1..], from, to)
  }

  lemma {:induction false} NothingAfter(cfg: Config, c: Option<Cell>, ts: seq<real>, from: real, to: real)
    requires Ordered(to, ts)
    ensures AdmittedIn(cfg, c, ts, from, to) == 0
    decreases |ts|
  {
    if ts != [] {
      LowerOrder(to, ts[0], ts[1..]);
      NothingAfter(cfg, Next(cfg, c, ts[0]), ts[1..], from, to);
    }
  }

  /** A window that outlives the interval admits what its counter leaves. */
  lemma {:induction false} WindowCovers(cfg: Config, c: Cell, clock: real, ts: seq<real>, from: real, to: real)
    requires Ordered(clock, ts) && c.expiry.Some? && to <= c.expiry.value && 1 <= c.count
    ensures AdmittedIn(cfg, Some(c), ts, from, to) <= Max(0, cfg.maxRequests - c.count)
    decreases |ts|
  {
    if ts != [] {
      if to <= ts[0] {
        LowerOrder(to, ts[0], ts[1..]);
        NothingAfter(cfg, Some(c), ts, from, to);
      } else {
        WindowCovers(cfg, Next(cfg, Some(c), ts[0]).value, ts[0], ts[1..], from, to);
      }
    }
  }

  /** Inside the interval: the current window's rest, then at most one more full window. */
  lemma {:induction false} InsideInterval(
    cfg: Config, c: Option<Cell>, clock: real, ts: seq<real>, from: real, to: real)
    requires 1 <= cfg.windowSecs && to == from + cfg.windowSecs as real
    requires from <= clock && Ordered(clock, ts)
    ensures AdmittedIn(cfg, c, ts, from, to)
            <= cfg.maxRequests + if c.Some? && 1 <= c.value.count then Max(0, cfg.maxRequests - c.value.count) else 0
    decreases |ts|
  {
    if ts != [] {
      var next := Next(cfg, c, ts[0]).value;
      if to <= next.expiry.value {
        WindowCovers(cfg, next, ts[0], ts[1..], from, to);
      } else {
        InsideInterval(cfg, Some(next), ts[0], ts[1..], from, to);
      }
    }
  }

  /** Fixed-window bound for one key: any half-open interval as long as the window admits at most
      2 * max_requests - 1 checks. */
  lemma {:induction false} WindowBound(cfg: Config, c: Option<Cell>, clock: real, ts: seq<real>, from: real, to: real)
    requires to == from + cfg.windowSecs as real && Ordered(clock, ts)
    ensures AdmittedIn(cfg, c, ts, from, to) <= Max(0, 2 * cfg.maxRequests - 1)
    decreases |ts|
  {
    if ts != [] {
      if cfg.windowSecs == 0 {
        WindowBound(cfg, Next(cfg, c, ts[0]), ts[0], ts[1..], from, to);
      } else if ts[0] < from {
        WindowBound(cfg, Next(cfg, c, ts[0]), ts[0], ts[1..], from, to);
      } else {
        var next := Next(cfg, c, ts[0]).value;
        if next.count == 1 {
          WindowCovers(cfg, next, ts[0], ts[1..], from, to);
        } else {
          InsideInterval(cfg, Some(next), ts[0], ts[1..], from, to);
        }
      }
    }
  }

  // ---------------------------------------------------------------------------
  // Retry advice
  // ---------------------------------------------------------------------------

  /** The cell after checks at the given times. */
  function After(cfg: Config, c: Option<Cell>, ts: seq<real>): Option<Cell>
    decreases |ts|
  {
    if ts == [] then c else After(cfg, Next(cfg, c, ts[0]), ts[1..])
  }

  /** A used-up window rejects until its expiry, however often it is polled, and admits from then on. */
  lemma {:induction false} UsedUpUntilExpiry(cfg: Config, c: Cell, polls: seq<real>, at: real)
    requires c.expiry.Some? && 1 <= c.count && cfg.maxRequests <= c.count && 1 <= cfg.maxRequests
    requires forall i :: 0 <= i < |polls| ==> polls[i] < c.expiry.value
    ensures Admits(cfg, After(cfg, Some(c), polls), at) <==> c.expiry.value <= at
    ensures forall i :: 0 <= i < |polls| ==> !Admits(cfg, After(cfg, Some(c), polls[..i]), polls[i])
    decreases |polls|
  {
    if polls != [] {
      var next := c.(count := c.count + 1);
      assert Next(cfg, Some(c), polls[0]) == Some(next);
      UsedUpUntilExpiry(cfg, next, polls[1..], at);
      forall i | 0 <= i < |polls| ensures !Admits(cfg, After(cfg, Some(c), polls[..i]), polls[i]) {
        if i > 0 {
          assert polls[..i][1..] == polls[1..][..i - 1] && polls[i] == polls[1..][i - 1];
        }
      }
    }
  }

  /** The number of seconds is whole or rounds up, or is at most the one second that is always advised. */
  predicate RoundedUp(left: real) {
    left <= 1.0 || left == left.Floor as real || 0.5 <= left - left.Floor as real
  }

  /** Retry advice of the Redis limiter: after a rejection, and any number of polls before the window's expiry, the
      next check is admitted exactly from the expiry on. The advised instant is right, in that a check there is
      admitted, if and only if rounding to whole seconds did not cut the remaining time. */
  lemma RetryAdvice(cfg: Config, c: Option<Cell>, now: real, polls: seq<real>, at: real)
    requires Healable(cfg, c, now) && 1 <= cfg.windowSecs && 1 <= cfg.maxRequests && !Admits(cfg, c, now)
    ensures var s := RunScript(c, now, cfg.windowSecs);
            var o := Decide(cfg, s, now);
            && s.cell.Some? && s.cell.value.expiry.Some? && (o.Answer? ==> o.result.retryAfter.Some?)
            && var expiry := s.cell.value.expiry.value;
               (forall i :: 0 <= i < |polls| ==> polls[i] < expiry) ==>
                 && (Admits(cfg, After(cfg, s.cell, polls), at) <==> expiry <= at)
                 && (o.Answer? ==>
                       (Admits(cfg, After(cfg, s.cell, polls), now + o.result.retryAfter.value)
                        <==> RoundedUp(expiry - now)))
  {
    ScriptHeals(cfg, c, now);
    var s := RunScript(c, now, cfg.windowSecs);
    var expiry := s.cell.value.expiry.value;
    if forall i :: 0 <= i < |polls| ==> polls[i] < expiry {
      UsedUpUntilExpiry(cfg, s.cell.value, polls, at);
      UsedUpUntilExpiry(cfg, s.cell.value, polls, now + Max(s.ttl, 1) as real);
      AdviceCovers(cfg, c, now);
    }
  }

  lemma AdviceCovers(cfg: Config, c: Option<Cell>, now: real)
    requires Healable(cfg, c, now) && 1 <= cfg.windowSecs
    ensures var s := RunScript(c, now, cfg.windowSecs);
            && s.cell.Some? && s.cell.value.expiry.Some?
            && var left := s.cell.value.expiry.value - now;
               left <= Max(s.ttl, 1) as real <==> RoundedUp(left)
  {
    ScriptHeals(cfg, c, now);
    var s := RunScript(c, now, cfg.windowSecs);
    var left := s.cell.value.expiry.value - now;
    assert s.ttl == (left + 0.5).Floor;
    Rounding(left);
  }

  lemma Rounding(left: real)
    requires 0.0 <= left
    ensures left <= Max((left + 0.5).Floor, 1) as real <==> RoundedUp(left)
  {
    var whole := left.Floor;
    assert (left + 0.5).Floor == if 0.5 <= left - whole as real then whole + 1 else whole;
  }

  // ---------------------------------------------------------------------------
  // The bound is attained
  // ---------------------------------------------------------------------------

  lemma {:induction false} SameInstant(cfg: Config, c: Cell, t: real, n: nat, rest: seq<real>, from: real, to: real)
    requires c.expiry.Some? && t < c.expiry.value && 1 <= c.count && c.count + n <= cfg.maxRequests
    requires from <= t < to
    ensures AdmittedIn(cfg, Some(c), seq(n, _ => t) + rest, from, to)
            == n + AdmittedIn(cfg, Some(c.(count := c.count + n)), rest, from, to)
    decreases n
  {
    var ts := seq(n, _ => t) + rest;
    if n == 0 {
      assert ts == rest;
    } else {
      assert ts[0] == t && ts[1..] == seq(n - 1, _ => t) + rest;
      SameInstant(cfg, c.(count := c.count + 1), t, n - 1, rest, from, to);
    }
  }

  /** `remaining` is exact: after an allowed check that reports it, that many more checks at the same instant are
      admitted and the next one is not. */
  lemma RemainingExact(cfg: Config, c: Option<Cell>, now: real)
    requires Healable(cfg, c, now) && 1 <= cfg.windowSecs && Admits(cfg, c, now)
    ensures var o := Decide(cfg, RunScript(c, now, cfg.windowSecs), now);
            && o.Answer?
            && AdmittedIn(cfg, Next(cfg, c, now), seq(o.result.remaining, _ => now) + [now], now, now + 1.0)
               == o.result.remaining
  {
    ScriptMeaning(cfg, c, now);
    var cell := Next(cfg, c, now).value;
    var left := cfg.maxRequests - cell.count;
    SameInstant(cfg, cell, now, left, [now], now, now + 1.0);
    var full := Some(cell.(count := cell.count + left));
    assert [now][1..] == [] && !Admits(cfg, full, now);
    assert AdmittedIn(cfg, full, [now], now, now + 1.0) == 0;
  }

  /** One check to open a window, the rest of it at its end, and a full window right after. */
  function WorstCase(cfg: Config): seq<real>
    requires 1 <= cfg.maxRequests && 1 <= cfg.windowSecs
  {
    var w := cfg.windowSecs as real;
    [0.0] + (seq(cfg.maxRequests - 1, _ => w - 0.5) + ([w] + (seq(cfg.maxRequests - 1, _ => w) + [])))
  }

  lemma WorstCaseOrdered(cfg: Config)
    requires 1 <= cfg.maxRequests && 1 <= cfg.windowSecs
    ensures Ordered(0.0, WorstCase(cfg))
  {
    var w, m := cfg.windowSecs as real, cfg.maxRequests - 1;
    var tail := [w] + (seq(m, _ => w) + []);
    ConstantOrdered(w, w, m, []);
    assert tail[1..] == seq(m, _ => w) + [];
    ConstantOrdered(0.0, w - 0.5, m, tail);
    assert WorstCase(cfg)[1..] == seq(m, _ => w - 0.5) + tail;
  }

  lemma {:induction false} ConstantOrdered(clock: real, t: real, n: nat, rest: seq<real>)
    requires clock <= t && Ordered(t, rest)
    ensures Ordered(clock, seq(n, _ => t) + rest)
    decreases n
  {
    if n == 0 {
      assert seq(n, _ => t) + rest == rest;
      LowerOrder(clock, t, rest);
    } else {
      ConstantOrdered(t, t, n - 1, rest);
      assert (seq(n, _ => t) + rest)[1..] == seq(n - 1, _ => t) + rest;
    }
  }

  lemma WorstCaseAdmits(cfg: Config)
    requires 1 <= cfg.maxRequests && 1 <= cfg.windowSecs
    ensures var w := cfg.windowSecs as real;
            AdmittedIn(cfg, None, WorstCase(cfg), w - 0.5, w - 0.5 + w) == 2 * cfg.maxRequests - 1
  {
    var w, m := cfg.windowSecs as real, cfg.maxRequests - 1;
    var from, to := w - 0.5, w - 0.5 + w;
    var tail := [w] + (seq(m, _ => w) + []);
    var first := Cell(1, Some(w));
    assert WorstCase(cfg)[1..] == seq(m, _ => w - 0.5) + tail;
    assert Next(cfg, None, 0.0) == Some(first);
    SameInstant(cfg, first, w - 0.5, m, tail, from, to);
    var last := Some(first.(count := 1 + m));
    assert tail[1..] == seq(m, _ => w) + [];
    assert Next(cfg, last, w) == Some(Cell(1, Some(w + w)));
    SameInstant(cfg, Cell(1, Some(w + w)), w, m, [], from, to);
  }

  // ---------------------------------------------------------------------------
  // The whole store
  // ---------------------------------------------------------------------------

  datatype Call = Call(key: string, at: real)

  function Lookup(store: Store, key: string): Option<Cell> {
    if key in store then Some(store[key]) else None
  }

  function Update(store: Store, key: string, c: Option<Cell>): Store {
    if c.Some? then store[key := c.value] else store - {key}
  }

  function Check(cfg: Config, store: Store, call: Call): (Store, Outcome) {
    var s := RunScript(Lookup(store, call.key), call.at, cfg.windowSecs);
    (Update(store, call.key, s.cell), Decide(cfg, s, call.at))
  }

  predicate InOrder(clock: real, calls: seq<Call>)
    decreases |calls|
  {
    calls == [] || (clock <= calls[0].at && InOrder(calls[0].at, calls[1..]))
  }

  function Run(cfg: Config, store: Store, calls: seq<Call>): Store
    decreases |calls|
  {
    if calls == [] then store else Run(cfg, Check(cfg, store, calls[0]).0, calls[1..])
  }

  /** How often the answers to `key` allowed a request in the half-open interval [from, to). */
  function Admitted(cfg: Config, store: Store, calls: seq<Call>, key: string, from: real, to: real): nat
    decreases |calls|
  {
    if calls == [] then 0 else
    var (store', o) := Check(cfg, store, calls[0]);
    (if calls[0].key == key && from <= calls[0].at < to && o.Answer? && o.result.allowed then 1 else 0)
    + Admitted(cfg, store', calls[1..], key, from, to)
  }

  function TimesOf(calls: seq<Call>, key: string): seq<real> {
    if calls == [] then []
    else (if calls[0].key == key then [calls[0].at] else []) + TimesOf(calls[1..], key)
  }

  lemma {:induction false} KeysIndependent(
    cfg: Config, store: Store, calls: seq<Call>, key: string, clock: real, from: real, to: real)
    requires InOrder(clock, calls)
    ensures Ordered(clock, TimesOf(calls, key))
    ensures Admitted(cfg, store, calls, key, from, to)
            == AdmittedIn(cfg, Lookup(store, key), TimesOf(calls, key), from, to)
    decreases |calls|
  {
    if calls != [] {
      var store' := Check(cfg, store, calls[0]).0;
      ScriptMeaning(cfg, Lookup(store, calls[0].key), calls[0].at);
      KeysIndependent(cfg, store', calls[1..], key, calls[0].at, from, to);
      if calls[0].key == key {
        assert TimesOf(calls, key)[1..] == TimesOf(calls[1..], key);
        assert Lookup(store', key) == Next(cfg, Lookup(store, key), calls[0].at);
      } else {
        LowerOrder(clock, calls[0].at, TimesOf(calls[1..], key));
        assert TimesOf(calls, key) == TimesOf(calls[1..], key);
        assert Lookup(store', key) == Lookup(store, key);
      }
    }
  }

  /** Fixed-window bound: from any store, in every run over any keys, each key is admitted at most
      2 * max_requests - 1 times in any half-open interval as long as the window. */
  lemma FixedWindowBound(cfg: Config, store: Store, calls: seq<Call>, key: string, start: real, from: real)
    requires InOrder(start, calls)
    ensures Admitted(cfg, store, calls, key, from, from + cfg.windowSecs as real) <= Max(0, 2 * cfg.maxRequests - 1)
  {
    var to := from + cfg.windowSecs as real;
    KeysIndependent(cfg, store, calls, key, start, from, to);
    WindowBound(cfg, Lookup(store, key), start, TimesOf(calls, key), from, to);
  }

  function CallsAt(key: string, ts: seq<real>): seq<Call> {
    seq(|ts|, i requires 0 <= i < |ts| => Call(key, ts[i]))
  }

  lemma {:induction false} CallsInOrder(key: string, clock: real, ts: seq<real>)
    requires Ordered(clock, ts)
    ensures InOrder(clock, CallsAt(key, ts)) && TimesOf(CallsAt(key, ts), key) == ts
    decreases |ts|
  {
    if ts != [] {
      assert CallsAt(key, ts)[1..] == CallsAt(key, ts[1..]);
      CallsInOrder(key, ts[0], ts[1..]);
    }
  }

  /** No smaller bound holds: for every configuration and key some run in clock order from the empty store admits
      2 * max_requests - 1 checks within one window length. */
  lemma BoundAttained(cfg: Config, key: string) returns (calls: seq<Call>, from: real)
    requires 1 <= cfg.maxRequests && 1 <= cfg.windowSecs
    ensures InOrder(0.0, calls)
    ensures Admitted(cfg, map[], calls, key, from, from + cfg.windowSecs as real) == 2 * cfg.maxRequests - 1
  {
    calls, from := CallsAt(key, WorstCase(cfg)), cfg.windowSecs as real - 0.5;
    WorstCaseOrdered(cfg);
    WorstCaseAdmits(cfg);
    CallsInOrder(key, 0.0, WorstCase(cfg));
    KeysIndependent(cfg, map[], calls, key, 0.0, from, from + cfg.windowSecs as real);
  }

  /** Self-healing over runs: a key that was checked at least once expires within a window of its last check. */
  lemma {:induction false} CheckedKeysExpire(cfg: Config, store: Store, calls: seq<Call>, key: string, start: real)
    requires InOrder(start, calls) && Healable(cfg, Lookup(store, key), start) && TimesOf(calls, key) != []
    ensures var ts, c := TimesOf(calls, key), Lookup(Run(cfg, store, calls), key);
            c.Some? ==> c.value.expiry.Some? && c.value.expiry.value <= ts[|ts| - 1] + cfg.windowSecs as real
    decreases |calls|
  {
    var store' := Check(cfg, store, calls[0]).0;
    var rest := TimesOf(calls[1..], key);
    if calls[0].key == key {
      ScriptHeals(cfg, Lookup(store, key), calls[0].at);
      if rest == [] {
        Untouched(cfg, store', calls[1..], key);
      } else {
        CheckedKeysExpire(cfg, store', calls[1..], key, calls[0].at);
      }
    } else {
      assert Lookup(store', key) == Lookup(store, key);
      CheckedKeysExpire(cfg, store', calls[1..], key, calls[0].at);
    }
  }

  lemma {:induction false} Untouched(cfg: Config, store: Store, calls: seq<Call>, key: string)
    requires TimesOf(calls, key) == []
    ensures Lookup(Run(cfg, store, calls), key) == Lookup(store, key)
    decreases |calls|
  {
    if calls != [] {
      assert calls[0].key != key;
      Untouched(cfg, Check(cfg, store, calls[0]).0, calls[1..], key);
    }
  }

  // ---------------------------------------------------------------------------
  // The script, step by step on the shared store
  // ---------------------------------------------------------------------------

  class RedisRateLimiter {
    const cfg: Config
    var keys: Store

    constructor (maxRequests: u32, windowSecs: nat, keys: Store)
      ensures cfg == Config(maxRequests, windowSecs) && this.keys == keys
    {
      cfg := Config(maxRequests, windowSecs);
      this.keys := keys;
    }

    method Incr(key: string, now: real) returns (count: nat)
      modifies this`keys
      ensures var live := Live(old(Lookup(keys, key)), now);
              && count == (if live.Some? then live.value.count else 0) + 1
              && keys == old(keys)[key := Cell(count, if live.Some? then live.value.expiry else None)]
    {
      if key in keys && keys[key].expiry.Some? && keys[key].expiry.value <= now {
        keys := keys - {key};
      }
      if key in keys {
        keys := keys[key := keys[key].(count := keys[key].count + 1)];
      } else {
        keys := keys[key := Cell(1, None)];
      }
      count := keys[key].count;
      assert keys == old(keys)[key := keys[key]];
    }

    method ExpireKey(key: string, now: real)
      modifies this`keys
      ensures keys == Update(old(keys), key, Expire(old(Lookup(keys, key)), now, cfg.windowSecs))
    {
      if key in keys {
        if cfg.windowSecs == 0 {
          keys := keys - {key};
        } else {
          keys := keys[key := keys[key].(expiry := Some(now + cfg.windowSecs as real))];
        }
      }
      assert key !in keys ==> keys == old(keys) - {key};
    }

    method CheckNow(key: string, now: real) returns (outcome: Outcome)
      modifies this`keys
      ensures (keys, outcome) == Check(cfg, old(keys), Call(key, now))
    {
      var count := Incr(key, now);
      if count == 1 {
        ExpireKey(key, now);
      }
      var ttl := Ttl(Lookup(keys, key), now);
      if ttl < 0 {
        ExpireKey(key, now);
        ttl := cfg.windowSecs;
      }
      outcome := Decide(cfg, Script(None, count, ttl), now);
      assert keys == Check(cfg, old(keys), Call(key, now)).0;
    }
  }
}
