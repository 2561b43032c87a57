/** oauth2-ratelimit/src/token_bucket.rs: one token bucket. `f64` is modelled by `real`,
    and the instant a call reads from the clock is its parameter `now`. */
module TokenBuckets {
  import opened Machine

  datatype Bucket = Bucket(tokens: real, lastRefill: real, maxTokens: u32, refillRate: real)

  datatype Consumed = Consumed(bucket: Bucket, allowed: bool)

  ghost predicate Valid(b: Bucket) {
    && 1 <= b.maxTokens
    && 0.0 < b.refillRate
    && 0.0 <= b.tokens <= b.maxTokens as real
  }

  function AtLeastOne(n: nat): nat {
    if n == 0 then 1 else n
  }

  function NewBucket(maxTokens: u32, windowSecs: nat, now: real): (b: Bucket)
    ensures Valid(b) && b.lastRefill == now && b.tokens == b.maxTokens as real
    ensures b.maxTokens == if maxTokens == 0 then 1 else maxTokens
    ensures 1 <= windowSecs ==> b.refillRate * windowSecs as real == b.maxTokens as real
    ensures windowSecs == 0 ==> b.refillRate == b.maxTokens as real
  {
    var tokens := AtLeastOne(maxTokens);
    Bucket(tokens as real, now, tokens, tokens as real / AtLeastOne(windowSecs) as real)
  }

  function Refill(b: Bucket, now: real): Bucket {
    var grown := b.tokens + Elapsed(b.lastRefill, now) * b.refillRate;
    b.(tokens := if grown <= b.maxTokens as real then grown else b.maxTokens as real,
       lastRefill := now)
  }

  lemma RefillKeepsValid(b: Bucket, now: real)
    requires Valid(b)
    ensures Valid(Refill(b, now))
    ensures b.tokens <= Refill(b, now).tokens
  {
    assert 0.0 <= Elapsed(b.lastRefill, now) * b.refillRate;
  }

  function TryConsume(b: Bucket, now: real): (r: Consumed)
    requires Valid(b)
    ensures Valid(r.bucket)
    ensures r.bucket.maxTokens == b.maxTokens && r.bucket.refillRate == b.refillRate
  {
    RefillKeepsValid(b, now);
    var full := Refill(b, now);
    if 1.0 <= full.tokens then
      Consumed(full.(tokens := full.tokens - 1.0), true)
    else
      Consumed(full, false)
  }

  /** The second component of the answer of `try_consume`; it fits a `u32` because tokens never exceed capacity. */
  function Remaining(r: Consumed): (n: u32)
    requires Valid(r.bucket)
    ensures n <= r.bucket.maxTokens
  {
    if r.allowed then r.bucket.tokens.Floor else 0
  }

  function SecondsUntilRefill(b: Bucket): real
    requires Valid(b)
  {
    if 1.0 <= b.tokens then 0.0 else (1.0 - b.tokens) / b.refillRate
  }

  function Ceiling(x: real): int {
    -((-x).Floor)
  }

  function WindowSecs(b: Bucket): int
    requires Valid(b)
  {
    Ceiling(b.maxTokens as real / b.refillRate)
  }

  /** The window a bucket reports is the one it was built from (clamped to a second), at any later time. */
  lemma WindowRoundTrip(maxTokens: u32, windowSecs: nat, b: Bucket)
    requires Valid(b)
    requires b.maxTokens == AtLeastOne(maxTokens)
    requires b.refillRate == b.maxTokens as real / AtLeastOne(windowSecs) as real
    ensures WindowSecs(b) == AtLeastOne(windowSecs)
  {
    var m, w := b.maxTokens as real, AtLeastOne(windowSecs) as real;
    assert m / (m / w) == w by {
      assert (m / w) * w == m;
    }
  }

  // ---------------------------------------------------------------------------
  // Capped refills compose
  // ---------------------------------------------------------------------------

  /** Refilling twice is refilling once: how often a bucket is looked at changes nothing. */
  lemma RefillCompose(b: Bucket, t1: real, t2: real)
    requires Valid(b)
    requires b.lastRefill <= t1 <= t2
    ensures Refill(Refill(b, t1), t2) == Refill(b, t2)
  {
    var r := b.refillRate;
    assert (t2 - b.lastRefill) * r == (t1 - b.lastRefill) * r + (t2 - t1) * r;
    assert 0.0 <= (t2 - t1) * r;
  }

  /** After a whole window any bucket is full, whatever it held. */
  lemma FullAfterWindow(b: Bucket, windowSecs: nat, now: real)
    requires Valid(b)
    requires b.refillRate == b.maxTokens as real / AtLeastOne(windowSecs) as real
    requires b.lastRefill + AtLeastOne(windowSecs) as real <= now
    ensures Refill(b, now).tokens == b.maxTokens as real
  {
    var w := AtLeastOne(windowSecs) as real;
    assert w * b.refillRate == b.maxTokens as real;
    assert (now - b.lastRefill) * b.refillRate == w * b.refillRate + (now - b.lastRefill - w) * b.refillRate;
    assert 0.0 <= (now - b.lastRefill - w) * b.refillRate;
  }

  // ---------------------------------------------------------------------------
  // Runs of one bucket
  // ---------------------------------------------------------------------------

  function After(b: Bucket, ts: seq<real>): (r: Bucket)
    requires Valid(b)
    ensures Valid(r) && r.maxTokens == b.maxTokens && r.refillRate == b.refillRate
    decreases |ts|
  {
    if ts == [] then b else After(TryConsume(b, ts[0]).bucket, ts[1..])
  }

  function Admissions(b: Bucket, ts: seq<real>): nat
    requires Valid(b)
    decreases |ts|
  {
    if ts == [] then 0 else
    var r := TryConsume(b, ts[0]);
    (if r.allowed then 1 else 0) + Admissions(r.bucket, ts[1..])
  }

  /** Tokens that drip in at `rate` over an interval of length `span`. */
  function Drip(rate: real, span: real): real {
    rate * span
  }

  lemma DripSplit(rate: real, s1: real, s2: real)
    ensures Drip(rate, s1 + s2) == Drip(rate, s1) + Drip(rate, s2)
  {}

  lemma CallLedger(b: Bucket, now: real)
    requires Valid(b) && b.lastRefill <= now
    ensures (if TryConsume(b, now).allowed then 1.0 else 0.0) + TryConsume(b, now).bucket.tokens
            <= b.tokens + Drip(b.refillRate, now - b.lastRefill)
  {}

  /** Conservation: what was admitted plus what is left never exceeds what was there plus what dripped in. */
  lemma {:induction false} TokenLedger(b: Bucket, ts: seq<real>)
    requires Valid(b) && ts != [] && Ordered(b.lastRefill, ts)
    ensures Admissions(b, ts) as real + After(b, ts).tokens
            <= b.tokens + Drip(b.refillRate, ts[|ts| - 1] - b.lastRefill)
    decreases |ts|
  {
    var r, rest := TryConsume(b, ts[0]), ts[1..];
    assert After(b, ts) == After(r.bucket, rest);
    assert Admissions(b, ts) == (if r.allowed then 1 else 0) + Admissions(r.bucket, rest);
    CallLedger(b, ts[0]);
    if |ts| > 1 {
      var last := ts[|ts| - 1];
      assert rest[|rest| - 1] == last;
      TokenLedger(r.bucket, rest);
      DripSplit(b.refillRate, ts[0] - b.lastRefill, last - ts[0]);
      assert ts[0] - b.lastRefill + (last - ts[0]) == last - b.lastRefill;
    }
  }

  /** A call sees only the refilled bucket, so refilling beforehand at the same instant is invisible. */
  lemma ConsumeAfterRefill(b: Bucket, now: real)
    requires Valid(b) && b.lastRefill <= now
    ensures Valid(Refill(b, now)) && TryConsume(Refill(b, now), now) == TryConsume(b, now)
  {
    RefillKeepsValid(b, now);
    RefillCompose(b, now, now);
  }

  lemma RunAfterRefill(b: Bucket, ts: seq<real>)
    requires Valid(b) && ts != [] && Ordered(b.lastRefill, ts)
    ensures Valid(Refill(b, ts[0])) && Ordered(Refill(b, ts[0]).lastRefill, ts)
    ensures Admissions(Refill(b, ts[0]), ts) == Admissions(b, ts)
  {
    ConsumeAfterRefill(b, ts[0]);
  }

  /** A stretch of calls that spans time T admits at most capacity + rate * T of them. */
  lemma StretchBound(b: Bucket, ts: seq<real>)
    requires Valid(b) && ts != [] && Ordered(b.lastRefill, ts)
    ensures Admissions(b, ts) as real <= b.maxTokens as real + Drip(b.refillRate, ts[|ts| - 1] - ts[0])
  {
    RunAfterRefill(b, ts);
    var c := Refill(b, ts[0]);
    assert Valid(c) && Ordered(c.lastRefill, ts);
    TokenLedger(c, ts);
  }

  lemma {:induction false} OrderedTail(b: Bucket, pre: seq<real>, ts: seq<real>)
    requires Valid(b) && Ordered(b.lastRefill, pre + ts)
    ensures Ordered(After(b, pre).lastRefill, ts)
    decreases |pre|
  {
    if pre == [] {
      assert pre + ts == ts;
    } else {
      assert (pre + ts)[1..] == pre[1..] + ts;
      OrderedTail(TryConsume(b, pre[0]).bucket, pre[1..], ts);
    }
  }

  /** Burst bound: in every run, every contiguous stretch of calls that spans time T admits at most
      capacity + rate * T of them, and the bucket it starts from and leaves is within its bounds. */
  lemma {:induction false} BurstBound(b: Bucket, pre: seq<real>, stretch: seq<real>)
    requires Valid(b) && stretch != [] && Ordered(b.lastRefill, pre + stretch)
    ensures Admissions(After(b, pre), stretch) as real
            <= b.maxTokens as real + Drip(b.refillRate, stretch[|stretch| - 1] - stretch[0])
    ensures 0.0 <= After(b, pre).tokens <= b.maxTokens as real
  {
    OrderedTail(b, pre, stretch);
    var c := After(b, pre);
    assert Valid(c) && Ordered(c.lastRefill, stretch);
    StretchBound(c, stretch);
  }

  /** The burst is also granted: n calls at one instant admit exactly as many as there are whole tokens. */
  lemma {:induction false} BurstGranted(b: Bucket, n: nat)
    requires Valid(b)
    ensures Admissions(b, seq(n, _ => b.lastRefill)) == if n <= b.tokens.Floor then n else b.tokens.Floor
    decreases n
  {
    if n > 0 {
      var r := TryConsume(b, b.lastRefill);
      assert r.bucket.tokens.Floor == if r.allowed then b.tokens.Floor - 1 else b.tokens.Floor;
      assert seq(n, _ => b.lastRefill)[1..] == seq(n - 1, _ => r.bucket.lastRefill);
      BurstGranted(r.bucket, n - 1);
    }
  }

  /** `remaining` is exact: after a call that reports it, that many more calls at the same instant are admitted,
      and no more. */
  lemma RemainingExact(b: Bucket, now: real, n: nat)
    requires Valid(b)
    ensures var r := TryConsume(b, now);
            Admissions(r.bucket, seq(n, _ => now)) == if n <= Remaining(r) then n else Remaining(r)
  {
    BurstGranted(TryConsume(b, now).bucket, n);
  }

  // ---------------------------------------------------------------------------
  // Retry advice
  // ---------------------------------------------------------------------------

  /** Just after a rejection, a call is admitted exactly from the advised instant on. */
  lemma AdviceIsThreshold(b: Bucket, now: real)
    requires Valid(b) && b.tokens < 1.0 && b.lastRefill <= now
    ensures TryConsume(b, now).allowed <==> b.lastRefill + SecondsUntilRefill(b) <= now
  {
    var r, wait, e := b.refillRate, SecondsUntilRefill(b), now - b.lastRefill;
    assert wait * r == 1.0 - b.tokens;
    assert e * r == wait * r + (e - wait) * r;
    if wait <= e {
      assert 0.0 <= (e - wait) * r;
    } else {
      assert 0.0 < (wait - e) * r;
      assert (e - wait) * r == -((wait - e) * r);
    }
  }

  /** Rejected polls do not move the advised instant. */
  lemma PollKeepsAdvice(b: Bucket, poll: real)
    requires Valid(b) && b.tokens < 1.0
    requires b.lastRefill <= poll < b.lastRefill + SecondsUntilRefill(b)
    ensures !TryConsume(b, poll).allowed
    ensures TryConsume(b, poll).bucket == Refill(b, poll)
    ensures poll + SecondsUntilRefill(TryConsume(b, poll).bucket) == b.lastRefill + SecondsUntilRefill(b)
  {
    AdviceIsThreshold(b, poll);
    var c, r := Refill(b, poll), b.refillRate;
    RefillKeepsValid(b, poll);
    assert c.tokens == b.tokens + (poll - b.lastRefill) * r;
    var w1, w2 := SecondsUntilRefill(b), SecondsUntilRefill(c);
    assert w1 * r == 1.0 - b.tokens && w2 * r == 1.0 - c.tokens;
    assert (w1 - w2 - (poll - b.lastRefill)) * r == 0.0;
  }

  /** Retry advice is exact: after a rejection and any number of early polls, the next call is admitted
      if and only if it comes at or after the advised instant. */
  lemma {:induction false} RetryAdviceExact(b: Bucket, polls: seq<real>, now: real)
    requires Valid(b) && b.tokens < 1.0
    requires Ordered(b.lastRefill, polls + [now])
    requires forall i :: 0 <= i < |polls| ==> polls[i] < b.lastRefill + SecondsUntilRefill(b)
    ensures Admissions(b, polls) == 0
    ensures TryConsume(After(b, polls), now).allowed <==> b.lastRefill + SecondsUntilRefill(b) <= now
    decreases |polls|
  {
    if polls == [] {
      assert polls + [now] == [now];
      AdviceIsThreshold(b, now);
    } else {
      assert (polls + [now])[1..] == polls[1..] + [now];
      PollKeepsAdvice(b, polls[0]);
      RetryAdviceExact(TryConsume(b, polls[0]).bucket, polls[1..], now);
    }
  }

  // ---------------------------------------------------------------------------
  // The mutable bucket
  // ---------------------------------------------------------------------------

  class TokenBucket {
    var tokens: real
    var lastRefill: real
    const maxTokens: u32
    const refillRate: real

    ghost function View(): Bucket
      reads this
    {
      Bucket(tokens, lastRefill, maxTokens, refillRate)
    }

    constructor (maxTokens: u32, windowSecs: nat, now: real)
      ensures View() == NewBucket(maxTokens, windowSecs, now)
    {
      var capacity := AtLeastOne(maxTokens);
      var window := AtLeastOne(windowSecs);
      this.tokens := capacity as real;
      this.lastRefill := now;
      this.maxTokens := capacity;
      this.refillRate := capacity as real / window as real;
    }

    method RefillNow(now: real)
      modifies this
      ensures View() == Refill(old(View()), now)
    {
      var grown := tokens + Elapsed(lastRefill, now) * refillRate;
      tokens := if grown <= maxTokens as real then grown else maxTokens as real;
      lastRefill := now;
    }

    method Take(now: real) returns (allowed: bool, remaining: u32)
      requires Valid(View())
      modifies this
      ensures Valid(View())
      ensures Consumed(View(), allowed) == TryConsume(old(View()), now)
      ensures remaining == Remaining(Consumed(View(), allowed))
    {
      RefillKeepsValid(View(), now);
      RefillNow(now);
      if 1.0 <= tokens {
        tokens := tokens - 1.0;
        allowed, remaining := true, tokens.Floor;
      } else {
        allowed, remaining := false, 0;
      }
    }
  }
}
