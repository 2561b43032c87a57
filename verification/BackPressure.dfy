/** oauth2-resilience/src/back_pressure.rs: a semaphore of permits; a request without a permit is rejected at once. */
module BackPressure {
  import opened Machine

  datatype Limiter = Limiter(max: u32, available: nat, rejected: u32)

  function NewLimiter(maxConcurrent: u32): (l: Limiter)
    ensures 1 <= maxConcurrent ==> l.max == maxConcurrent
    ensures maxConcurrent == 0 ==> l.max == 1
    ensures InFlight(l) == 0 && l.rejected == 0
  {
    var max := if maxConcurrent == 0 then 1 else maxConcurrent;
    Limiter(max, max, 0)
  }

  function TryAcquire(l: Limiter): (Limiter, bool) {
    if 0 < l.available then (l.(available := l.available - 1), true)
    else (l.(rejected := Inc(l.rejected)), false)
  }

  /** A permit is dropped. */
  function Release(l: Limiter): Limiter {
    l.(available := l.available + 1)
  }

  /** `saturating_sub`. */
  function InFlight(l: Limiter): nat {
    if l.available <= l.max then l.max - l.available else 0
  }

  // ---------------------------------------------------------------------------
  // Runs of one limiter. A request drops a permit only if it holds one.
  // ---------------------------------------------------------------------------

  datatype Op<R> = Acquire(request: R) | Drop(request: R)

  datatype Pool<!R> = Pool(limiter: Limiter, held: multiset<R>)

  function Step<R>(p: Pool<R>, op: Op<R>): Pool<R> {
    match op
    case Acquire(r) =>
      var (l, ok) := TryAcquire(p.limiter);
      Pool(l, if ok then p.held + multiset{r} else p.held)
    case Drop(r) => if r in p.held then Pool(Release(p.limiter), p.held - multiset{r}) else p
  }

  function Run<R>(p: Pool<R>, ops: seq<Op<R>>): Pool<R>
    decreases |ops|
  {
    if ops == [] then p else Run(Step(p, ops[0]), ops[1..])
  }

  function Answers<R>(p: Pool<R>, ops: seq<Op<R>>): seq<bool>
    decreases |ops|
  {
    if ops == [] then []
    else (if ops[0].Acquire? then [TryAcquire(p.limiter).1] else []) + Answers(Step(p, ops[0]), ops[1..])
  }

  function Rejections(answers: seq<bool>): nat {
    if answers == [] then 0 else (if answers[0] then 0 else 1) + Rejections(answers[1..])
  }

  /** Every permit is either free or held. */
  ghost predicate Balanced<R>(p: Pool<R>) {
    p.limiter.available + |p.held| == p.limiter.max
  }

  lemma StepBalanced<R>(p: Pool<R>, op: Op<R>)
    requires Balanced(p)
    ensures Balanced(Step(p, op)) && Step(p, op).limiter.max == p.limiter.max
    ensures op.Acquire? ==> (TryAcquire(p.limiter).1 <==> |p.held| < p.limiter.max)
  {
    if op.Drop? && op.request in p.held {
      assert p.held == (p.held - multiset{op.request}) + multiset{op.request};
    }
  }

  lemma {:induction false} RunBalanced<R>(p: Pool<R>, ops: seq<Op<R>>)
    requires Balanced(p)
    ensures Balanced(Run(p, ops)) && Run(p, ops).limiter.max == p.limiter.max
    decreases |ops|
  {
    if ops != [] {
      StepBalanced(p, ops[0]);
      RunBalanced(Step(p, ops[0]), ops[1..]);
    }
  }

  lemma StepRejections<R>(p: Pool<R>, ops: seq<Op<R>>)
    requires ops != []
    ensures var rejected := ops[0].Acquire? && p.limiter.available == 0;
            && Step(p, ops[0]).limiter.rejected == (if rejected then Inc(p.limiter.rejected) else p.limiter.rejected)
            && Rejections(Answers(p, ops))
               == (if rejected then 1 else 0) + Rejections(Answers(Step(p, ops[0]), ops[1..]))
  {
    var rest := Answers(Step(p, ops[0]), ops[1..]);
    assert Answers(p, ops) == rest || Answers(p, ops)[1..] == rest;
  }

  lemma {:induction false} RejectionsCounted<R>(p: Pool<R>, ops: seq<Op<R>>)
    ensures Run(p, ops).limiter.rejected == Advance(p.limiter.rejected, Rejections(Answers(p, ops)))
    decreases |ops|
  {
    if ops != [] {
      StepRejections(p, ops);
      RejectionsCounted(Step(p, ops[0]), ops[1..]);
    }
  }

  /** Conservation of permits over every run: the in-flight gauge is the number of permits held, which never
      exceeds the limit; a request is rejected exactly at the limit; and every rejection is counted. */
  lemma PermitLedger<R>(p: Pool<R>, ops: seq<Op<R>>)
    requires Balanced(p)
    ensures var q := Run(p, ops);
            && q.limiter.max == p.limiter.max
            && InFlight(q.limiter) == |q.held| <= q.limiter.max
            && (TryAcquire(q.limiter).1 <==> |q.held| < q.limiter.max)
            && q.limiter.rejected == Advance(p.limiter.rejected, Rejections(Answers(p, ops)))
  {
    RunBalanced(p, ops);
    RejectionsCounted(p, ops);
  }

  class ConcurrencyLimiter {
    const maxConcurrent: u32
    var permits: nat
    var rejectedTotal: u32

    ghost function View(): Limiter
      reads this
    {
      Limiter(maxConcurrent, permits, rejectedTotal)
    }

    constructor (maxConcurrent: u32)
      ensures View() == NewLimiter(maxConcurrent)
    {
      var max := if maxConcurrent == 0 then 1 else maxConcurrent;
      this.maxConcurrent := max;
      permits := max;
      rejectedTotal := 0;
    }

    method AcquireNow() returns (granted: bool)
      modifies this
      ensures (View(), granted) == TryAcquire(old(View()))
    {
      if 0 < permits {
        permits := permits - 1;
        granted := true;
      } else {
        rejectedTotal := Inc(rejectedTotal);
        granted := false;
      }
    }

    method DropPermit()
      modifies this
      ensures View() == Release(old(View()))
    {
      permits := permits + 1;
    }
  }
}
