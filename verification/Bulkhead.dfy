/** oauth2-resilience/src/bulkhead.rs: concurrency pools selected by the first matching path prefix. */
module Bulkheads {
  import opened Machine
  import BP = BackPressure

  datatype BulkheadConfig = BulkheadConfig(name: string, pathPrefix: string, maxConcurrent: u32)

  datatype BulkheadSnapshot = BulkheadSnapshot(name: string, inFlight: nat, maxConcurrent: u32, rejectedTotal: u32)

  /** The index of the first prefix that `path` starts with. */
  function FirstMatch(prefixes: seq<string>, path: string): (r: Option<nat>)
    ensures r.Some? ==> r.value < |prefixes| && prefixes[r.value] <= path
    ensures r.Some? ==> forall i :: 0 <= i < r.value ==> !(prefixes[i] <= path)
    ensures r.None? ==> forall i :: 0 <= i < |prefixes| ==> !(prefixes[i] <= path)
  {
    if prefixes == [] then None
    else if prefixes[0] <= path then Some(0)
    else
      var rest := FirstMatch(prefixes[1..], path);
      if rest.Some? then Some(rest.value + 1) else None
  }

  function Prefixes(configs: seq<BulkheadConfig>): seq<string> {
    seq(|configs|, i requires 0 <= i < |configs| => configs[i].pathPrefix)
  }

  function NewLimiters(configs: seq<BulkheadConfig>): seq<BP.Limiter> {
    seq(|configs|, i requires 0 <= i < |configs| => BP.NewLimiter(configs[i].maxConcurrent))
  }

  // ---------------------------------------------------------------------------
  // Runs of the whole registry
  // ---------------------------------------------------------------------------

  /** A request for `path`; the id tells requests for the same path apart. */
  datatype Request = Request(id: nat, path: string)

  datatype Registry = Registry(prefixes: seq<string>, limiters: seq<BP.Limiter>, held: multiset<Request>)

  ghost predicate Valid(g: Registry) {
    |g.prefixes| == |g.limiters|
  }

  function NewRegistry(configs: seq<BulkheadConfig>): (g: Registry)
    ensures Valid(g)
  {
    Registry(Prefixes(configs), NewLimiters(configs), multiset{})
  }

  /** The pool a request's operations go to. */
  function PoolOf(g: Registry, op: BP.Op<Request>): Option<nat> {
    FirstMatch(g.prefixes, op.request.path)
  }

  function Step(g: Registry, op: BP.Op<Request>): (r: Registry)
    requires Valid(g)
    ensures Valid(r) && r.prefixes == g.prefixes
  {
    match PoolOf(g, op)
    case None => g
    case Some(p) =>
      match op
      case Acquire(r) =>
        var (l, ok) := BP.TryAcquire(g.limiters[p]);
        g.(limiters := g.limiters[p := l], held := if ok then g.held + multiset{r} else g.held)
      case Drop(r) =>
        if r in g.held
        then g.(limiters := g.limiters[p := BP.Release(g.limiters[p])], held := g.held - multiset{r})
        else g
  }

  function Run(g: Registry, ops: seq<BP.Op<Request>>): (r: Registry)
    requires Valid(g)
    ensures Valid(r) && r.prefixes == g.prefixes
    decreases |ops|
  {
    if ops == [] then g else Run(Step(g, ops[0]), ops[1..])
  }

  /** Whether a permit is granted; no pool, no permit. */
  function Granted(g: Registry, path: string): bool
    requires Valid(g)
  {
    var p := FirstMatch(g.prefixes, path);
    p.Some? && BP.TryAcquire(g.limiters[p.value]).1
  }

  /** The answers to the requests of pool p. */
  function PoolAnswers(g: Registry, ops: seq<BP.Op<Request>>, p: nat): seq<bool>
    requires Valid(g)
    decreases |ops|
  {
    if ops == [] then []
    else (if ops[0].Acquire? && PoolOf(g, ops[0]) == Some(p) then [Granted(g, ops[0].request.path)] else [])
         + PoolAnswers(Step(g, ops[0]), ops[1..], p)
  }

  /** The operations whose path first-matches the prefix of pool p. */
  function OpsOf(prefixes: seq<string>, ops: seq<BP.Op<Request>>, p: nat): seq<BP.Op<Request>> {
    if ops == [] then []
    else (if FirstMatch(prefixes, ops[0].request.path) == Some(p) then [ops[0]] else [])
         + OpsOf(prefixes, ops[1..], p)
  }

  // ---------------------------------------------------------------------------
  // Non-interference
  // ---------------------------------------------------------------------------

  /** Pool p of the registry looks like the lone pool. */
  ghost predicate Coupled(g: Registry, p: nat, lone: BP.Pool<Request>) {
    && Valid(g) && p < |g.limiters|
    && lone.limiter == g.limiters[p]
    && forall r: Request :: FirstMatch(g.prefixes, r.path) == Some(p) ==> lone.held[r] == g.held[r]
  }

  lemma StepCoupled(g: Registry, p: nat, lone: BP.Pool<Request>, op: BP.Op<Request>)
    requires Coupled(g, p, lone)
    ensures Coupled(Step(g, op), p, if PoolOf(g, op) == Some(p) then BP.Step(lone, op) else lone)
  {}

  lemma {:induction false} RunCoupled(g: Registry, p: nat, lone: BP.Pool<Request>, ops: seq<BP.Op<Request>>)
    requires Coupled(g, p, lone)
    ensures Coupled(Run(g, ops), p, BP.Run(lone, OpsOf(g.prefixes, ops, p)))
    ensures PoolAnswers(g, ops, p) == BP.Answers(lone, OpsOf(g.prefixes, ops, p))
    decreases |ops|
  {
    if ops != [] {
      StepCoupled(g, p, lone, ops[0]);
      var rest := OpsOf(g.prefixes, ops[1..], p);
      if PoolOf(g, ops[0]) == Some(p) {
        RunCoupled(Step(g, ops[0]), p, BP.Step(lone, ops[0]), ops[1..]);
        assert OpsOf(g.prefixes, ops, p)[1..] == rest;
      } else {
        RunCoupled(Step(g, ops[0]), p, lone, ops[1..]);
        assert OpsOf(g.prefixes, ops, p) == rest;
        assert PoolAnswers(g, ops, p) == PoolAnswers(Step(g, ops[0]), ops[1..], p);
      }
    }
  }

  /** Non-interference: in every run of acquires and drops, the answers and counters of a pool are those of a
      lone limiter that sees only the operations whose path first-matches the pool's prefix. */
  lemma {:induction false} PoolsDoNotInterfere(configs: seq<BulkheadConfig>, ops: seq<BP.Op<Request>>, p: nat)
    requires p < |configs|
    ensures var mine := OpsOf(Prefixes(configs), ops, p);
            var lone := BP.Pool(BP.NewLimiter(configs[p].maxConcurrent), multiset{});
            var g := Run(NewRegistry(configs), ops);
            && |g.limiters| == |configs|
            && g.limiters[p] == BP.Run(lone, mine).limiter
            && PoolAnswers(NewRegistry(configs), ops, p) == BP.Answers(lone, mine)
  {
    var g := NewRegistry(configs);
    RunCoupled(g, p, BP.Pool(BP.NewLimiter(configs[p].maxConcurrent), multiset{}), ops);
    SameLength(g, ops);
  }

  lemma {:induction false} SameLength(g: Registry, ops: seq<BP.Op<Request>>)
    requires Valid(g)
    ensures |Run(g, ops).limiters| == |g.limiters|
    decreases |ops|
  {
    if ops != [] {
      SameLength(Step(g, ops[0]), ops[1..]);
    }
  }

  /** Configuration p is the first whose prefix the path starts with. */
  ghost predicate Routes(configs: seq<BulkheadConfig>, path: string, p: nat) {
    && p < |configs| && configs[p].pathPrefix <= path
    && forall i :: 0 <= i < p ==> !(configs[i].pathPrefix <= path)
  }

  lemma RoutesIsFirstMatch(configs: seq<BulkheadConfig>, path: string, p: nat)
    ensures Routes(configs, path, p) <==> FirstMatch(Prefixes(configs), path) == Some(p)
  {
    var prefixes := Prefixes(configs);
    assert forall i :: 0 <= i < |configs| ==> prefixes[i] == configs[i].pathPrefix;
    if Routes(configs, path, p) {
      assert prefixes[p] <= path;
    }
  }

  /** The requests of pool p that hold a permit after the run: those admitted, less those that dropped it. */
  function HeldBy(configs: seq<BulkheadConfig>, ops: seq<BP.Op<Request>>, p: nat): multiset<Request>
    requires p < |configs|
  {
    BP.Run(BP.Pool(BP.NewLimiter(configs[p].maxConcurrent), multiset{}), OpsOf(Prefixes(configs), ops, p)).held
  }

  /** So a surge elsewhere cannot starve a pool: it stays within its configured limit (at least one) and rejects only
      when its own requests hold every one of its permits. */
  lemma PoolRejectsOnlyAtItsLimit(configs: seq<BulkheadConfig>, ops: seq<BP.Op<Request>>, p: nat, path: string)
    requires Routes(configs, path, p)
    ensures var limit := if configs[p].maxConcurrent == 0 then 1 else configs[p].maxConcurrent;
            var lone := BP.Pool(BP.NewLimiter(configs[p].maxConcurrent), multiset{});
            var g := Run(NewRegistry(configs), ops);
            && |g.limiters| == |configs| && g.limiters[p].max == limit
            && BP.InFlight(g.limiters[p]) == |HeldBy(configs, ops, p)| <= limit
            && (Granted(g, path) <==> |HeldBy(configs, ops, p)| < limit)
            && g.limiters[p].rejected
               == Advance(0, BP.Rejections(BP.Answers(lone, OpsOf(Prefixes(configs), ops, p))))
  {
    RoutesIsFirstMatch(configs, path, p);
    PoolsDoNotInterfere(configs, ops, p);
    BP.PermitLedger(BP.Pool(BP.NewLimiter(configs[p].maxConcurrent), multiset{}), OpsOf(Prefixes(configs), ops, p));
  }

  /** A request whose path starts with no configured prefix gets no permit and changes nothing. */
  lemma UnroutedChangesNothing(configs: seq<BulkheadConfig>, g: Registry, op: BP.Op<Request>)
    requires Valid(g) && g.prefixes == Prefixes(configs)
    requires forall i :: 0 <= i < |configs| ==> !(configs[i].pathPrefix <= op.request.path)
    ensures Step(g, op) == g && !Granted(g, op.request.path)
  {
    assert forall i :: 0 <= i < |configs| ==> g.prefixes[i] == configs[i].pathPrefix;
  }

  // ---------------------------------------------------------------------------
  // Metric names
  // ---------------------------------------------------------------------------

  /** The prefix-to-name map: later entries overwrite earlier ones. */
  function Names(configs: seq<BulkheadConfig>): map<string, string> {
    if configs == [] then map[] else
    var last := configs[|configs| - 1];
    Names(configs[..|configs| - 1])[last.pathPrefix := last.name]
  }

  /** A pool is reported under its own name if and only if the last configuration with its prefix has that name. */
  lemma {:induction false} NameOfPool(configs: seq<BulkheadConfig>, p: nat, last: nat)
    requires p <= last < |configs| && configs[last].pathPrefix == configs[p].pathPrefix
    requires forall i :: last < i < |configs| ==> configs[i].pathPrefix != configs[p].pathPrefix
    ensures configs[p].pathPrefix in Names(configs)
    ensures Names(configs)[configs[p].pathPrefix] == configs[last].name
    decreases |configs|
  {
    if last < |configs| - 1 {
      NameOfPool(configs[..|configs| - 1], p, last);
    }
  }

  // ---------------------------------------------------------------------------
  // The shared mutable registry
  // ---------------------------------------------------------------------------

  class BulkheadRegistry {
    var bulkheads: seq<(string, BP.ConcurrencyLimiter)>
    var prefixToName: map<string, string>

    ghost function Objects(): set<object>
      reads this
    {
      set i | 0 <= i < |bulkheads| :: bulkheads[i].1
    }

    /** Every pool has a limiter of its own. */
    ghost predicate Separate()
      reads this
    {
      forall i, j :: 0 <= i < j < |bulkheads| ==> bulkheads[i].1 != bulkheads[j].1
    }

    ghost function PrefixView(): seq<string>
      reads this
    {
      seq(|bulkheads|, i requires 0 <= i < |bulkheads| reads this => bulkheads[i].0)
    }

    ghost function View(): seq<BP.Limiter>
      reads this, Objects()
    {
      seq(|bulkheads|, i requires 0 <= i < |bulkheads| reads this, Objects() => bulkheads[i].1.View())
    }

    constructor FromConfigs(configs: seq<BulkheadConfig>)
      ensures Separate() && fresh(Objects())
      ensures PrefixView() == Prefixes(configs) && View() == NewLimiters(configs)
      ensures prefixToName == Names(configs)
    {
      var pools: seq<(string, BP.ConcurrencyLimiter)> := [];
      var names: map<string, string> := map[];
      for i := 0 to |configs|
        invariant |pools| == i && names == Names(configs[..i])
        invariant forall j, k :: 0 <= j < k < i ==> pools[j].1 != pools[k].1
        invariant forall k :: 0 <= k < i ==> fresh(pools[k].1) && pools[k].0 == configs[k].pathPrefix
        invariant forall k :: 0 <= k < i ==> pools[k].1.View() == BP.NewLimiter(configs[k].maxConcurrent)
      {
        names := names[configs[i].pathPrefix := configs[i].name];
        var limiter := new BP.ConcurrencyLimiter(configs[i].maxConcurrent);
        pools := pools + [(configs[i].pathPrefix, limiter)];
        assert configs[..i + 1][..i] == configs[..i];
      }
      assert configs[..|configs|] == configs;
      bulkheads := pools;
      prefixToName := names;
    }

    /** `bulkheads.iter().find(...)` */
    method Find(path: string) returns (p: Option<nat>)
      ensures p == FirstMatch(PrefixView(), path)
    {
      ghost var prefixes := PrefixView();
      for i := 0 to |bulkheads|
        invariant forall k :: 0 <= k < i ==> !(prefixes[k] <= path)
      {
        if bulkheads[i].0 <= path {
          assert prefixes[i] <= path;
          return Some(i);
        }
      }
      return None;
    }

    method AcquireFor(path: string) returns (name: string, granted: bool)
      requires Separate()
      modifies Objects()
      ensures PrefixView() == old(PrefixView())
      ensures var p := FirstMatch(PrefixView(), path);
              match p
              case None => View() == old(View()) && name == "none" && !granted
              case Some(i) =>
                var (l, ok) := BP.TryAcquire(old(View())[i]);
                && View() == old(View())[i := l] && granted == ok
                && name == (if PrefixView()[i] in prefixToName then prefixToName[PrefixView()[i]] else PrefixView()[i])
    {
      var p := Find(path);
      match p
      case None => name, granted := "none", false;
      case Some(i) =>
        granted := bulkheads[i].1.AcquireNow();
        name := if bulkheads[i].0 in prefixToName then prefixToName[bulkheads[i].0] else bulkheads[i].0;
    }

    method Snapshots() returns (snaps: seq<BulkheadSnapshot>)
      ensures |snaps| == |bulkheads|
      ensures forall i :: 0 <= i < |snaps| ==>
                var l := View()[i];
                snaps[i] == BulkheadSnapshot(
                  if bulkheads[i].0 in prefixToName then prefixToName[bulkheads[i].0] else bulkheads[i].0,
                  BP.InFlight(l), l.max, l.rejected)
    {
      snaps := [];
      for i := 0 to |bulkheads|
        invariant |snaps| == i
        invariant forall k :: 0 <= k < i ==>
                    var l := View()[k];
                    snaps[k] == BulkheadSnapshot(
                      if bulkheads[k].0 in prefixToName then prefixToName[bulkheads[k].0] else bulkheads[k].0,
                      BP.InFlight(l), l.max, l.rejected)
      {
        var (prefix, limiter) := bulkheads[i];
        var inFlight := if limiter.permits <= limiter.maxConcurrent then limiter.maxConcurrent - limiter.permits else 0;
        snaps := snaps + [BulkheadSnapshot(if prefix in prefixToName then prefixToName[prefix] else prefix,
                                           inFlight, limiter.maxConcurrent, limiter.rejectedTotal)];
      }
    }
  }
}
