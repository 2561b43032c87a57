/** crates/oauth2-actix/src/actors/auth_actor.rs: the store of pushed authorization requests (RFC 9126). The
    generated `request_uri` is a parameter of the store operation. */
module ParStore {
  import opened Machine

  const PAR_TTL_SECS: nat := 60

  datatype Entry = Entry(clientId: string, params: map<string, string>, createdAt: real)

  type Store = map<string, Entry>

  /** `created_at.elapsed().as_secs() < ttl`, in whole seconds. */
  predicate Alive(e: Entry, now: real) {
    Elapsed(e.createdAt, now).Floor < PAR_TTL_SECS
  }

  function Retain(s: Store, now: real): Store {
    map u | u in s && Alive(s[u], now) :: s[u]
  }

  datatype Op =
    | Push(uri: string, clientId: string, params: map<string, string>, at: real)
    | Take(uri: string, at: real)

  function Step(s: Store, op: Op): Store {
    match op
    case Push(uri, clientId, params, at) => Retain(s, at)[uri := Entry(clientId, params, at)]
    case Take(uri, at) => Retain(s, at) - {uri}
  }

  /** What a `GetPARRequest` returns. */
  function Answer(s: Store, uri: string, now: real): Option<Entry> {
    var kept := Retain(s, now);
    if uri in kept then Some(kept[uri]) else None
  }

  function Run(ops: seq<Op>): Store {
    if ops == [] then map[] else Step(Run(ops[..|ops| - 1]), ops[|ops| - 1])
  }

  ghost predicate InOrder(ops: seq<Op>) {
    forall i, j :: 0 <= i < j < |ops| ==> ops[i].at <= ops[j].at
  }

  /** The reference: a store that never evicts. It holds what was pushed under the uri and not taken since. */
  function NeverEvicted(ops: seq<Op>, uri: string): Option<Entry> {
    if ops == [] then None else
    var last := ops[|ops| - 1];
    if last.uri != uri then NeverEvicted(ops[..|ops| - 1], uri)
    else if last.Push? then Some(Entry(last.clientId, last.params, last.at))
    else None
  }

  /** The reference answers an entry only while it is alive. */
  function ReferenceAnswer(ops: seq<Op>, uri: string, now: real): Option<Entry> {
    var e := NeverEvicted(ops, uri);
    if e.Some? && Alive(e.value, now) then e else None
  }

  /** What the evicting store has lost is dead by `now`. */
  ghost predicate Agrees(ops: seq<Op>, uri: string, now: real) {
    var s, e := Run(ops), NeverEvicted(ops, uri);
    && (uri in s ==> e == Some(s[uri]))
    && (e.Some? && Alive(e.value, now) ==> uri in s)
  }

  lemma {:induction false} StoreAgrees(ops: seq<Op>, uri: string, now: real)
    requires InOrder(ops) && (ops != [] ==> ops[|ops| - 1].at <= now)
    ensures Agrees(ops, uri, now)
    decreases |ops|
  {
    if ops != [] {
      var init, last := ops[..|ops| - 1], ops[|ops| - 1];
      StoreAgrees(init, uri, last.at);
      var e := NeverEvicted(init, uri);
      if e.Some? && Alive(e.value, now) {
        assert Elapsed(e.value.createdAt, last.at) <= Elapsed(e.value.createdAt, now);
      }
    }
  }

  /** Eager eviction is unobservable: after every run the store answers what a never-evicting store answers. */
  lemma {:induction false} EvictionUnobservable(ops: seq<Op>, uri: string, now: real)
    requires InOrder(ops) && (ops != [] ==> ops[|ops| - 1].at <= now)
    ensures Answer(Run(ops), uri, now) == ReferenceAnswer(ops, uri, now)
  {
    StoreAgrees(ops, uri, now);
  }

  /** And eager: right after any operation the store holds no request that was pushed 60 seconds ago or earlier. */
  lemma NothingDeadIsKept(ops: seq<Op>, uri: string)
    requires ops != [] && uri in Run(ops) && InOrder(ops)
    ensures ops[|ops| - 1].at - Run(ops)[uri].createdAt < 60.0
  {}

  lemma {:induction false} PushedBefore(ops: seq<Op>, uri: string) returns (i: nat)
    requires NeverEvicted(ops, uri).Some?
    ensures i < |ops| && ops[i].Push? && ops[i].uri == uri
    ensures NeverEvicted(ops, uri).value == Entry(ops[i].clientId, ops[i].params, ops[i].at)
    ensures forall j :: i < j < |ops| ==> ops[j].uri != uri
    decreases |ops|
  {
    var last := ops[|ops| - 1];
    if last.uri == uri {
      i := |ops| - 1;
    } else {
      i := PushedBefore(ops[..|ops| - 1], uri);
    }
  }

  /** Time-bounded and authentic: whatever is returned was pushed under that uri less than 60 seconds ago, with
      exactly this client and these parameters, and the uri was not used since. */
  lemma AnswerWasPushed(ops: seq<Op>, uri: string, now: real) returns (i: nat)
    requires InOrder(ops) && (ops != [] ==> ops[|ops| - 1].at <= now)
    requires Answer(Run(ops), uri, now).Some?
    ensures i < |ops| && ops[i].Push? && ops[i].uri == uri
    ensures Answer(Run(ops), uri, now).value == Entry(ops[i].clientId, ops[i].params, ops[i].at)
    ensures now - ops[i].at < 60.0
    ensures forall j :: i < j < |ops| ==> ops[j].uri != uri
  {
    EvictionUnobservable(ops, uri, now);
    i := PushedBefore(ops, uri);
  }

  /** And a live pushed request is returned: the answer is there within the 60 seconds unless it was taken. */
  lemma {:induction false} LivePushIsReturned(ops: seq<Op>, i: nat, now: real)
    requires InOrder(ops) && i < |ops| && ops[|ops| - 1].at <= now
    requires ops[i].Push? && now - ops[i].at < 60.0
    requires forall j :: i < j < |ops| ==> ops[j].uri != ops[i].uri
    ensures Answer(Run(ops), ops[i].uri, now) == Some(Entry(ops[i].clientId, ops[i].params, ops[i].at))
  {
    EvictionUnobservable(ops, ops[i].uri, now);
    StillPending(ops, i);
  }

  lemma {:induction false} StillPending(ops: seq<Op>, i: nat)
    requires i < |ops| && ops[i].Push? && forall j :: i < j < |ops| ==> ops[j].uri != ops[i].uri
    ensures NeverEvicted(ops, ops[i].uri) == Some(Entry(ops[i].clientId, ops[i].params, ops[i].at))
    decreases |ops|
  {
    if i < |ops| - 1 {
      StillPending(ops[..|ops| - 1], i);
    }
  }

  /** Uris are fresh: none is pushed twice. */
  ghost predicate FreshUris(ops: seq<Op>) {
    forall i, j :: 0 <= i < j < |ops| && ops[i].Push? && ops[j].Push? ==> ops[i].uri != ops[j].uri
  }

  /** Single use: once a request has been returned, no later request for its uri returns anything. */
  lemma {:induction false} SingleUse(ops: seq<Op>, first: nat, uri: string, now: real)
    requires InOrder(ops) && FreshUris(ops) && first < |ops| && ops[|ops| - 1].at <= now
    requires ops[first] == Take(uri, ops[first].at)
    requires Answer(Run(ops[..first]), uri, ops[first].at).Some?
    ensures Answer(Run(ops), uri, now).None?
  {
    if Answer(Run(ops), uri, now).Some? {
      var pushed := AnswerWasPushed(ops[..first], uri, ops[first].at);
      var again := AnswerWasPushed(ops, uri, now);
      assert false;
    }
  }

  class AuthActor {
    var parStore: Store

    constructor ()
      ensures parStore == map[]
    {
      parStore := map[];
    }

    method RetainAlive(now: real)
      modifies this
      ensures parStore == Retain(old(parStore), now)
    {
      var pending := parStore.Keys;
      while pending != {}
        invariant pending <= parStore.Keys <= old(parStore).Keys
        invariant forall u :: u in parStore ==> parStore[u] == old(parStore)[u]
        invariant forall u :: u in old(parStore) && u !in pending ==>
                    (u in parStore <==> Alive(old(parStore)[u], now))
        decreases |pending|
      {
        var u :| u in pending;
        pending := pending - {u};
        if !(Elapsed(parStore[u].createdAt, now).Floor < PAR_TTL_SECS) {
          parStore := parStore - {u};
        }
      }
    }

    method StorePAR(uri: string, clientId: string, params: map<string, string>, now: real)
      modifies this
      ensures parStore == Step(old(parStore), Push(uri, clientId, params, now))
    {
      RetainAlive(now);
      parStore := parStore[uri := Entry(clientId, params, now)];
    }

    method GetPAR(uri: string, now: real) returns (entry: Option<Entry>)
      modifies this
      ensures parStore == Step(old(parStore), Take(uri, now))
      ensures entry == Answer(old(parStore), uri, now)
    {
      RetainAlive(now);
      entry := if uri in parStore then Some(parStore[uri]) else None;
      parStore := parStore - {uri};
    }
  }
}
