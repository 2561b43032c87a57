/** crates/oauth2-actix/src/actors/client_actor.rs: materializing clients described by a Client ID Metadata
    Document (CIMD), one whole message at a time. */
module CimdClients {
  import opened Machine

  const CLIENT_CACHE_TTL_SECS: real := 300.0

  /** The columns the document owns: those `cimd_row_matches` compares. */
  datatype Document = Document(
    redirectUris: string, grantTypes: string, scope: string, name: string, authMethod: string,
    responseTypes: string, jwks: string, jwksUri: string, clientUri: string, logoUri: string)

  /** The columns the operator owns: those `preserve_operator_state` carries over. */
  datatype Operator = Operator(
    id: string, enabled: bool, allowedActors: string, dpopNonceRequired: bool, registrationAccessToken: string,
    requireState: bool, tlsSan: string, tlsSubjectDn: string, softwareId: string, softwareVersion: string)

  /** The remaining columns `update_client` writes. */
  datatype Extra = Extra(
    contacts: string, policyUri: string, tosUri: string, backchannelUri: string, backchannelSession: bool,
    frontchannelUri: string, frontchannelSession: bool, postLogoutUris: string, updatedAt: real)

  datatype Client = Client(
    clientId: string, secret: string, doc: Document, op: Operator, extra: Extra, createdAt: real, cimdManaged: bool)

  /** The clients table by its unique client_id. */
  type Rows = map<string, Client>

  predicate RowMatches(stored: Client, doc: Client) {
    stored.doc == doc.doc && stored.cimdManaged
  }

  function PreserveOperatorState(doc: Client, existing: Client): Client {
    doc.(op := existing.op)
  }

  /** INSERT: client_id is unique and id is the primary key. */
  predicate CanInsert(rows: Rows, c: Client) {
    c.clientId !in rows && forall k :: k in rows ==> rows[k].op.id != c.op.id
  }

  /** UPDATE: every column but id, client_id, created_at and require_state. */
  function Updated(row: Client, c: Client): Client {
    c.(clientId := row.clientId, createdAt := row.createdAt,
       op := c.op.(id := row.op.id, requireState := row.op.requireState))
  }

  function CountCimd(rows: Rows): nat {
    |set k | k in rows && rows[k].cimdManaged|
  }

  /** A row a metadata document must never take over. */
  predicate Foreign(row: Client) {
    row.secret != "" || !row.cimdManaged
  }

  datatype Reply = Ok(cached: Client) | AlreadyRegistered | RegistryFull | SaveFailed

  /** The database part of the handler, undisturbed. */
  function Materialize(rows: Rows, msg: Client, maxClients: nat): (Rows, Reply) {
    var client := msg.(cimdManaged := true);
    if client.clientId in rows then
      var existing := rows[client.clientId];
      if Foreign(existing) then (rows, AlreadyRegistered) else
      var kept := PreserveOperatorState(client, existing);
      if RowMatches(existing, kept) then (rows, Ok(kept))
      else (rows[client.clientId := Updated(existing, kept)], Ok(kept))
    else if 0 < maxClients && maxClients <= CountCimd(rows) then (rows, RegistryFull)
    else if CanInsert(rows, client) then (rows[client.clientId := client], Ok(client))
    else (rows, SaveFailed)
  }

  // ---------------------------------------------------------------------------
  // The actor with its cache
  // ---------------------------------------------------------------------------

  datatype CachedClient = CachedClient(client: Client, insertedAt: real)

  datatype Actor = Actor(rows: Rows, cache: map<string, CachedClient>)

  /** The handler. `delivered` is whether the message that fills the cache got into the mailbox. */
  function Handle(a: Actor, msg: Client, maxClients: nat, now: real, delivered: bool): Actor {
    var k := msg.clientId;
    var alive := k in a.cache && Elapsed(a.cache[k].insertedAt, now) < CLIENT_CACHE_TTL_SECS;
    if alive && RowMatches(a.cache[k].client, msg) then a else
    var cache := if alive then a.cache else a.cache - {k};
    var (rows, reply) := Materialize(a.rows, msg, maxClients);
    Actor(rows,
          if reply.Ok? && delivered then cache[reply.cached.clientId := CachedClient(reply.cached, now)] else cache)
  }

  /** A message, or what others do to the table and the cache in between: an operator (or the registration
      endpoint) writes or deletes a row, the cache loses an entry. */
  datatype Event =
    | Message(client: Client, maxClients: nat, now: real, delivered: bool)
    | OperatorWrite(clientId: string, row: Client)
    | OperatorDelete(clientId: string)
    | CacheEvict(clientId: string)

  function Step(a: Actor, ev: Event): Actor {
    match ev
    case Message(c, m, now, delivered) => Handle(a, c, m, now, delivered)
    case OperatorWrite(k, row) => a.(rows := a.rows[k := row])
    case OperatorDelete(k) => a.(rows := a.rows - {k})
    case CacheEvict(k) => a.(cache := a.cache - {k})
  }

  function Run(a: Actor, evs: seq<Event>): Actor
    decreases |evs|
  {
    if evs == [] then a else Run(Step(a, evs[0]), evs[1..])
  }

  // ---------------------------------------------------------------------------
  // Ownership
  // ---------------------------------------------------------------------------

  /** From row to row' without an operator's hand: operator state kept, and foreign rows untouched. */
  ghost predicate Respects(row: Client, row': Client) {
    row'.op == row.op && (Foreign(row) ==> row' == row)
  }

  lemma StepRespects(a: Actor, ev: Event, k: string)
    requires k in a.rows && ev != OperatorDelete(k) && !(ev.OperatorWrite? && ev.clientId == k)
    ensures k in Step(a, ev).rows && Respects(a.rows[k], Step(a, ev).rows[k])
  {}

  predicate LeavesAlone(evs: seq<Event>, k: string) {
    forall i :: 0 <= i < |evs| ==> evs[i] != OperatorDelete(k) && !(evs[i].OperatorWrite? && evs[i].clientId == k)
  }

  /** Ownership: over every serial run, a row that no operator touches keeps its operator state through any number of
      materializations of its own and other documents, and a row with a secret or not created by this mechanism
      does not change at all. */
  lemma {:induction false} OwnershipKept(a: Actor, evs: seq<Event>, k: string)
    requires k in a.rows && LeavesAlone(evs, k)
    ensures k in Run(a, evs).rows && Respects(a.rows[k], Run(a, evs).rows[k])
    decreases |evs|
  {
    if evs != [] {
      assert evs[0] != OperatorDelete(k);
      StepRespects(a, evs[0], k);
      OwnershipKept(Step(a, evs[0]), evs[1..], k);
    }
  }

  /** When each reply is given: a document is refused exactly if its client id belongs to somebody else, if it is new
      and the registry is full, or if its row id is taken; every other document is accepted. */
  lemma ReplyMeaning(rows: Rows, msg: Client, maxClients: nat)
    ensures var reply := Materialize(rows, msg, maxClients).1;
            var known := msg.clientId in rows;
            var own := known && rows[msg.clientId].secret == "" && rows[msg.clientId].cimdManaged;
            var room := maxClients == 0 || |set k | k in rows && rows[k].cimdManaged| < maxClients;
            var idTaken := exists k :: k in rows && rows[k].op.id == msg.op.id;
            && (reply.Ok? <==> own || (!known && room && !idTaken))
            && (reply.AlreadyRegistered? <==> known && !own)
            && (reply.RegistryFull? <==> !known && !room)
            && (reply.SaveFailed? <==> !known && room && idTaken)
  {}

  /** What each reply does: a new document becomes a row marked as managed; a changed one replaces the document's
      columns and keeps the operator's and the creation date; an unchanged one and every refusal write nothing. No
      other row changes. */
  lemma WriteMeaning(rows: Rows, msg: Client, maxClients: nat)
    ensures var (rows', reply) := Materialize(rows, msg, maxClients);
            var k := msg.clientId;
            && (!reply.Ok? ==> rows' == rows)
            && (reply.Ok? && k !in rows ==> rows' == rows[k := msg.(cimdManaged := true)])
            && (reply.Ok? && k in rows && rows[k].doc == msg.doc ==> rows' == rows)
            && (reply.Ok? && k in rows && rows[k].doc != msg.doc ==>
                  k in rows' && rows' == rows[k := rows'[k]]
                  && rows'[k] == Client(rows[k].clientId, msg.secret, msg.doc, rows[k].op, msg.extra,
                                        rows[k].createdAt, true))
            && (reply.Ok? ==>
                  && reply.cached.clientId == k && reply.cached.doc == msg.doc && reply.cached.cimdManaged
                  && reply.cached.op == rows'[k].op)
  {
    var rows' := Materialize(rows, msg, maxClients).0;
    if msg.clientId in rows && rows'[msg.clientId] == rows[msg.clientId] {
      assert rows' == rows;
    }
  }

  /** The document is authoritative: after a successful pass over the database the stored row has the document's
      fields and is marked as managed. */
  lemma DocumentStored(rows: Rows, msg: Client, maxClients: nat)
    requires Materialize(rows, msg, maxClients).1.Ok?
    ensures var rows' := Materialize(rows, msg, maxClients).0;
            && msg.clientId in rows' && rows'[msg.clientId].doc == msg.doc && rows'[msg.clientId].cimdManaged
            && forall k :: k in rows && k != msg.clientId ==> k in rows' && rows'[k] == rows[k]
  {}

  /** Re-materializing an unchanged document writes nothing, whatever the cache holds and whatever the limit and
      the time are by then. */
  lemma RefreshWritesNothing(
    rows: Rows, msg: Client, m1: nat, cache: map<string, CachedClient>, m2: nat, now: real, d: bool)
    requires Materialize(rows, msg, m1).1.Ok?
    ensures var rows' := Materialize(rows, msg, m1).0;
            Handle(Actor(rows', cache), msg, m2, now, d).rows == rows'
  {
    DocumentStored(rows, msg, m1);
    var rows' := Materialize(rows, msg, m1).0;
    assert Materialize(rows', msg, m2).0 == rows';
  }

  // ---------------------------------------------------------------------------
  // The cache
  // ---------------------------------------------------------------------------

  /** The cache holds a row that matches the document and is younger than five minutes. */
  predicate Hit(a: Actor, msg: Client, now: real) {
    && msg.clientId in a.cache
    && now < a.cache[msg.clientId].insertedAt + 300.0
    && a.cache[msg.clientId].client.doc == msg.doc && a.cache[msg.clientId].client.cimdManaged
  }

  /** Only a hit spares the database. Otherwise the cache afterwards holds, for this client, a fresh copy of what was
      stored, or what it held before if that is younger than five minutes. */
  lemma CacheMeaning(a: Actor, msg: Client, maxClients: nat, now: real, delivered: bool)
    ensures var (rows', reply) := Materialize(a.rows, msg, maxClients);
            var b := Handle(a, msg, maxClients, now, delivered);
            var k := msg.clientId;
            if Hit(a, msg, now) then b == a
            else
              && b.rows == rows'
              && (reply.Ok? && delivered ==> k in b.cache && b.cache[k] == CachedClient(reply.cached, now))
              && (!(reply.Ok? && delivered) ==>
                    (k in b.cache <==> k in a.cache && now < a.cache[k].insertedAt + 300.0)
                    && (k in b.cache ==> b.cache[k] == a.cache[k]))
              && forall j :: j != k ==> (j in b.cache <==> j in a.cache) && (j in b.cache ==> b.cache[j] == a.cache[j])
  {}

  /** What the cache says about a client is what its row says. */
  ghost predicate CacheTrue(a: Actor, k: string) {
    k in a.cache ==> k in a.rows && !Foreign(a.rows[k]) && a.rows[k].doc == a.cache[k].client.doc
  }

  /** A message without a secret whose result for client k, if it concerns k, reaches the cache. */
  predicate Reaches(ev: Event, k: string) {
    ev.Message? ==> ev.client.secret == "" && (ev.client.clientId == k ==> ev.delivered)
  }

  lemma StepKeepsCacheTrue(a: Actor, ev: Event, k: string)
    requires CacheTrue(a, k) && ev != OperatorDelete(k) && !(ev.OperatorWrite? && ev.clientId == k) && Reaches(ev, k)
    ensures CacheTrue(Step(a, ev), k)
  {
    if ev.Message? {
      CacheMeaning(a, ev.client, ev.maxClients, ev.now, ev.delivered);
      WriteMeaning(a.rows, ev.client, ev.maxClients);
    }
  }

  /** The fast path refines the slow one: over every run in which operators leave the client alone and no cache message
      is lost, a message that is answered from the cache would have been accepted by the database without writing
      anything. */
  lemma {:induction false} FastPathRefinesSlow(
    a: Actor, evs: seq<Event>, msg: Client, maxClients: nat, now: real, delivered: bool)
    requires CacheTrue(a, msg.clientId) && LeavesAlone(evs, msg.clientId)
    requires forall i :: 0 <= i < |evs| ==> Reaches(evs[i], msg.clientId)
    ensures var b := Run(a, evs);
            var (rows', reply) := Materialize(b.rows, msg, maxClients);
            && Handle(b, msg, maxClients, now, delivered).rows == rows'
            && (Hit(b, msg, now) ==> reply.Ok? && rows' == b.rows)
    decreases |evs|
  {
    if evs != [] {
      assert evs[0] != OperatorDelete(msg.clientId) && Reaches(evs[0], msg.clientId);
      StepKeepsCacheTrue(a, evs[0], msg.clientId);
      FastPathRefinesSlow(Step(a, evs[0]), evs[1..], msg, maxClients, now, delivered);
    } else {
      CacheMeaning(a, msg, maxClients, now, delivered);
      WriteMeaning(a.rows, msg, maxClients);
      ReplyMeaning(a.rows, msg, maxClients);
    }
  }

  /** Every message answered from the cache entry of client k would be accepted by the database without a write. */
  ghost predicate HitsAreRight(a: Actor, k: string, maxClients: nat, now: real) {
    forall msg: Client :: msg.clientId == k && Hit(a, msg, now) ==>
      var (rows', reply) := Materialize(a.rows, msg, maxClients);
      reply.Ok? && rows' == a.rows
  }

  /** The condition is exact: a young entry is right for every document if and only if it says what the row says. */
  lemma HitsAreRightIff(a: Actor, k: string, maxClients: nat, now: real)
    requires k in a.cache && now < a.cache[k].insertedAt + 300.0 && a.cache[k].client.cimdManaged
    ensures HitsAreRight(a, k, maxClients, now) <==> CacheTrue(a, k)
  {
    if CacheTrue(a, k) {
      forall msg: Client | msg.clientId == k && Hit(a, msg, now)
        ensures Materialize(a.rows, msg, maxClients).1.Ok? && Materialize(a.rows, msg, maxClients).0 == a.rows
      {
        WriteMeaning(a.rows, msg, maxClients);
        ReplyMeaning(a.rows, msg, maxClients);
      }
    } else {
      var msg := a.cache[k].client.(clientId := k);
      assert Hit(a, msg, now);
      WriteMeaning(a.rows, msg, maxClients);
      ReplyMeaning(a.rows, msg, maxClients);
    }
  }

  /** A lost cache message leaves a wrong entry: a document changes and changes back, the row keeps the version in
      between, and the handler answers Ok without storing anything. */
  lemma LostMessageHidesChange(a: Actor, was: Client, changed: Client, maxClients: nat, now: real)
    requires was.clientId == changed.clientId && was.doc != changed.doc
    requires Hit(a, was, now) && CacheTrue(a, was.clientId)
    ensures var k := was.clientId;
            var b := Handle(a, changed, maxClients, now, false);
            && Hit(b, was, now) && Handle(b, was, maxClients, now, true) == b
            && k in b.rows && b.rows[k].doc == changed.doc
  {
    CacheMeaning(a, changed, maxClients, now, false);
    WriteMeaning(a.rows, changed, maxClients);
    ReplyMeaning(a.rows, changed, maxClients);
    CacheMeaning(Handle(a, changed, maxClients, now, false), was, maxClients, now, true);
  }

  lemma MessageKeepsBound(rows: Rows, msg: Client, maxClients: nat)
    requires 0 < maxClients
    ensures CountCimd(Materialize(rows, msg, maxClients).0) <= Max(CountCimd(rows), maxClients)
  {
    var rows' := Materialize(rows, msg, maxClients).0;
    var was, after := set k | k in rows && rows[k].cimdManaged, set k | k in rows' && rows'[k].cimdManaged;
    assert after == was || after == was + {msg.clientId};
    if msg.clientId in rows {
      assert after == was;
    }
  }

  function Max(a: nat, b: nat): nat {
    if a < b then b else a
  }

  /** Messages carry a limit of at most `limit`, and operators do not mark rows as managed. */
  predicate Limited(rows: Rows, ev: Event, limit: nat) {
    && (ev.Message? ==> 0 < ev.maxClients <= limit)
    && (ev.OperatorWrite? && ev.row.cimdManaged ==> ev.clientId in rows && rows[ev.clientId].cimdManaged)
  }

  predicate AllLimited(a: Actor, evs: seq<Event>, limit: nat)
    decreases |evs|
  {
    evs == [] || (Limited(a.rows, evs[0], limit) && AllLimited(Step(a, evs[0]), evs[1..], limit))
  }

  lemma StepKeepsBound(a: Actor, ev: Event, limit: nat)
    requires Limited(a.rows, ev, limit) && CountCimd(a.rows) <= limit
    ensures CountCimd(Step(a, ev).rows) <= limit
  {
    if ev.Message? {
      MessageKeepsBound(a.rows, ev.client, ev.maxClients);
    } else {
      var rows' := Step(a, ev).rows;
      var was, after := set k | k in a.rows && a.rows[k].cimdManaged, set k | k in rows' && rows'[k].cimdManaged;
      assert was == after + (was - after);
    }
  }

  /** One message at a time, over every run mixed with operator edits and cache losses, a registry within its limit
      never exceeds it. */
  lemma {:induction false} SerialRegistryBound(a: Actor, evs: seq<Event>, limit: nat)
    requires AllLimited(a, evs, limit) && CountCimd(a.rows) <= limit
    ensures CountCimd(Run(a, evs).rows) <= limit
    decreases |evs|
  {
    if evs != [] {
      StepKeepsBound(a, evs[0], limit);
      SerialRegistryBound(Step(a, evs[0]), evs[1..], limit);
    }
  }

  class ClientActor {
    var rows: Rows
    var cache: map<string, CachedClient>

    constructor (rows: Rows)
      ensures this.rows == rows && cache == map[]
    {
      this.rows := rows;
      cache := map[];
    }

    method GetCached(k: string, now: real) returns (client: Option<Client>)
      modifies this`cache
      ensures var alive := k in old(cache) && Elapsed(old(cache)[k].insertedAt, now) < CLIENT_CACHE_TTL_SECS;
              && client == (if alive then Some(old(cache)[k].client) else None)
              && cache == if alive then old(cache) else old(cache) - {k}
    {
      if k in cache && Elapsed(cache[k].insertedAt, now) < CLIENT_CACHE_TTL_SECS {
        client := Some(cache[k].client);
      } else {
        cache := cache - {k};
        client := None;
      }
    }

    method MaterializeNow(msg: Client, maxClients: nat, now: real, delivered: bool) returns (ok: bool)
      modifies this
      ensures Actor(rows, cache) == Handle(Actor(old(rows), old(cache)), msg, maxClients, now, delivered)
      ensures ok <==> Hit(Actor(old(rows), old(cache)), msg, now) || Materialize(old(rows), msg, maxClients).1.Ok?
      ensures !ok ==> rows == old(rows)
    {
      var cached := GetCached(msg.clientId, now);
      if cached.Some? && RowMatches(cached.value, msg) {
        return true;
      }
      var client := msg.(cimdManaged := true);
      if client.clientId in rows {
        var existing := rows[client.clientId];
        if existing.secret != "" || !existing.cimdManaged {
          return false;
        }
        client := client.(op := existing.op);
        if !RowMatches(existing, client) {
          rows := rows[client.clientId := Updated(existing, client)];
        }
      } else {
        if 0 < maxClients && maxClients <= CountCimd(rows) {
          return false;
        }
        if !CanInsert(rows, client) {
          return false;
        }
        rows := rows[client.clientId := client];
      }
      if delivered {
        cache := cache[client.clientId := CachedClient(client, now)];
      }
      ok := true;
    }
  }
}
