/** crates/oauth2-actix/src/actors/client_actor.rs, the materialization future: K requests in flight interleave at
    every awaited storage call. Between these calls operators may also delete, edit or register rows. */
module CimdRegistry {
  import opened CimdClients

  /** The storage call a materialization awaits next; `Idle` begins with get_client. */
  datatype Pc =
    | Idle
    | NeedCount(client: Client)
    | NeedSave(client: Client)
    | NeedReget(client: Client)
    | NeedUpdate(client: Client)

  datatype World = World(rows: Rows, pcs: seq<Pc>)

  datatype Action =
    | Proceed(slot: nat, msg: Client)   // the request in this slot goes on; an idle slot takes `msg`
    | DeleteRow(clientId: string)
    | EditRow(clientId: string, row: Client)
    | RegisterRow(row: Client)

  function Move(maxClients: nat, rows: Rows, pc: Pc, msg: Client): (Rows, Pc) {
    match pc
    case Idle =>
      var client := msg.(cimdManaged := true);
      if client.clientId in rows then
        var existing := rows[client.clientId];
        if Foreign(existing) then (rows, Idle) else
        var kept := PreserveOperatorState(client, existing);
        (rows, if RowMatches(existing, kept) then Idle else NeedUpdate(kept))
      else (rows, if 0 < maxClients then NeedCount(client) else NeedSave(client))
    case NeedCount(c) => (rows, if maxClients <= CountCimd(rows) then Idle else NeedSave(c))
    case NeedSave(c) => if CanInsert(rows, c) then (rows[c.clientId := c], Idle) else (rows, NeedReget(c))
    case NeedReget(c) => (rows, Idle)
    case NeedUpdate(c) =>
      (if c.clientId in rows then rows[c.clientId := Updated(rows[c.clientId], c)] else rows, Idle)
  }

  /** One storage call. Only materialization marks rows as managed: edits may clear the mark, not set it, and what
      an operator registers is not marked. */
  function Step(maxClients: nat, w: World, a: Action): World {
    match a
    case Proceed(slot, msg) =>
      if |w.pcs| <= slot then w else
      var (rows, pc) := Move(maxClients, w.rows, w.pcs[slot], msg);
      World(rows, w.pcs[slot := pc])
    case DeleteRow(k) => w.(rows := w.rows - {k})
    case EditRow(k, row) =>
      if k in w.rows && (row.cimdManaged ==> w.rows[k].cimdManaged) then w.(rows := w.rows[k := row]) else w
    case RegisterRow(row) =>
      if CanInsert(w.rows, row) && !row.cimdManaged then w.(rows := w.rows[row.clientId := row]) else w
  }

  function Run(maxClients: nat, w: World, acts: seq<Action>): World
    decreases |acts|
  {
    if acts == [] then w else Run(maxClients, Step(maxClients, w, acts[0]), acts[1..])
  }

  /** Requests past the count check that have not saved yet. */
  function PastCount(pcs: seq<Pc>): nat {
    if pcs == [] then 0 else (if pcs[0].NeedSave? then 1 else 0) + PastCount(pcs[1..])
  }

  lemma {:induction false} PastCountUpdate(pcs: seq<Pc>, i: nat, pc: Pc)
    requires i < |pcs|
    ensures PastCount(pcs[i := pc])
            == PastCount(pcs) + (if pc.NeedSave? then 1 else 0) - (if pcs[i].NeedSave? then 1 else 0)
    ensures PastCount(pcs) <= |pcs|
    decreases |pcs|
  {
    if i > 0 {
      assert pcs[i := pc][1..] == pcs[1..][i - 1 := pc];
      PastCountUpdate(pcs[1..], i - 1, pc);
    } else {
      assert pcs[i := pc][1..] == pcs[1..];
      if |pcs| > 1 {
        PastCountUpdate(pcs[1..], 0, pcs[1]);
      }
    }
  }

  // ---------------------------------------------------------------------------
  // The bound
  // ---------------------------------------------------------------------------

  ghost function Managed(rows: Rows): set<string> {
    set k | k in rows && rows[k].cimdManaged
  }

  /** The row a pending update is about to mark as managed, even if it was deleted and registered anew since. */
  function Target(pc: Pc): set<string> {
    if pc.NeedUpdate? then {pc.client.clientId} else {}
  }

  function Targets(pcs: seq<Pc>): set<string> {
    if pcs == [] then {} else Target(pcs[0]) + Targets(pcs[1..])
  }

  /** Rows that are managed or about to become so by an update, plus requests past the count check. */
  ghost predicate Inv(maxClients: nat, w: World) {
    && (forall i :: 0 <= i < |w.pcs| ==> Sound(w.pcs[i]))
    && Claims(Managed(w.rows), w.pcs) <= maxClients + |w.pcs| - 1
  }

  ghost function Claims(managed: set<string>, pcs: seq<Pc>): nat {
    |managed + Targets(pcs)| + PastCount(pcs)
  }

  /** What a pending request carries is marked as managed. */
  ghost predicate Sound(pc: Pc) {
    pc != Idle ==> pc.client.cimdManaged
  }

  lemma {:induction false} TargetsUpdate(pcs: seq<Pc>, i: nat, pc: Pc)
    requires i < |pcs|
    ensures Target(pcs[i]) <= Targets(pcs)
    ensures Targets(pcs[i := pc]) <= Targets(pcs) + Target(pc)
    decreases |pcs|
  {
    if i > 0 {
      assert pcs[i := pc][1..] == pcs[1..][i - 1 := pc];
      TargetsUpdate(pcs[1..], i - 1, pc);
    } else {
      assert pcs[i := pc][1..] == pcs[1..];
    }
  }

  lemma SubsetCard<T>(a: set<T>, b: set<T>)
    requires a <= b
    ensures |a| <= |b|
  {
    assert b == a + (b - a);
  }

  lemma UnionCard<T>(a: set<T>, b: set<T>)
    ensures |a + b| <= |a| + |b|
  {
    assert a + b == a + (b - a);
    SubsetCard(b - a, b);
  }

  /** A slot waits for an update or is past the count check, not both. */
  lemma {:induction false} SlotsSuffice(pcs: seq<Pc>)
    ensures |Targets(pcs)| + PastCount(pcs) <= |pcs|
    decreases |pcs|
  {
    if pcs != [] {
      SlotsSuffice(pcs[1..]);
      UnionCard(Target(pcs[0]), Targets(pcs[1..]));
    }
  }

  /** Only a save adds a managed row that no pending update announced, and only the count check leads to a save. */
  ghost predicate Marks(maxClients: nat, rows: Rows, pc: Pc, rows': Rows, pc': Pc) {
    && Sound(pc')
    && (pc.NeedSave? ==> !pc'.NeedSave?)
    && Managed(rows') <= Managed(rows) + Target(pc) + (if pc.NeedSave? then {pc.client.clientId} else {})
    && Target(pc') <= Managed(rows)
    && (pc'.NeedSave? ==> rows' == rows && CountCimd(rows) < maxClients)
  }

  lemma MoveMarksRows(maxClients: nat, rows: Rows, pc: Pc, msg: Client)
    ensures Managed(Move(maxClients, rows, pc, msg).0)
            <= Managed(rows) + Target(pc) + (if pc.NeedSave? then {pc.client.clientId} else {})
  {
    if !pc.NeedSave? && !pc.NeedUpdate? {
      assert Move(maxClients, rows, pc, msg).0 == rows;
    }
  }

  lemma MoveMarksPc(maxClients: nat, rows: Rows, pc: Pc, msg: Client)
    requires Sound(pc) && 0 < maxClients
    ensures var (rows', pc') := Move(maxClients, rows, pc, msg);
            && Sound(pc') && (pc.NeedSave? ==> !pc'.NeedSave?)
            && (pc'.NeedUpdate? ==> pc'.client.clientId in rows && rows[pc'.client.clientId].cimdManaged)
            && (pc'.NeedSave? ==> rows' == rows && CountCimd(rows) < maxClients)
  {}

  lemma MoveMarks(maxClients: nat, rows: Rows, pc: Pc, msg: Client, rows': Rows, pc': Pc)
    requires Sound(pc) && 0 < maxClients && (rows', pc') == Move(maxClients, rows, pc, msg)
    ensures Marks(maxClients, rows, pc, rows', pc')
  {
    MoveMarksRows(maxClients, rows, pc, msg);
    MoveMarksPc(maxClients, rows, pc, msg);
  }

  lemma ClaimsAfter<T>(m: set<T>, m': set<T>, t: set<T>, t': set<T>, extra: set<T>)
    requires m' <= m + t + extra && t' <= t + m
    ensures |m' + t'| <= |m + t| + |extra|
  {
    SubsetCard(m' + t', m + t + extra);
    UnionCard(m + t, extra);
  }

  lemma PassingKeepsBound(maxClients: nat, rows: Rows, pcs: seq<Pc>)
    requires CountCimd(rows) < maxClients
    ensures Claims(Managed(rows), pcs) <= maxClients + |pcs| - 1
  {
    UnionCard(Managed(rows), Targets(pcs));
    SlotsSuffice(pcs);
  }

  lemma WritingKeepsBound(m: set<string>, m': set<string>, pcs: seq<Pc>, slot: nat, pc': Pc)
    requires slot < |pcs| && !pc'.NeedSave? && Target(pc') <= m
    requires m' <= m + Target(pcs[slot]) + (if pcs[slot].NeedSave? then {pcs[slot].client.clientId} else {})
    ensures Claims(m', pcs[slot := pc']) <= Claims(m, pcs)
  {
    TargetsUpdate(pcs, slot, pc');
    PastCountUpdate(pcs, slot, pc');
    ClaimsAfter(m, m', Targets(pcs), Targets(pcs[slot := pc']),
                if pcs[slot].NeedSave? then {pcs[slot].client.clientId} else {});
  }

  lemma ProceedKeepsClaims(maxClients: nat, w: World, slot: nat, rows': Rows, pc': Pc, pcs': seq<Pc>)
    requires slot < |w.pcs| && pcs' == w.pcs[slot := pc'] && Marks(maxClients, w.rows, w.pcs[slot], rows', pc')
    requires Claims(Managed(w.rows), w.pcs) <= maxClients + |w.pcs| - 1
    ensures Claims(Managed(rows'), pcs') <= maxClients + |w.pcs| - 1
  {
    if pc'.NeedSave? {
      PassingKeepsBound(maxClients, rows', pcs');
    } else {
      WritingKeepsBound(Managed(w.rows), Managed(rows'), w.pcs, slot, pc');
    }
  }

  lemma ProceedKeepsBound(maxClients: nat, w: World, slot: nat, rows': Rows, pc': Pc)
    requires Inv(maxClients, w) && slot < |w.pcs| && Marks(maxClients, w.rows, w.pcs[slot], rows', pc')
    ensures Inv(maxClients, World(rows', w.pcs[slot := pc']))
  {
    ProceedKeepsClaims(maxClients, w, slot, rows', pc', w.pcs[slot := pc']);
  }

  lemma OperatorMarksNothing(maxClients: nat, w: World, a: Action)
    requires a.Proceed? ==> |w.pcs| <= a.slot
    ensures Managed(Step(maxClients, w, a).rows) <= Managed(w.rows) && Step(maxClients, w, a).pcs == w.pcs
  {}

  lemma StepKeepsInv(maxClients: nat, w: World, a: Action)
    requires Inv(maxClients, w) && 0 < maxClients
    ensures Inv(maxClients, Step(maxClients, w, a)) && |Step(maxClients, w, a).pcs| == |w.pcs|
  {
    if a.Proceed? && a.slot < |w.pcs| {
      var (rows', pc') := Move(maxClients, w.rows, w.pcs[a.slot], a.msg);
      MoveMarks(maxClients, w.rows, w.pcs[a.slot], a.msg, rows', pc');
      ProceedKeepsBound(maxClients, w, a.slot, rows', pc');
    } else {
      OperatorMarksNothing(maxClients, w, a);
      ClaimsAfter(Managed(w.rows), Managed(Step(maxClients, w, a).rows), Targets(w.pcs), Targets(w.pcs), {});
    }
  }

  /** Registry bound under concurrency: with K requests in flight, from a table at or below the limit, the managed
      rows plus the requests that passed the count check and have not saved yet never exceed max_clients + K - 1,
      for every interleaving of get, count, save and update steps with deletions, edits and registrations. */
  lemma {:induction false} RegistryBound(maxClients: nat, w: World, acts: seq<Action>)
    requires Inv(maxClients, w) && 0 < maxClients
    ensures var w' := Run(maxClients, w, acts);
            |w'.pcs| == |w.pcs| && CountCimd(w'.rows) + PastCount(w'.pcs) <= maxClients + |w.pcs| - 1
    decreases |acts|
  {
    SubsetCard(Managed(w.rows), Managed(w.rows) + Targets(w.pcs));
    if acts != [] {
      StepKeepsInv(maxClients, w, acts[0]);
      RegistryBound(maxClients, Step(maxClients, w, acts[0]), acts[1..]);
    }
  }

  function AllIdle(k: nat): seq<Pc> {
    seq(k, _ => Idle)
  }

  lemma {:induction false} IdleSlots(k: nat)
    ensures PastCount(AllIdle(k)) == 0 && Targets(AllIdle(k)) == {}
    decreases k
  {
    if k > 0 {
      assert AllIdle(k)[1..] == AllIdle(k - 1);
      IdleSlots(k - 1);
    }
  }

  lemma RegistryNeverOverflows(maxClients: nat, rows: Rows, k: nat, acts: seq<Action>)
    requires 0 < maxClients && 0 < k && CountCimd(rows) <= maxClients
    ensures var w := Run(maxClients, World(rows, AllIdle(k)), acts);
            CountCimd(w.rows) + PastCount(w.pcs) <= maxClients + k - 1
  {
    IdleSlots(k);
    assert Managed(rows) + {} == Managed(rows);
    RegistryBound(maxClients, World(rows, AllIdle(k)), acts);
  }

  // ---------------------------------------------------------------------------
  // Ownership under concurrency
  // ---------------------------------------------------------------------------

  /** No request is about to update the row. */
  ghost predicate NotTargeted(pcs: seq<Pc>, k: string) {
    forall i :: 0 <= i < |pcs| && pcs[i].NeedUpdate? ==> pcs[i].client.clientId != k
  }

  predicate Touches(a: Action, k: string) {
    match a
    case Proceed(_, _) => false
    case DeleteRow(c) => c == k
    case EditRow(c, _) => c == k
    case RegisterRow(row) => row.clientId == k
  }

  predicate HandsOff(acts: seq<Action>, k: string) {
    forall i :: 0 <= i < |acts| ==> !Touches(acts[i], k)
  }

  /** A row with a secret or not managed is safe under every interleaving, as long as no request looked it up while
      it still was a managed row: from a state where no update of it is pending, it never changes except by an
      operator's hand. */
  lemma {:induction false} ForeignRowSafe(maxClients: nat, w: World, acts: seq<Action>, k: string)
    requires k in w.rows && Foreign(w.rows[k]) && NotTargeted(w.pcs, k) && HandsOff(acts, k)
    ensures var w' := Run(maxClients, w, acts);
            k in w'.rows && w'.rows[k] == w.rows[k] && NotTargeted(w'.pcs, k)
    decreases |acts|
  {
    if acts != [] {
      assert !Touches(acts[0], k);
      ForeignRowSafe(maxClients, Step(maxClients, w, acts[0]), acts[1..], k);
    }
  }

  /** No interleaving of requests changes row k, unless an operator does. */
  ghost predicate LeftAsIs(maxClients: nat, w: World, k: string) {
    forall acts :: HandsOff(acts, k) ==>
      k in Run(maxClients, w, acts).rows && k in w.rows && Run(maxClients, w, acts).rows[k] == w.rows[k]
  }

  /** What a request carries is marked as managed and has no secret: a metadata document must not contain one. */
  ghost predicate Documents(w: World) {
    forall i :: 0 <= i < |w.pcs| && w.pcs[i] != Idle ==> w.pcs[i].client.cimdManaged && w.pcs[i].client.secret == ""
  }

  lemma {:induction false} DocumentsAlways(maxClients: nat, w: World, acts: seq<Action>)
    requires Documents(w) && forall i :: 0 <= i < |acts| && acts[i].Proceed? ==> acts[i].msg.secret == ""
    ensures Documents(Run(maxClients, w, acts))
    decreases |acts|
  {
    if acts != [] {
      assert acts[0].Proceed? ==> acts[0].msg.secret == "";
      DocumentsAlways(maxClients, Step(maxClients, w, acts[0]), acts[1..]);
    }
  }

  /** The condition is exact: requests leave a row with a secret or not managed as it is under every interleaving if
      and only if no update of it is pending. */
  lemma ForeignRowSafeIff(maxClients: nat, w: World, k: string)
    requires k in w.rows && Foreign(w.rows[k]) && Documents(w)
    ensures LeftAsIs(maxClients, w, k) <==> NotTargeted(w.pcs, k)
  {
    if NotTargeted(w.pcs, k) {
      forall acts | HandsOff(acts, k)
        ensures k in Run(maxClients, w, acts).rows && Run(maxClients, w, acts).rows[k] == w.rows[k]
      {
        ForeignRowSafe(maxClients, w, acts, k);
      }
    } else {
      var i :| 0 <= i < |w.pcs| && w.pcs[i].NeedUpdate? && w.pcs[i].client.clientId == k;
      var go := Proceed(i, w.pcs[i].client);
      var w' := Step(maxClients, w, go);
      assert HandsOff([go], k) && [go][1..] == [] && Run(maxClients, w, [go]) == w';
      assert w'.rows[k].cimdManaged && w'.rows[k].secret == "";
    }
  }

  /** A pending update of such a row is reached: when a managed row is deleted and registered anew, with a secret,
      between the lookup and the update of a materialization, the document takes the new row over and its secret is
      lost. */
  lemma ReRegistrationIsTakenOver(maxClients: nat, rows: Rows, msg: Client, anew: Client)
    requires msg.clientId in rows && !Foreign(rows[msg.clientId]) && rows[msg.clientId].doc != msg.doc
    requires CanInsert(rows - {msg.clientId}, anew) && anew.clientId == msg.clientId
    requires anew.secret != "" && msg.secret == "" && !anew.cimdManaged
    ensures var k := msg.clientId;
            var w := Run(maxClients, World(rows, [Idle]),
                         [Proceed(0, msg), DeleteRow(k), RegisterRow(anew), Proceed(0, msg)]);
            k in w.rows && w.rows[k].secret == "" && w.rows[k].doc == msg.doc && w.rows[k].cimdManaged
  {
    var k, w := msg.clientId, World(rows, [Idle]);
    var go := Proceed(0, msg);
    var kept := PreserveOperatorState(msg.(cimdManaged := true), rows[k]);
    var w1 := World(rows, [NeedUpdate(kept)]);
    assert Step(maxClients, w, go) == w1;
    var w2 := World(rows - {k}, w1.pcs);
    var w3 := World((rows - {k})[k := anew], w1.pcs);
    var w4 := Step(maxClients, w3, go);
    assert [go, DeleteRow(k), RegisterRow(anew), go][1..] == [DeleteRow(k), RegisterRow(anew), go];
    assert [DeleteRow(k), RegisterRow(anew), go][1..] == [RegisterRow(anew), go];
    assert [RegisterRow(anew), go][1..] == [go] && [go][1..] == [];
    assert Run(maxClients, w3, [go]) == w4;
    assert Run(maxClients, w2, [RegisterRow(anew), go]) == w4;
    assert Run(maxClients, w1, [DeleteRow(k), RegisterRow(anew), go]) == w4;
  }

  /** Every pending update of row k carries the operator state the row has now. */
  ghost predicate UpToDate(w: World, k: string) {
    k in w.rows && forall i :: 0 <= i < |w.pcs| && w.pcs[i].NeedUpdate? && w.pcs[i].client.clientId == k ==>
      Updated(w.rows[k], w.pcs[i].client).op == w.rows[k].op
  }

  lemma {:induction false} OperatorStateSafe(maxClients: nat, w: World, acts: seq<Action>, k: string)
    requires UpToDate(w, k) && HandsOff(acts, k)
    ensures var w' := Run(maxClients, w, acts);
            UpToDate(w', k) && w'.rows[k].op == w.rows[k].op
    decreases |acts|
  {
    if acts != [] {
      assert !Touches(acts[0], k);
      OperatorStateSafe(maxClients, Step(maxClients, w, acts[0]), acts[1..], k);
    }
  }

  /** No interleaving of requests changes the operator state of row k, unless an operator does. */
  ghost predicate OperatorLeftAsIs(maxClients: nat, w: World, k: string) {
    forall acts :: HandsOff(acts, k) ==>
      k in Run(maxClients, w, acts).rows && k in w.rows && Run(maxClients, w, acts).rows[k].op == w.rows[k].op
  }

  /** Operator state under concurrency: requests leave what an operator decided about a row as it is under every
      interleaving if and only if no pending update carries an older decision. */
  lemma OperatorStateSafeIff(maxClients: nat, w: World, k: string)
    requires k in w.rows
    ensures OperatorLeftAsIs(maxClients, w, k) <==> UpToDate(w, k)
  {
    if UpToDate(w, k) {
      forall acts | HandsOff(acts, k)
        ensures k in Run(maxClients, w, acts).rows && Run(maxClients, w, acts).rows[k].op == w.rows[k].op
      {
        OperatorStateSafe(maxClients, w, acts, k);
      }
    } else {
      var i :| 0 <= i < |w.pcs| && w.pcs[i].NeedUpdate? && w.pcs[i].client.clientId == k
               && Updated(w.rows[k], w.pcs[i].client).op != w.rows[k].op;
      var go := Proceed(i, w.pcs[i].client);
      assert HandsOff([go], k) && [go][1..] == [] && Run(maxClients, w, [go]) == Step(maxClients, w, go);
    }
  }

  /** What an update never writes, whatever is pending: the row id, the client id, the creation date and whether a
      state parameter is required. */
  lemma {:induction false} NeverWritten(maxClients: nat, w: World, acts: seq<Action>, k: string)
    requires k in w.rows && HandsOff(acts, k)
    ensures var rows' := Run(maxClients, w, acts).rows;
            && k in rows' && rows'[k].op.id == w.rows[k].op.id && rows'[k].clientId == w.rows[k].clientId
            && rows'[k].createdAt == w.rows[k].createdAt && rows'[k].op.requireState == w.rows[k].op.requireState
    decreases |acts|
  {
    if acts != [] {
      assert !Touches(acts[0], k);
      NeverWritten(maxClients, Step(maxClients, w, acts[0]), acts[1..], k);
    }
  }

  /** An older decision is carried in an ordinary run: an operator who disables a client between the lookup and the
      update of a materialization sees it enabled again. */
  lemma DisablingIsReverted(maxClients: nat, rows: Rows, msg: Client)
    requires msg.clientId in rows && !Foreign(rows[msg.clientId]) && rows[msg.clientId].doc != msg.doc
    requires rows[msg.clientId].op.enabled
    ensures var k := msg.clientId;
            var off := rows[k].(op := rows[k].op.(enabled := false));
            var w := Run(maxClients, World(rows, [Idle]), [Proceed(0, msg), EditRow(k, off), Proceed(0, msg)]);
            k in w.rows && w.rows[k].op.enabled
  {
    var k, go := msg.clientId, Proceed(0, msg);
    var off := rows[k].(op := rows[k].op.(enabled := false));
    var kept := PreserveOperatorState(msg.(cimdManaged := true), rows[k]);
    var w1 := World(rows, [NeedUpdate(kept)]);
    var w2 := World(rows[k := off], w1.pcs);
    assert Step(maxClients, World(rows, [Idle]), go) == w1;
    assert Step(maxClients, w1, EditRow(k, off)) == w2;
    assert [go, EditRow(k, off), go][1..] == [EditRow(k, off), go] && [EditRow(k, off), go][1..] == [go];
    assert [go][1..] == [] && Run(maxClients, w2, [go]) == Step(maxClients, w2, go);
    assert Run(maxClients, w1, [EditRow(k, off), go]) == Run(maxClients, w2, [go]);
  }

  /** The step inserts row k: an operator registers it, or a request past the count check saves it. */
  ghost predicate Inserts(w: World, a: Action, k: string) {
    match a
    case Proceed(slot, _) => slot < |w.pcs| && w.pcs[slot].NeedSave? && w.pcs[slot].client.clientId == k
    case RegisterRow(row) => row.clientId == k
    case _ => false
  }

  /** A row that is not there, or was deleted, appears only by an insert; an update that comes too late does not bring
      it back. */
  lemma {:induction false} AppearsOnlyByInsert(maxClients: nat, w: World, acts: seq<Action>, k: string) returns (n: nat)
    requires k !in w.rows && k in Run(maxClients, w, acts).rows
    ensures n < |acts| && Inserts(Run(maxClients, w, acts[..n]), acts[n], k)
    decreases |acts|
  {
    var w1 := Step(maxClients, w, acts[0]);
    assert acts[..0] == [];
    if k in w1.rows {
      n := 0;
    } else {
      var m := AppearsOnlyByInsert(maxClients, w1, acts[1..], k);
      n := m + 1;
      assert acts[..n][1..] == acts[1..][..m] && acts[..n][0] == acts[0];
    }
  }

  // ---------------------------------------------------------------------------
  // A request that is not disturbed
  // ---------------------------------------------------------------------------

  /** The two granularities agree: a request whose storage calls nobody disturbs ends after at most four of them and
      leaves the rows that the undisturbed handler leaves. */
  lemma UndisturbedRequest(maxClients: nat, w: World, slot: nat, msg: Client) returns (n: nat)
    requires slot < |w.pcs| && w.pcs[slot] == Idle
    ensures 1 <= n <= 4
    ensures Run(maxClients, w, seq(n, _ => Proceed(slot, msg)))
            == World(Materialize(w.rows, msg, maxClients).0, w.pcs)
  {
    var go := Proceed(slot, msg);
    var client := msg.(cimdManaged := true);
    var w1 := Step(maxClients, w, go);
    var w2 := Step(maxClients, w1, go);
    var w3 := Step(maxClients, w2, go);
    var w4 := Step(maxClients, w3, go);
    FourSteps(maxClients, w, go);
    n := if w1.pcs[slot] == Idle then 1 else if w2.pcs[slot] == Idle then 2 else if w3.pcs[slot] == Idle then 3 else 4;
    var last := if n == 1 then w1 else if n == 2 then w2 else if n == 3 then w3 else w4;
    assert last.pcs == w.pcs;
  }

  lemma FourSteps(maxClients: nat, w: World, a: Action)
    ensures var w1 := Step(maxClients, w, a);
            var w2 := Step(maxClients, w1, a);
            var w3 := Step(maxClients, w2, a);
            && Run(maxClients, w, seq(1, _ => a)) == w1 && Run(maxClients, w, seq(2, _ => a)) == w2
            && Run(maxClients, w, seq(3, _ => a)) == w3
            && Run(maxClients, w, seq(4, _ => a)) == Step(maxClients, w3, a)
  {
    assert seq(4, _ => a)[1..] == seq(3, _ => a) && seq(3, _ => a)[1..] == seq(2, _ => a);
    assert seq(2, _ => a)[1..] == seq(1, _ => a) && seq(1, _ => a)[1..] == [];
    var w1 := Step(maxClients, w, a);
    var w2 := Step(maxClients, w1, a);
    var w3 := Step(maxClients, w2, a);
    assert forall v :: Run(maxClients, v, seq(1, _ => a)) == Step(maxClients, v, a);
    assert forall v :: Run(maxClients, v, seq(2, _ => a)) == Step(maxClients, Step(maxClients, v, a), a);
    assert Run(maxClients, w1, seq(3, _ => a)) == Run(maxClients, w2, seq(2, _ => a));
  }

  // ---------------------------------------------------------------------------
  // The bound is attained
  // ---------------------------------------------------------------------------

  lemma {:induction false} RunConcat(maxClients: nat, w: World, xs: seq<Action>, ys: seq<Action>)
    ensures Run(maxClients, w, xs + ys) == Run(maxClients, Run(maxClients, w, xs), ys)
    decreases |xs|
  {
    if xs == [] {
      assert xs + ys == ys;
    } else {
      assert (xs + ys)[1..] == xs[1..] + ys;
      RunConcat(maxClients, Step(maxClients, w, xs[0]), xs[1..], ys);
    }
  }

  /** New documents: client ids and row ids that differ from each other and from those in the table. */
  ghost predicate AllNew(rows: Rows, msgs: seq<Client>) {
    && (forall i :: 0 <= i < |msgs| ==> msgs[i].cimdManaged && CanInsert(rows, msgs[i]))
    && (forall i, j :: 0 <= i < j < |msgs| ==> msgs[i].clientId != msgs[j].clientId && msgs[i].op.id != msgs[j].op.id)
  }

  /** Requests from `lo` up to `hi` have passed the count check; all others are idle. */
  function Waiting(msgs: seq<Client>, lo: nat, hi: nat): seq<Pc> {
    seq(|msgs|, i requires 0 <= i < |msgs| => if lo <= i < hi then NeedSave(msgs[i]) else Idle)
  }

  function Saved(rows: Rows, msgs: seq<Client>, n: nat): Rows
    requires n <= |msgs|
    decreases n
  {
    if n == 0 then rows else Saved(rows, msgs, n - 1)[msgs[n - 1].clientId := msgs[n - 1]]
  }

  /** Every request passes the count check before any of them saves. */
  lemma {:induction false} AllPass(maxClients: nat, rows: Rows, msgs: seq<Client>, n: nat) returns (acts: seq<Action>)
    requires AllNew(rows, msgs) && CountCimd(rows) < maxClients && n <= |msgs|
    ensures Run(maxClients, World(rows, Waiting(msgs, 0, 0)), acts) == World(rows, Waiting(msgs, 0, n))
    decreases n
  {
    if n == 0 {
      acts := [];
    } else {
      var before := AllPass(maxClients, rows, msgs, n - 1);
      var go, w := Proceed(n - 1, msgs[n - 1]), World(rows, Waiting(msgs, 0, n - 1));
      var w1 := Step(maxClients, w, go);
      assert w1 == World(rows, w.pcs[n - 1 := NeedCount(msgs[n - 1])]);
      assert Step(maxClients, w1, go).pcs == Waiting(msgs, 0, n);
      assert [go, go][1..] == [go] && [go][1..] == [];
      assert Run(maxClients, w1, [go]) == Step(maxClients, w1, go);
      RunConcat(maxClients, World(rows, Waiting(msgs, 0, 0)), before, [go, go]);
      acts := before + [go, go];
    }
  }

  lemma InsertCounts(rows: Rows, c: Client)
    requires c.cimdManaged && c.clientId !in rows
    ensures CountCimd(rows[c.clientId := c]) == CountCimd(rows) + 1
  {
    var rows' := rows[c.clientId := c];
    assert (set k | k in rows' && rows'[k].cimdManaged) == (set k | k in rows && rows[k].cimdManaged) + {c.clientId};
  }

  lemma {:induction false} SavedRows(rows: Rows, msgs: seq<Client>, n: nat)
    requires AllNew(rows, msgs) && n <= |msgs|
    ensures forall i :: n <= i < |msgs| ==> CanInsert(Saved(rows, msgs, n), msgs[i])
    ensures CountCimd(Saved(rows, msgs, n)) == CountCimd(rows) + n
    decreases n
  {
    if n > 0 {
      SavedRows(rows, msgs, n - 1);
      var was, c := Saved(rows, msgs, n - 1), msgs[n - 1];
      InsertCounts(was, c);
      forall i | n <= i < |msgs| ensures CanInsert(was[c.clientId := c], msgs[i]) {
        assert CanInsert(was, msgs[i]);
      }
    }
  }

  lemma SaveStep(maxClients: nat, w: World, slot: nat, c: Client, msg: Client)
    requires slot < |w.pcs| && w.pcs[slot] == NeedSave(c) && CanInsert(w.rows, c)
    ensures Step(maxClients, w, Proceed(slot, msg)) == World(w.rows[c.clientId := c], w.pcs[slot := Idle])
  {}

  lemma RunSnoc(maxClients: nat, w: World, acts: seq<Action>, a: Action)
    ensures Run(maxClients, w, acts + [a]) == Step(maxClients, Run(maxClients, w, acts), a)
  {
    RunConcat(maxClients, w, acts, [a]);
    assert [a][1..] == [];
    assert Run(maxClients, Run(maxClients, w, acts), [a])
        == Run(maxClients, Step(maxClients, Run(maxClients, w, acts), a), []);
  }

  lemma SaveNext(maxClients: nat, rows: Rows, msgs: seq<Client>, n: nat)
    requires AllNew(rows, msgs) && 0 < n <= |msgs|
    ensures Step(maxClients, World(Saved(rows, msgs, n - 1), Waiting(msgs, n - 1, |msgs|)), Proceed(n - 1, msgs[n - 1]))
            == World(Saved(rows, msgs, n), Waiting(msgs, n, |msgs|))
  {
    WaitingShrinks(msgs, n - 1);
    SavedRows(rows, msgs, n - 1);
    var w := World(Saved(rows, msgs, n - 1), Waiting(msgs, n - 1, |msgs|));
    SaveStep(maxClients, w, n - 1, msgs[n - 1], msgs[n - 1]);
  }

  lemma WaitingShrinks(msgs: seq<Client>, n: nat)
    requires n < |msgs|
    ensures Waiting(msgs, n, |msgs|)[n] == NeedSave(msgs[n])
    ensures Waiting(msgs, n, |msgs|)[n := Idle] == Waiting(msgs, n + 1, |msgs|)
  {}

  /** Then all of them save. */
  lemma {:induction false} AllSave(maxClients: nat, rows: Rows, msgs: seq<Client>, n: nat) returns (acts: seq<Action>)
    requires AllNew(rows, msgs) && n <= |msgs|
    ensures Run(maxClients, World(rows, Waiting(msgs, 0, |msgs|)), acts)
            == World(Saved(rows, msgs, n), Waiting(msgs, n, |msgs|))
    decreases n
  {
    if n == 0 {
      acts := [];
    } else {
      var before := AllSave(maxClients, rows, msgs, n - 1);
      var w, go := World(rows, Waiting(msgs, 0, |msgs|)), Proceed(n - 1, msgs[n - 1]);
      acts := before + [go];
      RunSnoc(maxClients, w, before, go);
      assert Run(maxClients, w, acts) == Step(maxClients, Run(maxClients, w, before), go);
      SaveNext(maxClients, rows, msgs, n);
    }
  }

  /** No smaller bound holds: from any table one short of the limit, K new documents can bring it to exactly
      max_clients + K - 1 managed rows. */
  lemma BoundAttained(maxClients: nat, rows: Rows, msgs: seq<Client>) returns (acts: seq<Action>)
    requires AllNew(rows, msgs) && CountCimd(rows) + 1 == maxClients
    ensures CountCimd(Run(maxClients, World(rows, AllIdle(|msgs|)), acts).rows) == maxClients + |msgs| - 1
  {
    var k := |msgs|;
    var pass := AllPass(maxClients, rows, msgs, k);
    var save := AllSave(maxClients, rows, msgs, k);
    SavedRows(rows, msgs, k);
    assert AllIdle(k) == Waiting(msgs, 0, 0);
    RunConcat(maxClients, World(rows, AllIdle(k)), pass, save);
    acts := pass + save;
  }
}
