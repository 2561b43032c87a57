/** crates/oauth2-storage-sqlx/src/sqlx.rs, `dpop_jti_check_and_insert`: the replay store of section 11.1 of
    RFC 9449. A call runs two statements, DELETE of expired rows and INSERT ... ON CONFLICT DO NOTHING; calls of
    any number of server instances, each with its own clock, interleave statement by statement. */
module DpopReplay {

  type Table = map<string, real>

  /** `now` is what the call read from its server's clock when it began. */
  datatype Call = Call(jti: string, expiresAt: real, now: real)

  datatype Pc = Begun | Cleaned | Done(accepted: bool)

  datatype World = World(table: Table, pcs: seq<Pc>)

  /** DELETE FROM dpop_jtis WHERE expires_at < now */
  function DeleteExpired(table: Table, now: real): Table {
    map j | j in table && now <= table[j] :: table[j]
  }

  /** INSERT ... ON CONFLICT DO NOTHING, and whether a row was affected. */
  function InsertIfAbsent(table: Table, jti: string, expiresAt: real): (Table, bool) {
    if jti in table then (table, false) else (table[jti := expiresAt], true)
  }

  /** Call number c runs its next statement. */
  function Step(calls: seq<Call>, w: World, c: nat): (r: World)
    requires |w.pcs| == |calls|
    ensures |r.pcs| == |calls|
  {
    if |calls| <= c then w else
    match w.pcs[c]
    case Begun => World(DeleteExpired(w.table, calls[c].now), w.pcs[c := Cleaned])
    case Cleaned =>
      var (table, ok) := InsertIfAbsent(w.table, calls[c].jti, calls[c].expiresAt);
      World(table, w.pcs[c := Done(ok)])
    case Done(_) => w
  }

  function Run(calls: seq<Call>, w: World, schedule: seq<nat>): (r: World)
    requires |w.pcs| == |calls|
    ensures |r.pcs| == |calls|
    decreases |schedule|
  {
    if schedule == [] then w else Run(calls, Step(calls, w, schedule[0]), schedule[1..])
  }

  function Start(calls: seq<Call>): World {
    World(map[], seq(|calls|, _ => Begun))
  }

  // ---------------------------------------------------------------------------
  // Conservation of acceptances
  // ---------------------------------------------------------------------------

  /** The completed calls for `jti` that returned true. */
  function Accepted(calls: seq<Call>, w: World, jti: string): set<nat>
    requires |w.pcs| == |calls|
  {
    set c: nat | c < |calls| && calls[c].jti == jti && w.pcs[c] == Done(true)
  }

  function Present(w: World, jti: string): nat {
    if jti in w.table then 1 else 0
  }

  /** How often a cleanup removed the row of `jti`. */
  function Evictions(calls: seq<Call>, w: World, schedule: seq<nat>, jti: string): nat
    requires |w.pcs| == |calls|
    decreases |schedule|
  {
    if schedule == [] then 0 else
    var w' := Step(calls, w, schedule[0]);
    (if jti in w.table && jti !in w'.table then 1 else 0) + Evictions(calls, w', schedule[1..], jti)
  }

  /** The call c is about to insert the row of `jti`. */
  predicate WillAccept(calls: seq<Call>, w: World, c: nat, jti: string)
    requires |w.pcs| == |calls|
  {
    c < |calls| && calls[c].jti == jti && w.pcs[c] == Cleaned && jti !in w.table
  }

  lemma AcceptedAfterStep(calls: seq<Call>, w: World, c: nat, jti: string)
    requires |w.pcs| == |calls|
    ensures |Accepted(calls, Step(calls, w, c), jti)|
            == |Accepted(calls, w, jti)| + if WillAccept(calls, w, c, jti) then 1 else 0
  {
    var was, after := Accepted(calls, w, jti), Accepted(calls, Step(calls, w, c), jti);
    if WillAccept(calls, w, c, jti) {
      assert after == was + {c};
    } else {
      assert after == was;
    }
  }

  lemma StepLedger(calls: seq<Call>, w: World, c: nat, jti: string)
    requires |w.pcs| == |calls|
    ensures var w' := Step(calls, w, c);
            |Accepted(calls, w', jti)| + Present(w, jti)
            == |Accepted(calls, w, jti)| + (if jti in w.table && jti !in w'.table then 1 else 0) + Present(w', jti)
  {
    AcceptedAfterStep(calls, w, c, jti);
  }

  lemma {:induction false} RunLedger(calls: seq<Call>, w: World, schedule: seq<nat>, jti: string)
    requires |w.pcs| == |calls|
    ensures var w' := Run(calls, w, schedule);
            |Accepted(calls, w', jti)| + Present(w, jti)
            == |Accepted(calls, w, jti)| + Evictions(calls, w, schedule, jti) + Present(w', jti)
    decreases |schedule|
  {
    if schedule != [] {
      StepLedger(calls, w, schedule[0], jti);
      RunLedger(calls, Step(calls, w, schedule[0]), schedule[1..], jti);
    }
  }

  /** Conservation: under every interleaving, the calls that accepted a `jti` are exactly as many as the times its
      row was cleaned up, plus one if the row is there now. */
  lemma AcceptancesConserved(calls: seq<Call>, schedule: seq<nat>, jti: string)
    ensures var w := Run(calls, Start(calls), schedule);
            |Accepted(calls, w, jti)| == Evictions(calls, Start(calls), schedule, jti) + Present(w, jti)
  {
    RunLedger(calls, Start(calls), schedule, jti);
    assert Accepted(calls, Start(calls), jti) == {};
  }

  // ---------------------------------------------------------------------------
  // A second acceptance needs a cleanup past the first expiry
  // ---------------------------------------------------------------------------

  /** Statement r of the schedule is a cleanup whose clock is past `expiry`. */
  ghost predicate CleansPast(calls: seq<Call>, w: World, schedule: seq<nat>, r: nat, expiry: real)
    requires |w.pcs| == |calls|
  {
    && r < |schedule| && schedule[r] < |calls|
    && Run(calls, w, schedule[..r]).pcs[schedule[r]] == Begun
    && expiry < calls[schedule[r]].now
  }

  lemma {:induction false} RowSurvives(calls: seq<Call>, w: World, schedule: seq<nat>, jti: string)
    requires |w.pcs| == |calls| && jti in w.table
    requires forall r :: 0 <= r < |schedule| ==> !CleansPast(calls, w, schedule, r, w.table[jti])
    ensures var w' := Run(calls, w, schedule);
            && jti in w'.table && w'.table[jti] == w.table[jti]
            && forall c :: 0 <= c < |calls| && calls[c].jti == jti && w'.pcs[c] == Done(true) ==> w.pcs[c] == Done(true)
    decreases |schedule|
  {
    if schedule != [] {
      var w1, rest := Step(calls, w, schedule[0]), schedule[1..];
      assert !CleansPast(calls, w, schedule, 0, w.table[jti]) && schedule[..0] == [];
      assert jti in w1.table && w1.table[jti] == w.table[jti];
      forall r | 0 <= r < |rest| ensures !CleansPast(calls, w1, rest, r, w.table[jti]) {
        assert !CleansPast(calls, w, schedule, r + 1, w.table[jti]);
        assert schedule[..r + 1][1..] == rest[..r];
      }
      RowSurvives(calls, w1, rest, jti);
    }
  }

  lemma ReplacedOnlyAfterCleanup(calls: seq<Call>, w: World, schedule: seq<nat>, second: nat) returns (r: nat)
    requires |w.pcs| == |calls| && second < |calls| && calls[second].jti in w.table
    requires w.pcs[second] != Done(true) && Run(calls, w, schedule).pcs[second] == Done(true)
    ensures CleansPast(calls, w, schedule, r, w.table[calls[second].jti])
  {
    var jti := calls[second].jti;
    if r' :| 0 <= r' < |schedule| && CleansPast(calls, w, schedule, r', w.table[jti]) {
      r := r';
    } else {
      RowSurvives(calls, w, schedule, jti);
      assert false;
    }
  }

  /** Replay safety: when call `first` has just been accepted and another call with the same `jti` is accepted
      later, then in between some call's cleanup ran with a clock past the expiry `first` stored. */
  lemma SecondAcceptanceNeedsCleanup(
    calls: seq<Call>, before: seq<nat>, first: nat, after: seq<nat>, second: nat) returns (r: nat)
    requires first < |calls| && WillAccept(calls, Run(calls, Start(calls), before), first, calls[first].jti)
    requires second < |calls| && calls[second].jti == calls[first].jti
    requires var w := Step(calls, Run(calls, Start(calls), before), first);
             w.pcs[second] != Done(true) && Run(calls, w, after).pcs[second] == Done(true)
    ensures CleansPast(calls, Step(calls, Run(calls, Start(calls), before), first), after, r, calls[first].expiresAt)
  {
    var w := Step(calls, Run(calls, Start(calls), before), first);
    assert w.table[calls[first].jti] == calls[first].expiresAt;
    r := ReplacedOnlyAfterCleanup(calls, w, after, second);
  }

  // ---------------------------------------------------------------------------
  // Until then, exactly one
  // ---------------------------------------------------------------------------

  /** The next statement is a cleanup whose clock is past the expiry now stored for `jti`. */
  predicate CleansUp(calls: seq<Call>, w: World, c: nat, jti: string)
    requires |w.pcs| == |calls|
  {
    c < |calls| && w.pcs[c] == Begun && jti in w.table && w.table[jti] < calls[c].now
  }

  /** Some cleanup that runs finds the row of `jti` expired by its clock. */
  predicate SomeCleanup(calls: seq<Call>, w: World, schedule: seq<nat>, jti: string)
    requires |w.pcs| == |calls|
    decreases |schedule|
  {
    && schedule != []
    && (CleansUp(calls, w, schedule[0], jti) || SomeCleanup(calls, Step(calls, w, schedule[0]), schedule[1..], jti))
  }

  ghost predicate SomeDone(calls: seq<Call>, w: World, jti: string)
    requires |w.pcs| == |calls|
  {
    exists c :: 0 <= c < |calls| && calls[c].jti == jti && w.pcs[c].Done?
  }

  lemma {:induction false} EvictedByCleanup(calls: seq<Call>, w: World, schedule: seq<nat>, jti: string)
    requires |w.pcs| == |calls|
    ensures Evictions(calls, w, schedule, jti) == 0 <==> !SomeCleanup(calls, w, schedule, jti)
    decreases |schedule|
  {
    if schedule != [] {
      EvictedByCleanup(calls, Step(calls, w, schedule[0]), schedule[1..], jti);
    }
  }

  lemma {:induction false} RowOfDone(calls: seq<Call>, w: World, schedule: seq<nat>, jti: string)
    requires |w.pcs| == |calls| && !SomeCleanup(calls, w, schedule, jti)
    requires SomeDone(calls, w, jti) ==> jti in w.table
    ensures SomeDone(calls, Run(calls, w, schedule), jti) ==> jti in Run(calls, w, schedule).table
    decreases |schedule|
  {
    if schedule != [] {
      var c, w' := schedule[0], Step(calls, w, schedule[0]);
      if SomeDone(calls, w', jti) && jti !in w.table {
        var d :| 0 <= d < |calls| && calls[d].jti == jti && w'.pcs[d].Done?;
        assert d == c;
      }
      RowOfDone(calls, w', schedule[1..], jti);
    }
  }

  /** Exactly one: as long as no cleanup finds the stored expiry of a `jti` passed, of all completed calls for it,
      however they interleave and on however many servers, one returns true and every other returns false. And only
      so long: as soon as the row is there after such a cleanup, more than one call has returned true. */
  lemma ExactlyOneAccepted(calls: seq<Call>, schedule: seq<nat>, jti: string)
    ensures var w := Run(calls, Start(calls), schedule);
            var cleaned := SomeCleanup(calls, Start(calls), schedule, jti);
            && (!cleaned ==> |Accepted(calls, w, jti)| == if SomeDone(calls, w, jti) then 1 else 0)
            && (jti in w.table ==> (|Accepted(calls, w, jti)| == 1 <==> !cleaned))
  {
    var w := Run(calls, Start(calls), schedule);
    EvictedByCleanup(calls, Start(calls), schedule, jti);
    AcceptancesConserved(calls, schedule, jti);
    if !SomeCleanup(calls, Start(calls), schedule, jti) {
      RowOfDone(calls, Start(calls), schedule, jti);
    }
    if !SomeDone(calls, w, jti) {
      assert Accepted(calls, w, jti) == {};
    }
  }

  // ---------------------------------------------------------------------------
  // The table
  // ---------------------------------------------------------------------------

  class DpopStore {
    var rows: Table

    constructor ()
      ensures rows == map[]
    {
      rows := map[];
    }

    method CheckAndInsert(jti: string, expiresAt: real, now: real) returns (accepted: bool)
      modifies this
      ensures (rows, accepted) == InsertIfAbsent(DeleteExpired(old(rows), now), jti, expiresAt)
    {
      rows := map j | j in rows && !(rows[j] < now) :: rows[j];
      assert rows == DeleteExpired(old(rows), now);
      if jti in rows {
        accepted := false;
      } else {
        rows := rows[jti := expiresAt];
        accepted := true;
      }
    }
  }
}
