/** crates/oauth2-storage-sqlx/src/sqlx.rs, `delete_user`: four statements without a transaction. */
module UserDeletion {
  import opened Machine
  import opened SqlStorage
  import RL = RevocationLedger

  function DeleteUser(u: string): seq<Statement> {
    [UnlinkTokens(u), DeleteCodes(u), UnlinkDevices(u), DeleteUserRow(u)]
  }

  ghost predicate Unreferenced(db: Db, u: string) {
    NoToken(db, u) && NoCode(db, u) && NoDevice(db, u)
  }

  lemma UnlinkTokensEffect(db: Db, u: string)
    ensures Exec(db, UnlinkTokens(u)) == db.(tokens := RevokeWhere(db.tokens, UnlinkTokens(u)))
    ensures NoToken(Exec(db, UnlinkTokens(u)), u)
  {}

  lemma DeleteCodesEffect(db: Db, u: string)
    ensures Exec(db, DeleteCodes(u)) == db.(codes := CodesOfOthers(db.codes, u))
    ensures NoCode(Exec(db, DeleteCodes(u)), u)
  {}

  lemma UnlinkDevicesEffect(db: Db, u: string)
    ensures Exec(db, UnlinkDevices(u)) == db.(devices := UpdateDevices(db.devices, UnlinkDevices(u)))
    ensures NoDevice(Exec(db, UnlinkDevices(u)), u)
  {}

  lemma DeleteUserRowEffect(db: Db, u: string)
    ensures Accepts(db, DeleteUserRow(u)) <==> Unreferenced(db, u)
    ensures Unreferenced(db, u) ==> Exec(db, DeleteUserRow(u)) == db.(users := db.users - {u})
  {}

  /** The database right before the last statement of an undisturbed delete_user. */
  function Cleared(db: Db, u: string): Db {
    db.(tokens := RevokeWhere(db.tokens, UnlinkTokens(u)),
        codes := CodesOfOthers(db.codes, u),
        devices := UpdateDevices(db.devices, UnlinkDevices(u)))
  }

  lemma FirstThreeStatements(db: Db, u: string)
    ensures Exec(Exec(Exec(db, UnlinkTokens(u)), DeleteCodes(u)), UnlinkDevices(u)) == Cleared(db, u)
  {
    var d1 := db.(tokens := RevokeWhere(db.tokens, UnlinkTokens(u)));
    var d2 := d1.(codes := CodesOfOthers(db.codes, u));
    UnlinkTokensEffect(db, u);
    DeleteCodesEffect(d1, u);
    UnlinkDevicesEffect(d2, u);
  }

  lemma RunFour(db: Db, a: Statement, b: Statement, c: Statement, d: Statement)
    ensures Run(db, [a, b, c, d]) == Exec(Exec(Exec(Exec(db, a), b), c), d)
  {
    assert [a, b, c, d][1..] == [b, c, d] && [b, c, d][1..] == [c, d] && [c, d][1..] == [d] && [d][1..] == [];
    var d2 := Exec(Exec(db, a), b);
    assert Run(Exec(d2, c), [d]) == Exec(Exec(d2, c), d);
    assert Run(d2, [c, d]) == Run(Exec(d2, c), [d]);
  }

  lemma RunDeleteUser(db: Db, u: string)
    ensures Run(db, DeleteUser(u)) == Exec(Cleared(db, u), DeleteUserRow(u))
  {
    FirstThreeStatements(db, u);
    RunFour(db, UnlinkTokens(u), DeleteCodes(u), UnlinkDevices(u), DeleteUserRow(u));
  }

  /** Nothing of user u is left, and what changed is u's: its tokens are revoked and unlinked, its codes deleted,
      its devices unlinked. */
  ghost predicate OnlyErased(db: Db, d: Db, u: string) {
    && Unreferenced(d, u)
    && d.tokens.Keys == db.tokens.Keys
    && (forall i :: i in db.tokens ==>
          d.tokens[i] == if db.tokens[i].userId == Some(u)
                         then db.tokens[i].(revoked := true, userId := None) else db.tokens[i])
    && (forall i :: i in d.codes <==> i in db.codes && db.codes[i].userId != u)
    && (forall i :: i in d.codes ==> d.codes[i] == db.codes[i])
    && d.devices.Keys == db.devices.Keys
    && (forall i :: i in db.devices ==>
          d.devices[i] == if db.devices[i].userId == Some(u)
                          then db.devices[i].(userId := None) else db.devices[i])
  }

  lemma ClearedOnlyErases(db: Db, u: string)
    ensures OnlyErased(db, Cleared(db, u), u)
  {}

  /** Run without interference, delete_user succeeds on every database and for every id: the user is gone, nothing
      refers to it, exactly its tokens were revoked, and no row of anybody else changed. */
  lemma SerialDeletion(db: Db, u: string)
    ensures Accepts(Cleared(db, u), DeleteUserRow(u))
    ensures var d := Run(db, DeleteUser(u));
            d.users == db.users - {u} && d.clients == db.clients && OnlyErased(db, d, u)
  {
    ClearedOnlyErases(db, u);
    RunDeleteUser(db, u);
    DeleteUserRowEffect(Cleared(db, u), u);
  }

  // ---------------------------------------------------------------------------
  // Interleaved with other storage operations
  // ---------------------------------------------------------------------------

  datatype Table = Tokens | Codes | Devices

  /** The row belongs to user u. */
  predicate Owns(t: Table, db: Db, u: string, id: string) {
    match t
    case Tokens => id in db.tokens && db.tokens[id].userId == Some(u)
    case Codes => id in db.codes && db.codes[id].userId == u
    case Devices => id in db.devices && db.devices[id].userId == Some(u)
  }

  /** The statement is accepted and gives the row to user u. */
  predicate Gives(t: Table, db: Db, st: Statement, u: string, id: string) {
    && Accepts(db, st)
    && match t
       case Tokens => st.SaveToken? && st.id == id && st.token.userId == Some(u)
       case Codes => st.SaveCode? && st.id == id && st.row.userId == u
       case Devices =>
         || (st.SaveDevice? && st.id == id && st.device.userId == Some(u))
         || (st.ApproveDevice? && st.userId == u && id in db.devices && db.devices[id].userCode == st.userCode)
  }

  /** The statement takes the row from user u: it is the one of another delete_user of u that clears the table, or
      somebody else's approval of this device. */
  predicate Takes(t: Table, db: Db, st: Statement, u: string, id: string) {
    match t
    case Tokens => st == UnlinkTokens(u)
    case Codes => st == DeleteCodes(u)
    case Devices =>
      || st == UnlinkDevices(u)
      || (&& st.ApproveDevice? && st.userId != u && Accepts(db, st)
          && id in db.devices && db.devices[id].userCode == st.userCode)
  }

  predicate NeverTaken(t: Table, db: Db, sts: seq<Statement>, u: string, id: string)
    decreases |sts|
  {
    sts == [] || (!Takes(t, db, sts[0], u, id) && NeverTaken(t, Exec(db, sts[0]), sts[1..], u, id))
  }

  /** Some statement of the run gives the row to user u, and no later one takes it. */
  predicate LastingLink(t: Table, db: Db, sts: seq<Statement>, u: string, id: string)
    decreases |sts|
  {
    && sts != []
    && var db' := Exec(db, sts[0]);
       || (Gives(t, db, sts[0], u, id) && NeverTaken(t, db', sts[1..], u, id))
       || LastingLink(t, db', sts[1..], u, id)
  }

  lemma TokenAfter(db: Db, st: Statement, u: string, id: string)
    ensures Owns(Tokens, Exec(db, st), u, id)
            <==> (Owns(Tokens, db, u, id) && !Takes(Tokens, db, st, u, id)) || Gives(Tokens, db, st, u, id)
  {}

  lemma CodeAfter(db: Db, st: Statement, u: string, id: string)
    ensures Owns(Codes, Exec(db, st), u, id)
            <==> (Owns(Codes, db, u, id) && !Takes(Codes, db, st, u, id)) || Gives(Codes, db, st, u, id)
  {}

  lemma DeviceAfterStep(db: Db, st: Statement, u: string, id: string)
    ensures Owns(Devices, Exec(db, st), u, id)
            <==> (Owns(Devices, db, u, id) && !Takes(Devices, db, st, u, id)) || Gives(Devices, db, st, u, id)
  {}

  /** Ownership over every run: a row belongs to user u at the end exactly if it did at the start and was never
      taken, or was given to u and not taken since. */
  lemma {:induction false} OwnedAfterRun(t: Table, db: Db, sts: seq<Statement>, u: string, id: string)
    ensures Owns(t, Run(db, sts), u, id)
            <==> (Owns(t, db, u, id) && NeverTaken(t, db, sts, u, id)) || LastingLink(t, db, sts, u, id)
    decreases |sts|
  {
    if sts != [] {
      match t {
        case Tokens => TokenAfter(db, sts[0], u, id);
        case Codes => CodeAfter(db, sts[0], u, id);
        case Devices => DeviceAfterStep(db, sts[0], u, id);
      }
      OwnedAfterRun(t, Exec(db, sts[0]), sts[1..], u, id);
    }
  }

  // delete_user with other statements a, b, c between its four

  function TokensUnlinked(db: Db, u: string): Db {
    Exec(db, UnlinkTokens(u))
  }

  function CodesDeleted(db: Db, u: string, a: seq<Statement>): Db {
    Exec(Run(TokensUnlinked(db, u), a), DeleteCodes(u))
  }

  function DevicesUnlinked(db: Db, u: string, a: seq<Statement>, b: seq<Statement>): Db {
    Exec(Run(CodesDeleted(db, u, a), b), UnlinkDevices(u))
  }

  /** Up to the last statement. */
  function Interleaved(db: Db, u: string, a: seq<Statement>, b: seq<Statement>, c: seq<Statement>): Db {
    Run(DevicesUnlinked(db, u, a, b), c)
  }

  /** What runs after the tokens are unlinked, and after the codes are deleted. */
  function AfterCodes(u: string, b: seq<Statement>, c: seq<Statement>): seq<Statement> {
    b + ([UnlinkDevices(u)] + c)
  }

  function AfterTokens(u: string, a: seq<Statement>, b: seq<Statement>, c: seq<Statement>): seq<Statement> {
    a + ([DeleteCodes(u)] + AfterCodes(u, b, c))
  }

  /** A row of a table that delete_user has already cleared is given to the user and not taken again. */
  ghost predicate LateLink(db: Db, u: string, a: seq<Statement>, b: seq<Statement>, c: seq<Statement>, id: string) {
    || LastingLink(Tokens, TokensUnlinked(db, u), AfterTokens(u, a, b, c), u, id)
    || LastingLink(Codes, CodesDeleted(db, u, a), AfterCodes(u, b, c), u, id)
    || LastingLink(Devices, DevicesUnlinked(db, u, a, b), c, u, id)
  }

  lemma RunCons(db: Db, st: Statement, sts: seq<Statement>)
    ensures Run(db, [st] + sts) == Run(Exec(db, st), sts)
  {
    assert ([st] + sts)[1..] == sts;
  }

  lemma SameRun(db: Db, u: string, a: seq<Statement>, b: seq<Statement>, c: seq<Statement>)
    ensures Run(CodesDeleted(db, u, a), AfterCodes(u, b, c)) == Interleaved(db, u, a, b, c)
    ensures Run(TokensUnlinked(db, u), AfterTokens(u, a, b, c)) == Interleaved(db, u, a, b, c)
  {
    var d1, d2 := TokensUnlinked(db, u), CodesDeleted(db, u, a);
    RunConcat(d2, b, [UnlinkDevices(u)] + c);
    RunCons(Run(d2, b), UnlinkDevices(u), c);
    RunConcat(d1, a, [DeleteCodes(u)] + AfterCodes(u, b, c));
    RunCons(Run(d1, a), DeleteCodes(u), AfterCodes(u, b, c));
  }

  /** What the user still owns before the last statement is what was linked too late. */
  lemma OwnedAtTheEnd(db: Db, u: string, a: seq<Statement>, b: seq<Statement>, c: seq<Statement>, id: string)
    ensures var d := Interleaved(db, u, a, b, c);
            Owns(Tokens, d, u, id) || Owns(Codes, d, u, id) || Owns(Devices, d, u, id)
            <==> LateLink(db, u, a, b, c, id)
  {
    SameRun(db, u, a, b, c);
    UnlinkTokensEffect(db, u);
    DeleteCodesEffect(Run(TokensUnlinked(db, u), a), u);
    UnlinkDevicesEffect(Run(CodesDeleted(db, u, a), b), u);
    OwnedAfterRun(Tokens, TokensUnlinked(db, u), AfterTokens(u, a, b, c), u, id);
    OwnedAfterRun(Codes, CodesDeleted(db, u, a), AfterCodes(u, b, c), u, id);
    OwnedAfterRun(Devices, DevicesUnlinked(db, u, a, b), c, u, id);
  }

  lemma ReferencedIff(d: Db, u: string)
    ensures Unreferenced(d, u)
            <==> forall id :: !Owns(Tokens, d, u, id) && !Owns(Codes, d, u, id) && !Owns(Devices, d, u, id)
  {
    assert NoToken(d, u) <==> forall id :: !Owns(Tokens, d, u, id) by {
      assert forall id :: id in d.tokens ==> (Owns(Tokens, d, u, id) <==> d.tokens[id].userId == Some(u));
    }
    assert NoCode(d, u) <==> forall id :: !Owns(Codes, d, u, id) by {
      assert forall id :: id in d.codes ==> (Owns(Codes, d, u, id) <==> d.codes[id].userId == u);
    }
    assert NoDevice(d, u) <==> forall id :: !Owns(Devices, d, u, id) by {
      assert forall id :: id in d.devices ==> (Owns(Devices, d, u, id) <==> d.devices[id].userId == Some(u));
    }
  }

  /** Interleaved with any statements, delete_user succeeds if and only if no row of a table it has already cleared is
      given to the user and not taken again. If it succeeds the user is gone and unreferenced; otherwise the last
      statement changes nothing. */
  lemma InterleavedDeletion(db: Db, u: string, a: seq<Statement>, b: seq<Statement>, c: seq<Statement>)
    ensures var d := Interleaved(db, u, a, b, c);
            && (Accepts(d, DeleteUserRow(u)) <==> forall id :: !LateLink(db, u, a, b, c, id))
            && (if Accepts(d, DeleteUserRow(u))
                then u !in Exec(d, DeleteUserRow(u)).users && Unreferenced(Exec(d, DeleteUserRow(u)), u)
                else Exec(d, DeleteUserRow(u)) == d)
  {
    var d := Interleaved(db, u, a, b, c);
    forall id
      ensures Owns(Tokens, d, u, id) || Owns(Codes, d, u, id) || Owns(Devices, d, u, id)
              <==> LateLink(db, u, a, b, c, id)
    {
      OwnedAtTheEnd(db, u, a, b, c, id);
    }
    ReferencedIff(d, u);
    DeleteUserRowEffect(d, u);
  }

  /** Whatever is interleaved and however it ends, no token the user had when it began survives valid. */
  lemma InterleavedRevokes(db: Db, u: string, a: seq<Statement>, b: seq<Statement>, c: seq<Statement>, i: string)
    requires i in db.tokens && db.tokens[i].userId == Some(u)
    ensures RL.IsRevoked(Exec(Interleaved(db, u, a, b, c), DeleteUserRow(u)), i)
  {
    UnlinkTokensEffect(db, u);
    var d0 := Exec(db, UnlinkTokens(u));
    RL.RevokedStays(d0, a, i);
    var d1 := Run(d0, a);
    RL.RevokedStaysOneStep(d1, DeleteCodes(u), i);
    RL.RevokedStays(Exec(d1, DeleteCodes(u)), b, i);
    var d2 := Run(Exec(d1, DeleteCodes(u)), b);
    RL.RevokedStaysOneStep(d2, UnlinkDevices(u), i);
    RL.RevokedStays(Exec(d2, UnlinkDevices(u)), c, i);
    RL.RevokedStaysOneStep(Interleaved(db, u, a, b, c), DeleteUserRow(u), i);
  }

  /** How it fails: a token saved for the user after its tokens were unlinked makes the last statement
      fail. The user then stays, with its earlier tokens already revoked and its codes already deleted. */
  lemma LateTokenStopsDeletion(db: Db, u: string, id: string, t: Token)
    requires Integrity(db) && u in db.users && t.userId == Some(u) && Accepts(db, SaveToken(id, t))
    ensures var d := Interleaved(db, u, [SaveToken(id, t)], [], []);
            && !Accepts(d, DeleteUserRow(u))
            && u in d.users && NoCode(d, u)
            && forall i :: i in db.tokens && db.tokens[i].userId == Some(u) ==> i in d.tokens && d.tokens[i].revoked
  {
    var st := SaveToken(id, t);
    var d0 := db.(tokens := RevokeWhere(db.tokens, UnlinkTokens(u)));
    UnlinkTokensEffect(db, u);
    assert Accepts(d0, st);
    var d1 := d0.(tokens := d0.tokens[id := t]);
    assert Exec(d0, st) == d1;
    assert [st][1..] == [] && Run(d0, [st]) == d1;
    DeleteCodesEffect(d1, u);
    var d2 := d1.(codes := CodesOfOthers(d1.codes, u));
    UnlinkDevicesEffect(d2, u);
    DeleteUserRowEffect(Exec(d2, UnlinkDevices(u)), u);
    assert d1.tokens[id].userId == Some(u);
  }

  // ---------------------------------------------------------------------------
  // The method
  // ---------------------------------------------------------------------------

  class SqlxStorage {
    var db: Db

    constructor (db: Db)
      ensures this.db == db
    {
      this.db := db;
    }

    method Execute(st: Statement) returns (ok: bool)
      modifies this
      ensures db == Exec(old(db), st) && ok == Accepts(old(db), st)
    {
      ok := Accepts(db, st);
      if ok {
        db := Db(ClientsAfter(db, st), UsersAfter(db, st),
                 TokensAfter(db, st), CodesAfter(db, st), DevicesAfter(db, st));
      }
    }

    /** `revoke_token_by_id`, `revoke_tokens_by_user_id` and `revoke_tokens_by_client_id` return rows_affected. */
    method RevokeCounted(st: Statement) returns (rows: nat)
      requires RL.Counted(st)
      modifies this
      ensures db == Exec(old(db), st) && rows == |RL.Flips(old(db), st)|
    {
      RL.CountIsFlips(db, st);
      rows := |set i | i in db.tokens && Targets(st, i, db.tokens[i])|;
      var ok := Execute(st);
    }

    method DeleteUserNow(u: string) returns (ok: bool)
      modifies this
      ensures ok && db == Run(old(db), DeleteUser(u))
    {
      SerialDeletion(db, u);
      RunDeleteUser(db, u);
      FirstThreeStatements(db, u);
      ok := Execute(UnlinkTokens(u));
      if !ok { return; }
      ok := Execute(DeleteCodes(u));
      if !ok { return; }
      ok := Execute(UnlinkDevices(u));
      if !ok { return; }
      ok := Execute(DeleteUserRow(u));
    }
  }
}
