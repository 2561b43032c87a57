/** crates/oauth2-storage-sqlx/src/sqlx.rs: what the statements do row by row, and that the database refuses exactly
    those that would break a constraint of the schema. */
module SqlStatements {
  import opened Machine
  import opened SqlStorage

  // ---------------------------------------------------------------------------
  // Constraints are all that is refused
  // ---------------------------------------------------------------------------

  ghost predicate UniqueUsers(db: Db) {
    forall u, v :: u in db.users && v in db.users && db.users[u] == db.users[v] ==> u == v
  }

  ghost predicate UniqueTokens(db: Db) {
    forall i, j :: i in db.tokens && j in db.tokens && db.tokens[i].accessToken == db.tokens[j].accessToken ==> i == j
  }

  ghost predicate UniqueCodes(db: Db) {
    forall i, j :: i in db.codes && j in db.codes && db.codes[i].code == db.codes[j].code ==> i == j
  }

  ghost predicate UniqueDevices(db: Db) {
    && (forall i, j :: i in db.devices && j in db.devices && db.devices[i].deviceCode == db.devices[j].deviceCode
          ==> i == j)
    && (forall i, j :: i in db.devices && j in db.devices && db.devices[i].userCode == db.devices[j].userCode
          ==> i == j)
  }

  /** All constraints of the schema hold. */
  ghost predicate Consistent(db: Db) {
    Integrity(db) && UniqueUsers(db) && UniqueTokens(db) && UniqueCodes(db) && UniqueDevices(db)
  }

  /** The tables if nothing were checked. */
  function Unchecked(db: Db, st: Statement): Db {
    Db(ClientsAfter(db, st), UsersAfter(db, st), TokensAfter(db, st), CodesAfter(db, st), DevicesAfter(db, st))
  }

  /** An INSERT comes with a primary key that is not there yet. */
  predicate NewKey(db: Db, st: Statement) {
    match st
    case SaveClient(c) => c !in db.clients
    case SaveUser(u, _) => u !in db.users
    case SaveToken(i, _) => i !in db.tokens
    case SaveCode(i, _) => i !in db.codes
    case SaveDevice(i, _) => i !in db.devices
    case _ => true
  }

  lemma InsertTokenIff(db: Db, i: string, t: Token)
    requires Consistent(db) && i !in db.tokens
    ensures Accepts(db, SaveToken(i, t)) <==> Consistent(Unchecked(db, SaveToken(i, t)))
  {
    var d := Unchecked(db, SaveToken(i, t));
    assert d == db.(tokens := db.tokens[i := t]) && d.tokens[i] == t;
    if Consistent(d) {
      forall j | j in db.tokens ensures db.tokens[j].accessToken != t.accessToken {
        assert d.tokens[j] == db.tokens[j];
      }
    }
  }

  lemma InsertCodeIff(db: Db, i: string, c: Code)
    requires Consistent(db) && i !in db.codes
    ensures Accepts(db, SaveCode(i, c)) <==> Consistent(Unchecked(db, SaveCode(i, c)))
  {
    var d := Unchecked(db, SaveCode(i, c));
    assert d == db.(codes := db.codes[i := c]) && d.codes[i] == c;
    if Consistent(d) {
      forall j | j in db.codes ensures db.codes[j].code != c.code {
        assert d.codes[j] == db.codes[j];
      }
    }
  }

  lemma InsertDeviceIff(db: Db, i: string, v: Device)
    requires Consistent(db) && i !in db.devices
    ensures Accepts(db, SaveDevice(i, v)) <==> Consistent(Unchecked(db, SaveDevice(i, v)))
  {
    var d := Unchecked(db, SaveDevice(i, v));
    assert d == db.(devices := db.devices[i := v]) && d.devices[i] == v;
    if Consistent(d) {
      forall j | j in db.devices
        ensures db.devices[j].deviceCode != v.deviceCode && db.devices[j].userCode != v.userCode
      {
        assert d.devices[j] == db.devices[j];
      }
    }
  }

  lemma InsertUserIff(db: Db, u: string, name: string)
    requires Consistent(db) && u !in db.users
    ensures Accepts(db, SaveUser(u, name)) <==> Consistent(Unchecked(db, SaveUser(u, name)))
  {
    var d := Unchecked(db, SaveUser(u, name));
    assert d == db.(users := db.users[u := name]) && d.users[u] == name;
    if Consistent(d) {
      forall v | v in db.users ensures db.users[v] != name {
        assert d.users[v] == db.users[v];
      }
    }
  }

  /** No row is new, and none changed a UNIQUE column. */
  ghost predicate SameUnique(db: Db, d: Db) {
    && (forall u :: u in d.users ==> u in db.users && d.users[u] == db.users[u])
    && (forall i :: i in d.tokens ==> i in db.tokens && d.tokens[i].accessToken == db.tokens[i].accessToken)
    && (forall i :: i in d.codes ==> i in db.codes && d.codes[i].code == db.codes[i].code)
    && (forall i :: i in d.devices ==>
          i in db.devices && d.devices[i].deviceCode == db.devices[i].deviceCode
          && d.devices[i].userCode == db.devices[i].userCode)
  }

  lemma UniqueKept(db: Db, d: Db)
    requires UniqueUsers(db) && UniqueTokens(db) && UniqueCodes(db) && UniqueDevices(db) && SameUnique(db, d)
    ensures UniqueUsers(d) && UniqueTokens(d) && UniqueCodes(d) && UniqueDevices(d)
  {}

  predicate IsInsert(st: Statement) {
    st.SaveToken? || st.SaveCode? || st.SaveDevice? || st.SaveUser?
  }

  lemma UpdateKeepsUnique(db: Db, st: Statement)
    requires !IsInsert(st)
    ensures SameUnique(db, Unchecked(db, st))
  {}

  lemma DeletePrincipalIff(db: Db, st: Statement)
    requires Integrity(db) && (st.DeleteClient? || st.DeleteUserRow?)
    ensures Accepts(db, st) <==> Integrity(Unchecked(db, st))
  {
    var d := Unchecked(db, st);
    assert d == db.(clients := d.clients, users := d.users);
  }

  lemma ApproveIff(db: Db, code: string, u: string)
    requires Integrity(db)
    ensures Accepts(db, ApproveDevice(code, u)) <==> Integrity(Unchecked(db, ApproveDevice(code, u)))
  {
    var d := Unchecked(db, ApproveDevice(code, u));
    if Accepts(db, ApproveDevice(code, u)) {
      ExecKeepsIntegrity(db, ApproveDevice(code, u));
    } else {
      var j :| j in db.devices && db.devices[j].userCode == code;
      assert d.devices[j].userId == Some(u) && !UserKnown(d, Some(u));
    }
  }

  lemma UpdateKeepsIntegrity(db: Db, st: Statement)
    requires Integrity(db) && !IsInsert(st)
    requires !st.DeleteClient? && !st.DeleteUserRow? && !st.ApproveDevice?
    ensures Integrity(Unchecked(db, st))
  {
    var d := Unchecked(db, st);
    if st.SaveClient? {
      assert d == db.(clients := d.clients);
    } else {
      ExecKeepsIntegrity(db, st);
    }
  }

  /** The database refuses exactly the statements that would break a constraint: a primary key that is there, a UNIQUE
      column or a foreign key. */
  lemma RefusedIffInconsistent(db: Db, st: Statement)
    requires Consistent(db)
    ensures Accepts(db, st) <==> NewKey(db, st) && Consistent(Unchecked(db, st))
  {
    if NewKey(db, st) {
      match st
      case SaveToken(i, t) => InsertTokenIff(db, i, t);
      case SaveCode(i, c) => InsertCodeIff(db, i, c);
      case SaveDevice(i, d) => InsertDeviceIff(db, i, d);
      case SaveUser(u, name) => InsertUserIff(db, u, name);
      case _ => UpdateIff(db, st);
    }
  }

  lemma UpdateIff(db: Db, st: Statement)
    requires Consistent(db) && !IsInsert(st) && NewKey(db, st)
    ensures Accepts(db, st) <==> Consistent(Unchecked(db, st))
  {
    UpdateKeepsUnique(db, st);
    UniqueKept(db, Unchecked(db, st));
    if st.DeleteClient? || st.DeleteUserRow? {
      DeletePrincipalIff(db, st);
    } else if st.ApproveDevice? {
      ApproveIff(db, st.userCode, st.userId);
    } else {
      UpdateKeepsIntegrity(db, st);
    }
  }

  /** So every run keeps all constraints, the UNIQUE columns among them. */
  lemma {:induction false} RunKeepsConsistent(db: Db, sts: seq<Statement>)
    requires Consistent(db)
    ensures Consistent(Run(db, sts))
    decreases |sts|
  {
    if sts != [] {
      RefusedIffInconsistent(db, sts[0]);
      RunKeepsConsistent(Exec(db, sts[0]), sts[1..]);
    }
  }

  // ---------------------------------------------------------------------------
  // Row by row
  // ---------------------------------------------------------------------------

  /** Tokens appear only as they are saved and are never deleted; besides the revocations, only `set_token_family`
      changes one, and only its family. */
  lemma TokenRow(db: Db, st: Statement, i: string)
    ensures var after := Exec(db, st).tokens;
            && (i in after <==> i in db.tokens || (Accepts(db, st) && st.SaveToken? && st.id == i))
            && (i in after && i !in db.tokens ==> after[i] == st.token)
            && (i in db.tokens && !st.SetFamily? ==> after[i].family == db.tokens[i].family)
            && (i in db.tokens && st.SetFamily? ==>
                  after[i] == if db.tokens[i].accessToken == st.accessToken
                              then db.tokens[i].(family := Some(st.family)) else db.tokens[i])
  {}

  /** A code appears as it is saved, is marked as used exactly by a statement with its value, and is deleted only with
      its user. */
  lemma CodeRow(db: Db, st: Statement, i: string)
    ensures var after := Exec(db, st).codes;
            && (i in after <==> if i in db.codes then st != DeleteCodes(db.codes[i].userId)
                                else Accepts(db, st) && st.SaveCode? && st.id == i)
            && (i in after && i !in db.codes ==> after[i] == st.row)
            && (i in after && i in db.codes ==>
                  after[i] == db.codes[i].(used := db.codes[i].used || st == MarkCodeUsed(db.codes[i].code)))
  {}

  /** The last decision on a user code wins, an approval also says whose the device is, and use is remembered. */
  ghost predicate DeviceColumns(was: Device, now: Device, st: Statement) {
    var approves := st.ApproveDevice? && st.userCode == was.userCode;
    var denies := st == DenyDevice(was.userCode);
    && now.approved == (approves || (was.approved && !denies))
    && now.denied == (denies || (was.denied && !approves))
    && now.userId == (if approves then Some(st.userId)
                      else if st.UnlinkDevices? && was.userId == Some(st.userId) then None
                      else was.userId)
    && now.used == (was.used || st == MarkDeviceUsed(was.deviceCode))
    && now.deviceCode == was.deviceCode && now.userCode == was.userCode && now.clientId == was.clientId
  }

  lemma DeviceUpdate(d: Device, st: Statement)
    ensures DeviceColumns(d, DeviceAfter(d, st), st)
  {}

  /** A device authorization appears as it is saved and is never deleted; what is not refused changes these columns. */
  lemma DeviceRow(db: Db, st: Statement, i: string)
    ensures var after := Exec(db, st).devices;
            && (i in after <==> i in db.devices || (Accepts(db, st) && st.SaveDevice? && st.id == i))
            && (i in after && i !in db.devices ==> after[i] == st.device)
            && (i in db.devices ==> if Accepts(db, st) then DeviceColumns(db.devices[i], after[i], st)
                                    else after[i] == db.devices[i])
  {
    if i in db.devices {
      DeviceUpdate(db.devices[i], st);
    }
  }

  /** Users and clients are there from their insert to their delete. */
  lemma PrincipalRow(db: Db, st: Statement, id: string)
    ensures var db' := Exec(db, st);
            && (id in db'.users <==>
                  || (Accepts(db, st) && st.SaveUser? && st.userId == id)
                  || (id in db.users && !(Accepts(db, st) && st == DeleteUserRow(id))))
            && (id in db'.users ==> db'.users[id] == if id in db.users then db.users[id] else st.username)
            && (id in db'.clients <==>
                  || (Accepts(db, st) && st == SaveClient(id))
                  || (id in db.clients && !(Accepts(db, st) && st == DeleteClient(id))))
  {}
}
