/** crates/oauth2-storage-sqlx/src/sqlx.rs: the tables that reference users, the statements that change them, and
    the constraints the schema declares. Every statement is one atomic step on one primary database. */
module SqlStorage {
  import opened Machine

  datatype Token = Token(
    accessToken: string, refreshToken: Option<string>, clientId: string, userId: Option<string>,
    revoked: bool, family: Option<string>)

  datatype Code = Code(code: string, clientId: string, userId: string, used: bool)

  datatype Device = Device(
    deviceCode: string, userCode: string, clientId: string, userId: Option<string>,
    approved: bool, denied: bool, used: bool)

  /** Rows by primary key; a user row is represented by its unique name. */
  datatype Db = Db(
    clients: set<string>, users: map<string, string>,
    tokens: map<string, Token>, codes: map<string, Code>, devices: map<string, Device>)

  datatype Statement =
    | SaveClient(clientId: string)
    | DeleteClient(clientId: string)
    | SaveUser(userId: string, username: string)
    | SaveToken(id: string, token: Token)
    | RevokeToken(value: string)
    | RevokeById(id: string)
    | SetFamily(accessToken: string, family: string)
    | RevokeFamily(family: string)
    | RevokeByUser(userId: string)
    | RevokeByClient(clientId: string)
    | SaveCode(id: string, row: Code)
    | MarkCodeUsed(code: string)
    | SaveDevice(id: string, device: Device)
    | ApproveDevice(userCode: string, userId: string)
    | DenyDevice(userCode: string)
    | MarkDeviceUsed(deviceCode: string)
    // the four statements of delete_user
    | UnlinkTokens(userId: string)
    | DeleteCodes(userId: string)
    | UnlinkDevices(userId: string)
    | DeleteUserRow(userId: string)

  // ---------------------------------------------------------------------------
  // Constraints
  // ---------------------------------------------------------------------------

  predicate UserKnown(db: Db, user: Option<string>) {
    user.Some? ==> user.value in db.users
  }

  /** FOREIGN KEY (client_id) and FOREIGN KEY (user_id) of the three tables. */
  ghost predicate Integrity(db: Db) {
    TokenKeys(db) && CodeKeys(db) && DeviceKeys(db)
  }

  ghost predicate TokenKeys(db: Db) {
    forall i :: i in db.tokens ==> db.tokens[i].clientId in db.clients && UserKnown(db, db.tokens[i].userId)
  }

  ghost predicate CodeKeys(db: Db) {
    forall i :: i in db.codes ==> db.codes[i].clientId in db.clients && db.codes[i].userId in db.users
  }

  ghost predicate DeviceKeys(db: Db) {
    forall i :: i in db.devices ==> db.devices[i].clientId in db.clients && UserKnown(db, db.devices[i].userId)
  }

  predicate NoToken(db: Db, u: string) {
    forall i :: i in db.tokens ==> db.tokens[i].userId != Some(u)
  }

  predicate NoCode(db: Db, u: string) {
    forall i :: i in db.codes ==> db.codes[i].userId != u
  }

  predicate NoDevice(db: Db, u: string) {
    forall i :: i in db.devices ==> db.devices[i].userId != Some(u)
  }

  predicate ClientUnused(db: Db, c: string) {
    && (forall i :: i in db.tokens ==> db.tokens[i].clientId != c)
    && (forall i :: i in db.codes ==> db.codes[i].clientId != c)
    && (forall i :: i in db.devices ==> db.devices[i].clientId != c)
  }

  // ---------------------------------------------------------------------------
  // Statements
  // ---------------------------------------------------------------------------

  /** The WHERE clause of the statements that revoke tokens. */
  predicate Targets(st: Statement, id: string, t: Token) {
    match st
    case RevokeToken(v) => t.accessToken == v || t.refreshToken == Some(v)
    case RevokeById(i) => id == i && !t.revoked
    case RevokeFamily(f) => t.family == Some(f)
    case RevokeByUser(u) => t.userId == Some(u) && !t.revoked
    case RevokeByClient(c) => t.clientId == c && !t.revoked
    case UnlinkTokens(u) => t.userId == Some(u)
    case _ => false
  }

  function Targeted(db: Db, st: Statement): set<string> {
    set i | i in db.tokens && Targets(st, i, db.tokens[i])
  }

  /** PRIMARY KEY, UNIQUE and FOREIGN KEY checks. */
  predicate Accepts(db: Db, st: Statement) {
    match st
    case SaveClient(c) => c !in db.clients
    case DeleteClient(c) => ClientUnused(db, c)
    case SaveUser(u, name) => u !in db.users && name !in db.users.Values
    case SaveToken(i, t) =>
      && i !in db.tokens && t.clientId in db.clients && UserKnown(db, t.userId)
      && forall j :: j in db.tokens ==> db.tokens[j].accessToken != t.accessToken
    case SaveCode(i, c) =>
      && i !in db.codes && c.clientId in db.clients && c.userId in db.users
      && forall j :: j in db.codes ==> db.codes[j].code != c.code
    case SaveDevice(i, d) =>
      && i !in db.devices && d.clientId in db.clients && UserKnown(db, d.userId)
      && forall j :: j in db.devices ==>
           db.devices[j].deviceCode != d.deviceCode && db.devices[j].userCode != d.userCode
    case ApproveDevice(c, u) => u in db.users || forall j :: j in db.devices ==> db.devices[j].userCode != c
    case DeleteUserRow(u) => NoToken(db, u) && NoCode(db, u) && NoDevice(db, u)
    case _ => true
  }

  /** `SET revoked = true`, and `user_id = NULL` too in delete_user. */
  function Revoked(st: Statement, t: Token): Token {
    t.(revoked := true, userId := if st.UnlinkTokens? then None else t.userId)
  }

  function RevokeWhere(tokens: map<string, Token>, st: Statement): map<string, Token> {
    map i | i in tokens :: if Targets(st, i, tokens[i]) then Revoked(st, tokens[i]) else tokens[i]
  }

  function TokensAfter(db: Db, st: Statement): map<string, Token> {
    match st
    case SaveToken(i, t) => db.tokens[i := t]
    case SetFamily(a, f) =>
      map i | i in db.tokens ::
        if db.tokens[i].accessToken == a then db.tokens[i].(family := Some(f)) else db.tokens[i]
    case RevokeToken(_) | RevokeById(_) | RevokeFamily(_) | RevokeByUser(_) | RevokeByClient(_) | UnlinkTokens(_) =>
      RevokeWhere(db.tokens, st)
    case _ => db.tokens
  }

  function CodesAfter(db: Db, st: Statement): map<string, Code> {
    match st
    case SaveCode(i, c) => db.codes[i := c]
    case MarkCodeUsed(c) =>
      map i | i in db.codes :: if db.codes[i].code == c then db.codes[i].(used := true) else db.codes[i]
    case DeleteCodes(u) => CodesOfOthers(db.codes, u)
    case _ => db.codes
  }

  function CodesOfOthers(codes: map<string, Code>, u: string): map<string, Code> {
    map i | i in codes && codes[i].userId != u :: codes[i]
  }

  function DeviceAfter(d: Device, st: Statement): Device {
    match st
    case ApproveDevice(c, u) => if d.userCode == c then d.(approved := true, denied := false, userId := Some(u)) else d
    case DenyDevice(c) => if d.userCode == c then d.(denied := true, approved := false) else d
    case MarkDeviceUsed(c) => if d.deviceCode == c then d.(used := true) else d
    case UnlinkDevices(u) => if d.userId == Some(u) then d.(userId := None) else d
    case _ => d
  }

  function DevicesAfter(db: Db, st: Statement): map<string, Device> {
    match st
    case SaveDevice(i, d) => db.devices[i := d]
    case ApproveDevice(_, _) | DenyDevice(_) | MarkDeviceUsed(_) | UnlinkDevices(_) => UpdateDevices(db.devices, st)
    case _ => db.devices
  }

  function UpdateDevices(devices: map<string, Device>, st: Statement): map<string, Device> {
    map i | i in devices :: DeviceAfter(devices[i], st)
  }

  function UsersAfter(db: Db, st: Statement): map<string, string> {
    match st
    case SaveUser(u, name) => db.users[u := name]
    case DeleteUserRow(u) => db.users - {u}
    case _ => db.users
  }

  function ClientsAfter(db: Db, st: Statement): set<string> {
    match st
    case SaveClient(c) => db.clients + {c}
    case DeleteClient(c) => db.clients - {c}
    case _ => db.clients
  }

  /** An accepted statement changes the tables; a rejected one is an error and changes nothing. */
  function Exec(db: Db, st: Statement): Db {
    if Accepts(db, st)
    then Db(ClientsAfter(db, st), UsersAfter(db, st), TokensAfter(db, st), CodesAfter(db, st), DevicesAfter(db, st))
    else db
  }

  /** `rows_affected` of the statements that revoke tokens. */
  function RowsRevoked(db: Db, st: Statement): nat {
    |Targeted(db, st)|
  }

  function Run(db: Db, sts: seq<Statement>): Db
    decreases |sts|
  {
    if sts == [] then db else Run(Exec(db, sts[0]), sts[1..])
  }

  lemma {:induction false} RunConcat(db: Db, xs: seq<Statement>, ys: seq<Statement>)
    ensures Run(db, xs + ys) == Run(Run(db, xs), ys)
    decreases |xs|
  {
    if xs == [] {
      assert xs + ys == ys;
    } else {
      assert (xs + ys)[1..] == xs[1..] + ys;
      RunConcat(Exec(db, xs[0]), xs[1..], ys);
    }
  }

  /** Where a token row after a statement comes from. */
  lemma TokenOrigin(db: Db, st: Statement, i: string)
    requires i in TokensAfter(db, st)
    ensures (st.SaveToken? && i == st.id && TokensAfter(db, st)[i] == st.token) ||
            (&& i in db.tokens
             && TokensAfter(db, st)[i].clientId == db.tokens[i].clientId
             && (TokensAfter(db, st)[i].userId == db.tokens[i].userId || TokensAfter(db, st)[i].userId.None?))
  {}

  lemma DeviceOrigin(db: Db, st: Statement, i: string)
    requires i in DevicesAfter(db, st)
    ensures (st.SaveDevice? && i == st.id && DevicesAfter(db, st)[i] == st.device) ||
            (&& i in db.devices
             && DevicesAfter(db, st)[i].clientId == db.devices[i].clientId
             && (|| DevicesAfter(db, st)[i].userId == db.devices[i].userId
                 || DevicesAfter(db, st)[i].userId.None?
                 || (st.ApproveDevice? && db.devices[i].userCode == st.userCode
                     && DevicesAfter(db, st)[i].userId == Some(st.userId))))
  {}

  /** Users and clients disappear only by their own delete. */
  lemma PrincipalsStay(db: Db, st: Statement)
    ensures forall u :: u in db.users && st != DeleteUserRow(u) ==> u in UsersAfter(db, st)
    ensures forall c :: c in db.clients && st != DeleteClient(c) ==> c in ClientsAfter(db, st)
  {}

  lemma ExecKeepsTokenKeys(db: Db, st: Statement)
    requires TokenKeys(db)
    ensures TokenKeys(Exec(db, st))
  {
    if Accepts(db, st) {
      var db' := Exec(db, st);
      PrincipalsStay(db, st);
      forall i | i in db'.tokens ensures db'.tokens[i].clientId in db'.clients && UserKnown(db', db'.tokens[i].userId) {
        TokenOrigin(db, st, i);
      }
    }
  }

  lemma ExecKeepsCodeKeys(db: Db, st: Statement)
    requires CodeKeys(db)
    ensures CodeKeys(Exec(db, st))
  {}

  lemma ExecKeepsDeviceKeys(db: Db, st: Statement)
    requires DeviceKeys(db)
    ensures DeviceKeys(Exec(db, st))
  {
    if Accepts(db, st) {
      var db' := Exec(db, st);
      PrincipalsStay(db, st);
      forall i | i in db'.devices
        ensures db'.devices[i].clientId in db'.clients && UserKnown(db', db'.devices[i].userId)
      {
        DeviceOrigin(db, st, i);
      }
    }
  }

  lemma ExecKeepsIntegrity(db: Db, st: Statement)
    requires Integrity(db)
    ensures Integrity(Exec(db, st))
  {
    ExecKeepsTokenKeys(db, st);
    ExecKeepsCodeKeys(db, st);
    ExecKeepsDeviceKeys(db, st);
  }

  /** Referential integrity: every run of statements, with those of delete_user anywhere among them, keeps every
      foreign key of tokens, codes and device authorizations valid. */
  lemma {:induction false} RunKeepsIntegrity(db: Db, sts: seq<Statement>)
    requires Integrity(db)
    ensures Integrity(Run(db, sts))
    decreases |sts|
  {
    if sts != [] {
      ExecKeepsIntegrity(db, sts[0]);
      RunKeepsIntegrity(Exec(db, sts[0]), sts[1..]);
    }
  }
}
