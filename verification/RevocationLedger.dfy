/** What the revocations of crates/oauth2-storage-sqlx/src/sqlx.rs add up to over whole runs. */
module RevocationLedger {
  import opened Machine
  import opened SqlStorage

  predicate IsRevoked(db: Db, i: string) {
    i in db.tokens && db.tokens[i].revoked
  }

  lemma RevokedStaysOneStep(db: Db, st: Statement, i: string)
    requires IsRevoked(db, i)
    ensures IsRevoked(Exec(db, st), i)
  {}

  /** Once revoked, a token stays revoked, whatever is executed. */
  lemma {:induction false} RevokedStays(db: Db, sts: seq<Statement>, i: string)
    requires IsRevoked(db, i)
    ensures IsRevoked(Run(db, sts), i)
    decreases |sts|
  {
    if sts != [] {
      RevokedStaysOneStep(db, sts[0], i);
      RevokedStays(Exec(db, sts[0]), sts[1..], i);
    }
  }

  /** The token is one the revocation is meant for. */
  predicate MeantFor(st: Statement, id: string, t: Token) {
    match st
    case RevokeToken(value) => t.accessToken == value || t.refreshToken == Some(value)
    case RevokeById(i) => id == i
    case RevokeFamily(f) => t.family == Some(f)
    case RevokeByUser(u) => t.userId == Some(u)
    case RevokeByClient(c) => t.clientId == c
    case _ => false
  }

  predicate Revocation(st: Statement) {
    st.RevokeToken? || st.RevokeById? || st.RevokeFamily? || st.RevokeByUser? || st.RevokeByClient?
  }

  /** Each of the five revocations revokes exactly the tokens it is meant for, besides those revoked before. It changes
      nothing else about them, and no other row. */
  lemma RevocationMeaning(db: Db, st: Statement)
    requires Revocation(st)
    ensures var db' := Exec(db, st);
            && db' == db.(tokens := db'.tokens) && db'.tokens.Keys == db.tokens.Keys
            && forall i :: i in db.tokens ==>
                 db'.tokens[i] == db.tokens[i].(revoked := db.tokens[i].revoked || MeantFor(st, i, db.tokens[i]))
  {
    var db' := Exec(db, st);
    forall i | i in db.tokens
      ensures i in db'.tokens
      ensures db'.tokens[i] == db.tokens[i].(revoked := db.tokens[i].revoked || MeantFor(st, i, db.tokens[i]))
    {}
  }

  /** Over every run, whose tokens a revocation meant are revoked from then on. */
  lemma RevokedForGood(db: Db, st: Statement, later: seq<Statement>, i: string)
    requires Revocation(st) && i in db.tokens && MeantFor(st, i, db.tokens[i])
    ensures IsRevoked(Run(Exec(db, st), later), i)
  {
    RevocationMeaning(db, st);
    RevokedStays(Exec(db, st), later, i);
  }

  /** And a token that is revoked in the end was saved so, or some statement was meant to revoke it. */
  ghost predicate MeansToRevoke(db: Db, st: Statement, i: string) {
    || (st.SaveToken? && st.id == i && st.token.revoked)
    || (i in db.tokens && Revocation(st) && MeantFor(st, i, db.tokens[i]))
    || (i in db.tokens && st.UnlinkTokens? && db.tokens[i].userId == Some(st.userId))
  }

  lemma RevokedByOneStep(db: Db, st: Statement, i: string)
    requires !IsRevoked(db, i) && IsRevoked(Exec(db, st), i)
    ensures MeansToRevoke(db, st, i)
  {}

  lemma {:induction false} RevokedForAReason(db: Db, sts: seq<Statement>, i: string) returns (n: nat)
    requires !IsRevoked(db, i) && IsRevoked(Run(db, sts), i)
    ensures n < |sts| && MeansToRevoke(Run(db, sts[..n]), sts[n], i)
    decreases |sts|
  {
    var db' := Exec(db, sts[0]);
    if IsRevoked(db', i) {
      RevokedByOneStep(db, sts[0], i);
      n := 0;
    } else {
      var m := RevokedForAReason(db', sts[1..], i);
      n := m + 1;
      assert sts[..n][1..] == sts[1..][..m] && sts[..n][0] == sts[0];
    }
  }

  /** The revocations that return a count meant as "newly revoked": by id, by user and by client. */
  predicate Counted(st: Statement) {
    st.RevokeById? || st.RevokeByUser? || st.RevokeByClient?
  }

  /** The tokens a statement turns from valid to revoked. */
  function Flips(db: Db, st: Statement): set<string> {
    set i | i in db.tokens && !db.tokens[i].revoked && IsRevoked(Exec(db, st), i)
  }

  function SumOfCounts(db: Db, sts: seq<Statement>): nat
    decreases |sts|
  {
    if sts == [] then 0
    else (if Counted(sts[0]) then RowsRevoked(db, sts[0]) else 0) + SumOfCounts(Exec(db, sts[0]), sts[1..])
  }

  /** The tokens that some counted call of the run flipped, as a set. */
  function FlippedByCounted(db: Db, sts: seq<Statement>): set<string>
    decreases |sts|
  {
    if sts == [] then {}
    else (if Counted(sts[0]) then Flips(db, sts[0]) else {}) + FlippedByCounted(Exec(db, sts[0]), sts[1..])
  }

  lemma CountIsFlips(db: Db, st: Statement)
    requires Counted(st)
    ensures RowsRevoked(db, st) == |Flips(db, st)|
    ensures Flips(db, st) == set i | i in db.tokens && MeantFor(st, i, db.tokens[i]) && !db.tokens[i].revoked
  {
    RevocationMeaning(db, st);
    assert Targeted(db, st) == Flips(db, st);
  }

  lemma {:induction false} FlippedWereValid(db: Db, sts: seq<Statement>, i: string)
    requires i in FlippedByCounted(db, sts)
    ensures !IsRevoked(db, i) && IsRevoked(Run(db, sts), i)
    decreases |sts|
  {
    var db' := Exec(db, sts[0]);
    if i in FlippedByCounted(db', sts[1..]) {
      FlippedWereValid(db', sts[1..], i);
      if IsRevoked(db, i) {
        RevokedStaysOneStep(db, sts[0], i);
      }
    } else {
      RevokedStays(db', sts[1..], i);
    }
  }

  /** Revocation ledger: over every run the counts returned by the three calls add up to the number of distinct
      tokens these calls revoked, so no token is counted twice; each of them was valid at the start, if it was
      there, and is revoked at the end. */
  lemma {:induction false} NoTokenCountedTwice(db: Db, sts: seq<Statement>)
    ensures SumOfCounts(db, sts) == |FlippedByCounted(db, sts)|
    ensures forall i :: i in FlippedByCounted(db, sts) ==> !IsRevoked(db, i) && IsRevoked(Run(db, sts), i)
    decreases |sts|
  {
    forall i | i in FlippedByCounted(db, sts) ensures !IsRevoked(db, i) && IsRevoked(Run(db, sts), i) {
      FlippedWereValid(db, sts, i);
    }
    if sts != [] {
      var db' := Exec(db, sts[0]);
      NoTokenCountedTwice(db', sts[1..]);
      if Counted(sts[0]) {
        CountIsFlips(db, sts[0]);
        var now, later := Flips(db, sts[0]), FlippedByCounted(db', sts[1..]);
        assert now !! later;
      }
    }
  }

  /** The family revocation is not part of that ledger: its count includes members that were revoked before, so
      repeating it returns the same number although it flips nothing. */
  lemma FamilyCountsAgain(db: Db, f: string)
    ensures var st := RevokeFamily(f);
            && RowsRevoked(Exec(db, st), st) == RowsRevoked(db, st)
            && Flips(Exec(db, st), st) == {}
            && RowsRevoked(db, st) == |set i | i in db.tokens && db.tokens[i].family == Some(f)|
  {
    var st := RevokeFamily(f);
    assert Targeted(db, st) == set i | i in db.tokens && db.tokens[i].family == Some(f);
    assert Targeted(Exec(db, st), st) == Targeted(db, st);
  }
}
