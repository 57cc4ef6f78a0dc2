/**
 The relational rows behind the refresh protocol, the services that write them, and the database
 contracts they must meet at commit.  Each method is one transaction.
 */
module RefreshTables {
  import opened Wrappers
  import opened RefreshChain

  datatype Lifecycle = AccountActive | CoolingOff | Retired
  datatype SessionState = SessionActive | SessionRevoked | SessionExpired | SessionLoggedOut
  datatype FamilyState = FamilyActive | FamilyRevoked | FamilyExpired
  datatype CredentialState = CredentialActive | CredentialUsed | CredentialRevoked | CredentialExpired

  /** SHA-256 of a token and of a canonical request; both are injective, so each is modelled by
      what it hashes. */
  datatype TokenHash = TokenHash(token: Token)
  datatype RequestHash = RequestHash(credential: Id)

  datatype Account = Account(userId: nat, instanceId: string, lifecycle: Lifecycle, lifecycleVersion: nat)

  datatype Session = Session(
    userId: nat, accountId: Id, refreshFamily: Option<Id>, state: SessionState,
    expiresAt: Time, revokeReason: Option<Reason>, version: nat)

  datatype Family = Family(
    sessionId: Id, state: FamilyState, currentGeneration: nat,
    expiresAt: Time, revokeReason: Option<Reason>, version: nat)

  datatype Credential = Credential(
    familyId: Id, generation: nat, tokenHash: TokenHash, state: CredentialState,
    expiresAt: Time, replacedBy: Option<Id>, version: nat)

  datatype Terminal = Terminal(
    requestHash: RequestHash, predecessor: Id, successor: Option<Id>,
    claimsExpire: Option<Time>, succeeded: bool, errorCode: Option<RefreshError>)

  datatype AuditEvent =
    | LoginSucceeded(sessionId: Id)
    | RefreshSucceeded(sessionId: Id, generation: nat)
    | RefreshReplayed(sessionId: Id)
    | LogoutConverged(sessionId: Id, revoked: bool)
    | PasswordResetSucceeded(userId: nat, revokedSessions: nat)

  datatype Tables = Tables(
    accounts: map<Id, Account>,
    sessions: map<Id, Session>,
    families: map<Id, Family>,
    credentials: map<Id, Credential>,
    terminals: map<(Id, Key), Terminal>)

  // ---- the rows of a chain ----

  function SessionRow(f: Id, c: Chain): Session {
    Session(
      c.userId, c.accountId, Some(f),
      if c.ended.None? then SessionActive
      else if c.ended.value.Logout? then SessionLoggedOut else SessionState.SessionRevoked,
      c.expiresAt, c.ended, if c.ended.None? then 1 else 2)
  }

  function FamilyRow(c: Chain): Family {
    Family(
      c.sessionId, if c.ended.None? then FamilyActive else FamilyRevoked, |c.ids|,
      c.expiresAt, c.ended, |c.ids| + if c.ended.None? then 0 else 1)
  }

  /** Every generation but the last is USED and replaced by the next one; the last is ACTIVE
      exactly while the chain lives. */
  function CredentialRow(f: Id, c: Chain, i: nat): Credential
    requires i < |c.ids|
  {
    var last := i == |c.ids| - 1;
    Credential(
      f, i + 1, TokenHash(Token(c.ids[i], i + 1)),
      if !last then CredentialUsed else if c.ended.None? then CredentialActive else CredentialRevoked,
      c.expiresAt,
      if last then None else Some(c.ids[i + 1]),
      if last && c.ended.None? then 1 else 2)
  }

  function TerminalRow(c: Chain, s: Settled): Terminal
    requires s.Won? ==> 1 <= s.predecessor < |c.ids|
  {
    match s
    case Won(p, exp) =>
      Terminal(RequestHash(c.ids[p - 1]), c.ids[p - 1], Some(c.ids[p]), Some(exp), true, None)
    case Lost(id) =>
      Terminal(RequestHash(id), id, None, None, false, Some(RefreshError.SessionRevoked))
  }

  /** The tables hold the rows of `chains` and nothing else. */
  ghost predicate Represents(t: Tables, chains: map<Id, Chain>) {
    && AccountsMatch(t.accounts, chains)
    && SessionsMatch(t.sessions, chains)
    && FamiliesMatch(t.families, chains)
    && CredentialsMatch(t.credentials, chains)
    && TerminalsMatch(t.terminals, chains)
  }

  ghost predicate AllWellFormed(chains: map<Id, Chain>) {
    forall f :: f in chains ==> WellFormed(chains[f])
  }

  ghost predicate AccountsMatch(rows: map<Id, Account>, chains: map<Id, Chain>) {
    forall f :: f in chains ==> chains[f].accountId in rows && rows[chains[f].accountId].userId == chains[f].userId
  }

  ghost predicate SessionsMatch(rows: map<Id, Session>, chains: map<Id, Chain>) {
    && (forall f :: f in chains ==>
       chains[f].sessionId in rows && rows[chains[f].sessionId] == SessionRow(f, chains[f]))
    && (forall s :: s in rows ==> SessionOwned(rows, chains, s))
  }

  ghost predicate SessionOwned(rows: map<Id, Session>, chains: map<Id, Chain>, s: Id)
    requires s in rows
  {
    var f := rows[s].refreshFamily;
    f.Some? && f.value in chains && chains[f.value].sessionId == s
  }

  ghost predicate FamiliesMatch(rows: map<Id, Family>, chains: map<Id, Chain>) {
    rows.Keys == chains.Keys && forall f :: f in chains ==> rows[f] == FamilyRow(chains[f])
  }

  ghost predicate CredentialsMatch(rows: map<Id, Credential>, chains: map<Id, Chain>) {
    && (forall f, i :: f in chains && 0 <= i < |chains[f].ids| ==> CredentialStored(rows, f, chains[f], i))
    && (forall id :: id in rows ==> CredentialOwned(rows, chains, id))
  }

  ghost predicate CredentialStored(rows: map<Id, Credential>, f: Id, c: Chain, i: nat)
    requires i < |c.ids|
  {
    c.ids[i] in rows && rows[c.ids[i]] == CredentialRow(f, c, i)
  }

  ghost predicate CredentialOwned(rows: map<Id, Credential>, chains: map<Id, Chain>, id: Id)
    requires id in rows
  {
    var r := rows[id];
    r.familyId in chains && 1 <= r.generation <= |chains[r.familyId].ids|
      && chains[r.familyId].ids[r.generation - 1] == id
  }

  ghost predicate TerminalsMatch(rows: map<(Id, Key), Terminal>, chains: map<Id, Chain>) {
    && (forall f, k :: f in chains && k in chains[f].settled ==> TerminalStored(rows, f, chains[f], k))
    && (forall fk :: fk in rows ==> fk.0 in chains && fk.1 in chains[fk.0].settled)
  }

  ghost predicate TerminalStored(rows: map<(Id, Key), Terminal>, f: Id, c: Chain, k: Key)
    requires k in c.settled
  {
    && (c.settled[k].Won? ==> 1 <= c.settled[k].predecessor < |c.ids|)
    && (f, k) in rows
    && rows[(f, k)] == TerminalRow(c, c.settled[k])
  }

  // ---- the database contracts, as the constraint triggers state them ----

  predicate SessionContract(t: Tables, s: Id)
    requires s in t.sessions
  {
    var row := t.sessions[s];
    && row.refreshFamily.Some? && row.refreshFamily.value in t.families
    && var fam := t.families[row.refreshFamily.value];
    && fam.sessionId == s
    && row.accountId in t.accounts && t.accounts[row.accountId].userId == row.userId
    && fam.expiresAt <= row.expiresAt
    && (row.state.SessionActive? <==> fam.state.FamilyActive?)
  }

  predicate FamilyContract(t: Tables, f: Id)
    requires f in t.families
  {
    var fam := t.families[f];
    && fam.sessionId in t.sessions
    && t.sessions[fam.sessionId].refreshFamily == Some(f)
    && SessionContract(t, fam.sessionId)
  }

  ghost predicate CredentialContract(t: Tables, f: Id)
    requires f in t.families
  {
    var fam := t.families[f];
    // the greatest generation of the family is its current generation
    && (exists id ::
       id in t.credentials && t.credentials[id].familyId == f && t.credentials[id].generation == fam.currentGeneration)
    && (forall id :: id in t.credentials && t.credentials[id].familyId == f ==>
         var r := t.credentials[id];
         && r.generation <= fam.currentGeneration
         && r.expiresAt <= fam.expiresAt
         && (r.replacedBy.Some? && r.replacedBy.value in t.credentials ==>
              var next := t.credentials[r.replacedBy.value];
              next.familyId == r.familyId && next.generation == r.generation + 1)
         && (r.state.CredentialActive? ==> fam.state.FamilyActive?))
    && (fam.state.FamilyActive? ==>
         exists id :: id in t.credentials && t.credentials[id].familyId == f
           && t.credentials[id].state.CredentialActive? && t.credentials[id].generation == fam.currentGeneration)
  }

  /** The unique constraints of the credential table. */
  ghost predicate UniqueCredentials(t: Tables) {
    forall a, b :: a in t.credentials && b in t.credentials && a != b ==> Distinct(t, a, b)
  }

  predicate Distinct(t: Tables, a: Id, b: Id)
    requires a in t.credentials && b in t.credentials
  {
    var p, q := t.credentials[a], t.credentials[b];
    && (p.familyId == q.familyId ==> p.generation != q.generation)
    && (p.familyId == q.familyId ==> !(p.state.CredentialActive? && q.state.CredentialActive?))
    && (p.replacedBy.Some? ==> p.replacedBy != q.replacedBy)
  }

  ghost predicate Contracts(t: Tables) {
    && (forall s :: s in t.sessions ==> SessionContract(t, s))
    && (forall f :: f in t.families ==> FamilyContract(t, f) && CredentialContract(t, f))
    && UniqueCredentials(t)
  }

  // ---- the guards before every single update ----

  /** A session keeps its family and its expiry; once it ended its state stays. */
  predicate SessionGuard(old_: Session, new_: Session) {
    && (old_.refreshFamily.Some? ==> new_.refreshFamily == old_.refreshFamily)
    && new_.expiresAt == old_.expiresAt
    && (!old_.state.SessionActive? ==> new_.state == old_.state)
  }

  predicate FamilyGuard(old_: Family, new_: Family) {
    && new_.sessionId == old_.sessionId && new_.expiresAt == old_.expiresAt
    && (!old_.state.FamilyActive? ==> new_.state == old_.state)
  }

  /** A credential keeps its family, generation and expiry; a state other than ACTIVE and a
      replacement stay. */
  predicate CredentialGuard(old_: Credential, new_: Credential) {
    && new_.familyId == old_.familyId && new_.generation == old_.generation && new_.expiresAt == old_.expiresAt
    && (!old_.state.CredentialActive? ==> new_.state == old_.state)
    && (old_.replacedBy.Some? ==> new_.replacedBy == old_.replacedBy)
  }

  /** A credential row is the row of its own generation in its own chain. */
  lemma RowOf(rows: map<Id, Credential>, chains: map<Id, Chain>, id: Id) returns (f: Id, c: Chain, i: nat)
    requires CredentialsMatch(rows, chains) && id in rows
    ensures f in chains && c == chains[f] && i < |c.ids| && c.ids[i] == id
    ensures rows[id] == CredentialRow(f, c, i)
    ensures i + 1 < |c.ids| ==> CredentialStored(rows, f, c, i + 1)
  {
    assert CredentialOwned(rows, chains, id);
    f := rows[id].familyId;
    c := chains[f];
    i := rows[id].generation - 1;
    assert CredentialStored(rows, f, c, i);
  }

  lemma CredentialContractHolds(t: Tables, chains: map<Id, Chain>, f: Id)
    requires FamiliesMatch(t.families, chains) && CredentialsMatch(t.credentials, chains)
    requires f in chains && |chains[f].ids| >= 1
    ensures CredentialContract(t, f)
  {
    var c := chains[f];
    assert CredentialStored(t.credentials, f, c, |c.ids| - 1);
    assert Last(c) in t.credentials && t.credentials[Last(c)].familyId == f;
    forall id | id in t.credentials && t.credentials[id].familyId == f
      ensures var r := t.credentials[id];
              && r.generation <= |c.ids| && r.expiresAt <= c.expiresAt
              && (r.state.CredentialActive? ==> c.ended.None?)
              && (r.replacedBy.Some? && r.replacedBy.value in t.credentials ==>
                   t.credentials[r.replacedBy.value].familyId == f
                     && t.credentials[r.replacedBy.value].generation == r.generation + 1)
    {
      var _, _, _ := RowOf(t.credentials, chains, id);
    }
  }

  lemma DistinctRows(t: Tables, chains: map<Id, Chain>, a: Id, b: Id)
    requires CredentialsMatch(t.credentials, chains)
    requires a in t.credentials && b in t.credentials && a != b
    ensures Distinct(t, a, b)
  {
    var f, c, i := RowOf(t.credentials, chains, a);
    var g, d, j := RowOf(t.credentials, chains, b);
  }

  /** Rows that represent chains pass, at commit, every deferred constraint trigger on sessions,
      families and credentials, and the unique constraints of the credential table. */
  lemma ContractsHold(t: Tables, chains: map<Id, Chain>)
    requires Represents(t, chains) && AllWellFormed(chains)
    ensures Contracts(t)
  {
    forall s | s in t.sessions ensures SessionContract(t, s) {
      assert SessionOwned(t.sessions, chains, s);
    }
    forall f | f in t.families ensures CredentialContract(t, f) {
      CredentialContractHolds(t, chains, f);
    }
    forall a, b | a in t.credentials && b in t.credentials && a != b ensures Distinct(t, a, b) {
      DistinctRows(t, chains, a, b);
    }
  }
}
