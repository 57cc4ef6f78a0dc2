/**
 The services of the refresh protocol, written as they update their rows, each proved to take the
 rows of `chains` to the rows of the chains the abstract protocol prescribes.
 */
module RefreshService {
  import opened Wrappers
  import opened RefreshChain
  import opened RefreshTables

  // ---- what the row updates amount to ----

  /** Bulk update of the ACTIVE credentials of a family to REVOKED. */
  function RevokeCredentials(rows: map<Id, Credential>, f: Id): map<Id, Credential> {
    map id | id in rows ::
      if rows[id].familyId == f && rows[id].state.CredentialActive?
      then rows[id].(state := CredentialRevoked, version := rows[id].version + 1)
      else rows[id]
  }

  function RevokeFamily(rows: map<Id, Family>, f: Id, reason: Reason): map<Id, Family>
    requires f in rows
  {
    if rows[f].state.FamilyActive?
    then rows[f := rows[f].(state := FamilyRevoked, revokeReason := Some(reason), version := rows[f].version + 1)]
    else rows
  }

  function EndSession(rows: map<Id, Session>, s: Id, target: SessionState, reason: Reason): map<Id, Session>
    requires s in rows
  {
    if rows[s].state.SessionActive?
    then rows[s := rows[s].(state := target, revokeReason := Some(reason), version := rows[s].version + 1)]
    else rows
  }

  function TargetOf(reason: Reason): SessionState {
    if reason.Logout? then SessionLoggedOut else SessionState.SessionRevoked
  }

  /** The family, session and account rows of a chain. */
  lemma RowsAt(t: Tables, chains: map<Id, Chain>, f: Id)
    requires Represents(t, chains) && f in chains
    ensures var c := chains[f];
            && f in t.families && t.families[f] == FamilyRow(c)
            && c.sessionId in t.sessions && t.sessions[c.sessionId] == SessionRow(f, c)
            && c.accountId in t.accounts && t.accounts[c.accountId].userId == c.userId
  {
  }

  // ---- table by table: the rows after one chain changed from chains[f] to d ----

  ghost predicate SameOwner(c: Chain, d: Chain) {
    d.userId == c.userId && d.accountId == c.accountId && d.sessionId == c.sessionId && d.expiresAt == c.expiresAt
  }

  lemma OwnersKept(t: Tables, chains: map<Id, Chain>, f: Id, d: Chain)
    requires AccountsMatch(t.accounts, chains) && AllWellFormed(chains)
    requires f in chains && SameOwner(chains[f], d) && WellFormed(d)
    ensures AccountsMatch(t.accounts, chains[f := d]) && AllWellFormed(chains[f := d])
  {
  }

  lemma SessionsAfter(rows: map<Id, Session>, chains: map<Id, Chain>, f: Id, d: Chain)
    requires SessionsMatch(rows, chains) && f in chains && SameOwner(chains[f], d)
    ensures SessionsMatch(rows[d.sessionId := SessionRow(f, d)], chains[f := d])
  {
    var after, out := chains[f := d], rows[d.sessionId := SessionRow(f, d)];
    forall s | s in out ensures SessionOwned(out, after, s) {
      assert SessionOwned(rows, chains, s);
    }
  }

  lemma FamiliesAfter(rows: map<Id, Family>, chains: map<Id, Chain>, f: Id, d: Chain)
    requires FamiliesMatch(rows, chains)
    ensures FamiliesMatch(rows[f := FamilyRow(d)], chains[f := d])
  {
  }

  lemma CredentialsKept(rows: map<Id, Credential>, chains: map<Id, Chain>, f: Id, d: Chain)
    requires CredentialsMatch(rows, chains) && f in chains && SameOwner(chains[f], d)
    requires d.ids == chains[f].ids && d.ended.None? == chains[f].ended.None?
    ensures CredentialsMatch(rows, chains[f := d])
  {
    var after := chains[f := d];
    forall g, i | g in after && 0 <= i < |after[g].ids| ensures CredentialStored(rows, g, after[g], i) {
      assert CredentialStored(rows, g, chains[g], i);
    }
    forall id | id in rows ensures CredentialOwned(rows, after, id) {
      assert CredentialOwned(rows, chains, id);
    }
  }

  lemma CredentialsRevoked(rows: map<Id, Credential>, chains: map<Id, Chain>, f: Id, reason: Reason)
    requires CredentialsMatch(rows, chains) && f in chains
    ensures CredentialsMatch(RevokeCredentials(rows, f), chains[f := End(chains[f], reason)])
  {
    var after := chains[f := End(chains[f], reason)];
    var out := RevokeCredentials(rows, f);
    forall g, i | g in after && 0 <= i < |after[g].ids| ensures CredentialStored(out, g, after[g], i) {
      assert CredentialStored(rows, g, chains[g], i);
    }
    forall id | id in out ensures CredentialOwned(out, after, id) {
      assert CredentialOwned(rows, chains, id);
    }
  }

  /** The rows around a rotation: the predecessor is USED and points at a new ACTIVE successor. */
  function RotateCredentials(rows: map<Id, Credential>, id: Id, f: Id, next: Id, generation: nat,
                             expiresAt: Time): map<Id, Credential>
    requires id in rows
  {
    rows[id := rows[id].(state := CredentialUsed, version := rows[id].version + 1, replacedBy := Some(next))]
        [next := Credential(f, generation, TokenHash(Token(next, generation)), CredentialActive, expiresAt, None, 1)]
  }

  lemma CredentialsRotated(rows: map<Id, Credential>, chains: map<Id, Chain>, f: Id, d: Chain, next: Id)
    requires CredentialsMatch(rows, chains) && f in chains && next !in rows
    requires |chains[f].ids| >= 1 && chains[f].ended.None?
    requires d.ids == chains[f].ids + [next] && d.ended.None? && d.expiresAt == chains[f].expiresAt
    ensures Last(chains[f]) in rows
    ensures CredentialsMatch(RotateCredentials(rows, Last(chains[f]), f, next, |d.ids|, d.expiresAt), chains[f := d])
  {
    var c, after := chains[f], chains[f := d];
    assert CredentialStored(rows, f, c, |c.ids| - 1);
    var out := RotateCredentials(rows, Last(c), f, next, |d.ids|, d.expiresAt);
    forall g, i | g in after && 0 <= i < |after[g].ids| ensures CredentialStored(out, g, after[g], i) {
      if g != f || i < |c.ids| {
        assert CredentialStored(rows, g, chains[g], i);
      }
    }
    forall id | id in out ensures CredentialOwned(out, after, id) {
      if id != next {
        assert CredentialOwned(rows, chains, id);
      }
    }
  }

  lemma TerminalsKept(rows: map<(Id, Key), Terminal>, chains: map<Id, Chain>, f: Id, d: Chain)
    requires TerminalsMatch(rows, chains) && f in chains
    requires d.ids == chains[f].ids && d.settled == chains[f].settled
    ensures TerminalsMatch(rows, chains[f := d])
  {
    var after := chains[f := d];
    forall g, k | g in after && k in after[g].settled ensures TerminalStored(rows, g, after[g], k) {
      assert TerminalStored(rows, g, chains[g], k);
    }
  }

  lemma TerminalsSettled(rows: map<(Id, Key), Terminal>, chains: map<Id, Chain>, f: Id, d: Chain, key: Key)
    requires TerminalsMatch(rows, chains) && f in chains
    requires chains[f].ids <= d.ids
    requires key in d.settled && d.settled == chains[f].settled[key := d.settled[key]]
    requires d.settled[key].Won? ==> 1 <= d.settled[key].predecessor < |d.ids|
    ensures TerminalsMatch(rows[(f, key) := TerminalRow(d, d.settled[key])], chains[f := d])
  {
    var after := chains[f := d];
    var out := rows[(f, key) := TerminalRow(d, d.settled[key])];
    forall g, k | g in after && k in after[g].settled ensures TerminalStored(out, g, after[g], k) {
      if (g, k) != (f, key) {
        assert TerminalStored(rows, g, chains[g], k);
      }
    }
  }

  // ---- transaction by transaction ----

  /** Converging the credentials, family and session of a chain ends the chain. */
  lemma ConvergeRepresents(t: Tables, chains: map<Id, Chain>, f: Id, reason: Reason)
    requires Represents(t, chains) && AllWellFormed(chains) && f in chains
    ensures f in t.families && chains[f].sessionId in t.sessions
    ensures var s := chains[f].sessionId;
            Represents(
              t.(credentials := RevokeCredentials(t.credentials, f),
                 families := RevokeFamily(t.families, f, reason),
                 sessions := EndSession(t.sessions, s, TargetOf(reason), reason)),
              chains[f := End(chains[f], reason)])
    ensures AllWellFormed(chains[f := End(chains[f], reason)])
  {
    hide AccountsMatch, SessionsMatch, FamiliesMatch, CredentialsMatch, TerminalsMatch, AllWellFormed, WellFormed;
    var c, d := chains[f], End(chains[f], reason);
    RowsAt(t, chains, f);
    WellFormedAt(chains, f);
    EndKeeps(c, reason);
    OwnersKept(t, chains, f, d);
    SessionsAfter(t.sessions, chains, f, d);
    FamiliesAfter(t.families, chains, f, d);
    CredentialsRevoked(t.credentials, chains, f, reason);
    TerminalsKept(t.terminals, chains, f, d);
    assert t.families[f := FamilyRow(d)] == RevokeFamily(t.families, f, reason);
    assert t.sessions[d.sessionId := SessionRow(f, d)] == EndSession(t.sessions, c.sessionId, TargetOf(reason), reason);
  }

  lemma WellFormedAt(chains: map<Id, Chain>, f: Id)
    requires AllWellFormed(chains) && f in chains
    ensures WellFormed(chains[f]) && |chains[f].ids| >= 1
  {
  }

  lemma SameRows(t: Tables, chains: map<Id, Chain>, f: Id, d: Chain)
    requires Represents(t, chains) && f in chains && SameOwner(chains[f], d)
    requires d.ended == chains[f].ended
    ensures t.sessions[d.sessionId := SessionRow(f, d)] == t.sessions
    ensures d.ids == chains[f].ids ==> t.families[f := FamilyRow(d)] == t.families
  {
  }

  /** Recording a refusal settles its key. */
  lemma LoseRepresents(t: Tables, chains: map<Id, Chain>, f: Id, d: Chain, key: Key, id: Id)
    requires Represents(t, chains) && AllWellFormed(chains) && f in chains
    requires key !in chains[f].settled && id in chains[f].ids && chains[f].ended.Some?
    requires d == chains[f].(settled := chains[f].settled[key := Lost(id)])
    ensures Represents(t.(terminals := t.terminals[(f, key) := TerminalRow(d, Lost(id))]), chains[f := d])
    ensures AllWellFormed(chains[f := d])
  {
    hide AccountsMatch, SessionsMatch, FamiliesMatch, CredentialsMatch, TerminalsMatch, AllWellFormed, WellFormed;
    WellFormedAt(chains, f);
    LoseKeeps(chains[f], key, id);
    OwnersKept(t, chains, f, d);
    SameRows(t, chains, f, d);
    SessionsAfter(t.sessions, chains, f, d);
    FamiliesAfter(t.families, chains, f, d);
    CredentialsKept(t.credentials, chains, f, d);
    TerminalsSettled(t.terminals, chains, f, d, key);
  }

  /** The four writes of a rotation append one generation to the chain. */
  lemma RotateRepresents(t: Tables, chains: map<Id, Chain>, f: Id, d: Chain, key: Key, next: Id)
    requires Represents(t, chains) && AllWellFormed(chains) && f in chains && WellFormed(d)
    requires |chains[f].ids| >= 1 && chains[f].ended.None? && next !in t.credentials
    requires key in d.settled && d.settled[key].Won? && d.settled[key].predecessor == |chains[f].ids|
    requires d == chains[f].(ids := chains[f].ids + [next], settled := chains[f].settled[key := d.settled[key]])
    ensures Last(chains[f]) in t.credentials
    ensures Represents(
              t.(families := t.families[f := FamilyRow(d)],
                 credentials := RotateCredentials(t.credentials, Last(chains[f]), f, next, |d.ids|, d.expiresAt),
                 terminals := t.terminals[(f, key) := TerminalRow(d, d.settled[key])]),
              chains[f := d])
    ensures AllWellFormed(chains[f := d])
  {
    hide AccountsMatch, SessionsMatch, FamiliesMatch, CredentialsMatch, TerminalsMatch, AllWellFormed, WellFormed;
    OwnersKept(t, chains, f, d);
    SameRows(t, chains, f, d);
    SessionsAfter(t.sessions, chains, f, d);
    FamiliesAfter(t.families, chains, f, d);
    CredentialsRotated(t.credentials, chains, f, d, next);
    TerminalsSettled(t.terminals, chains, f, d, key);
  }

  lemma LoginCredentials(rows: map<Id, Credential>, chains: map<Id, Chain>, f: Id, c: Chain)
    requires CredentialsMatch(rows, chains) && f !in chains && |c.ids| == 1 && c.ids[0] !in rows
    ensures CredentialsMatch(rows[c.ids[0] := CredentialRow(f, c, 0)], chains[f := c])
  {
    var after, out := chains[f := c], rows[c.ids[0] := CredentialRow(f, c, 0)];
    forall g, i | g in after && 0 <= i < |after[g].ids| ensures CredentialStored(out, g, after[g], i) {
      assert g != f ==> CredentialStored(rows, g, chains[g], i);
    }
    forall id | id in out ensures CredentialOwned(out, after, id) {
      assert id in rows ==> CredentialOwned(rows, chains, id);
    }
  }

  lemma LoginSessions(rows: map<Id, Session>, chains: map<Id, Chain>, f: Id, c: Chain)
    requires SessionsMatch(rows, chains) && f !in chains && c.sessionId !in rows
    ensures SessionsMatch(rows[c.sessionId := SessionRow(f, c)], chains[f := c])
  {
    var after, out := chains[f := c], rows[c.sessionId := SessionRow(f, c)];
    forall id | id in out ensures SessionOwned(out, after, id) {
      assert id in rows ==> SessionOwned(rows, chains, id);
    }
  }

  lemma LoginTerminals(rows: map<(Id, Key), Terminal>, chains: map<Id, Chain>, f: Id, c: Chain)
    requires TerminalsMatch(rows, chains) && f !in chains && c.settled == map[]
    ensures TerminalsMatch(rows, chains[f := c])
  {
    var after := chains[f := c];
    forall g, k | g in after && k in after[g].settled ensures TerminalStored(rows, g, after[g], k) {
      assert TerminalStored(rows, g, chains[g], k);
    }
  }

  lemma LoginOwners(t: Tables, chains: map<Id, Chain>, f: Id, c: Chain)
    requires AccountsMatch(t.accounts, chains) && AllWellFormed(chains)
    requires |c.ids| == 1 && c.settled == map[]
    requires c.accountId in t.accounts && t.accounts[c.accountId].userId == c.userId
    ensures AccountsMatch(t.accounts, chains[f := c]) && AllWellFormed(chains[f := c])
  {
    assert Wins(c) == {};
  }

  lemma UsedIds(t: Tables, chains: map<Id, Chain>, f: Id)
    requires Represents(t, chains)
    ensures f in t.families <==> f in chains
  {
  }

  /** A login starts a chain of one generation. */
  lemma LoginRepresents(t: Tables, chains: map<Id, Chain>, f: Id, c: Chain)
    requires Represents(t, chains) && AllWellFormed(chains) && f !in t.families
    requires |c.ids| == 1 && c.ended.None? && c.settled == map[]
    requires c.sessionId !in t.sessions && c.ids[0] !in t.credentials
    requires c.accountId in t.accounts && t.accounts[c.accountId].userId == c.userId
    ensures Represents(
              Tables(t.accounts, t.sessions[c.sessionId := SessionRow(f, c)], t.families[f := FamilyRow(c)],
                     t.credentials[c.ids[0] := CredentialRow(f, c, 0)], t.terminals),
              chains[f := c])
    ensures AllWellFormed(chains[f := c])
  {
    hide AccountsMatch, SessionsMatch, FamiliesMatch, CredentialsMatch, TerminalsMatch, AllWellFormed, WellFormed;
    UsedIds(t, chains, f);
    LoginCredentials(t.credentials, chains, f, c);
    LoginSessions(t.sessions, chains, f, c);
    LoginTerminals(t.terminals, chains, f, c);
    LoginOwners(t, chains, f, c);
    FamiliesAfter(t.families, chains, f, c);
  }

  function RevokeIds(rows: map<Id, Credential>, ids: set<Id>): map<Id, Credential> {
    map id | id in rows ::
      if id in ids && rows[id].state.CredentialActive?
      then rows[id].(state := CredentialRevoked, version := rows[id].version + 1)
      else rows[id]
  }

  function RevokeFamilies(rows: map<Id, Family>, fs: set<Id>, reason: Reason): map<Id, Family> {
    map f | f in rows ::
      if f in fs && rows[f].state.FamilyActive?
      then rows[f].(state := FamilyRevoked, revokeReason := Some(reason), version := rows[f].version + 1)
      else rows[f]
  }

  function RevokeSessions(rows: map<Id, Session>, ss: set<Id>, reason: Reason): map<Id, Session> {
    map s | s in rows ::
      if s in ss && rows[s].state.SessionActive?
      then rows[s].(state := SessionState.SessionRevoked, revokeReason := Some(reason), version := rows[s].version + 1)
      else rows[s]
  }

  lemma ResetCredentials(rows: map<Id, Credential>, chains: map<Id, Chain>, fs: set<Id>, ids: set<Id>)
    requires CredentialsMatch(rows, chains)
    requires forall id :: id in rows ==> (id in ids <==> rows[id].familyId in fs)
    ensures CredentialsMatch(RevokeIds(rows, ids), EndThose(chains, fs, PasswordReset))
  {
    var after, out := EndThose(chains, fs, PasswordReset), RevokeIds(rows, ids);
    forall g, i | g in after && 0 <= i < |after[g].ids| ensures CredentialStored(out, g, after[g], i) {
      assert CredentialStored(rows, g, chains[g], i);
    }
    forall id | id in out ensures CredentialOwned(out, after, id) {
      assert CredentialOwned(rows, chains, id);
    }
  }

  lemma ResetSessions(rows: map<Id, Session>, chains: map<Id, Chain>, fs: set<Id>, ss: set<Id>)
    requires SessionsMatch(rows, chains) && ss <= rows.Keys
    requires forall f :: f in chains ==> (f in fs <==> chains[f].sessionId in ss)
    ensures SessionsMatch(RevokeSessions(rows, ss, PasswordReset), EndThose(chains, fs, PasswordReset))
  {
    var after, out := EndThose(chains, fs, PasswordReset), RevokeSessions(rows, ss, PasswordReset);
    forall s | s in out ensures SessionOwned(out, after, s) {
      assert SessionOwned(rows, chains, s);
    }
  }

  lemma ResetTerminals(rows: map<(Id, Key), Terminal>, chains: map<Id, Chain>, fs: set<Id>)
    requires TerminalsMatch(rows, chains)
    ensures TerminalsMatch(rows, EndThose(chains, fs, PasswordReset))
  {
    var after := EndThose(chains, fs, PasswordReset);
    forall g, k | g in after && k in after[g].settled ensures TerminalStored(rows, g, after[g], k) {
      assert TerminalStored(rows, g, chains[g], k);
    }
  }

  lemma ResetOwners(t: Tables, chains: map<Id, Chain>, fs: set<Id>)
    requires AccountsMatch(t.accounts, chains) && FamiliesMatch(t.families, chains) && AllWellFormed(chains)
    ensures AccountsMatch(t.accounts, EndThose(chains, fs, PasswordReset))
    ensures FamiliesMatch(RevokeFamilies(t.families, fs, PasswordReset), EndThose(chains, fs, PasswordReset))
    ensures AllWellFormed(EndThose(chains, fs, PasswordReset))
  {
    forall f | f in chains ensures WellFormed(End(chains[f], PasswordReset)) {
      EndKeeps(chains[f], PasswordReset);
    }
  }

  /** Revoking all ACTIVE credentials, families and sessions of a user, table by table, ends
      exactly that user's chains. */
  lemma ResetRepresents(t: Tables, chains: map<Id, Chain>, userId: nat, ss: set<Id>, fs: set<Id>, ids: set<Id>)
    requires Represents(t, chains) && AllWellFormed(chains)
    requires ss == set s | s in t.sessions && t.sessions[s].userId == userId
    requires fs == set f | f in t.families && t.families[f].sessionId in ss
    requires ids == set id | id in t.credentials && t.credentials[id].familyId in fs
    ensures fs == ChainsOf(chains, userId)
    ensures Represents(
              t.(credentials := RevokeIds(t.credentials, ids),
                families := RevokeFamilies(t.families, fs, PasswordReset),
                 sessions := RevokeSessions(t.sessions, ss, PasswordReset)),
              EndThose(chains, fs, PasswordReset))
    ensures AllWellFormed(EndThose(chains, fs, PasswordReset))
  {
    hide AccountsMatch, SessionsMatch, FamiliesMatch, CredentialsMatch, TerminalsMatch, AllWellFormed, WellFormed;
    OwnersOf(t, chains, userId, ss, fs);
    ResetCredentials(t.credentials, chains, fs, ids);
    ResetSessions(t.sessions, chains, fs, ss);
    ResetTerminals(t.terminals, chains, fs);
    ResetOwners(t, chains, fs);
  }

  lemma OwnersOf(t: Tables, chains: map<Id, Chain>, userId: nat, ss: set<Id>, fs: set<Id>)
    requires SessionsMatch(t.sessions, chains) && FamiliesMatch(t.families, chains)
    requires ss == set s | s in t.sessions && t.sessions[s].userId == userId
    requires fs == set f | f in t.families && t.families[f].sessionId in ss
    ensures fs == ChainsOf(chains, userId)
    ensures forall f :: f in chains ==> (f in fs <==> chains[f].sessionId in ss)
  {
    forall f | f in chains ensures f in fs <==> chains[f].userId == userId {
    }
  }

  // ---- what a service reads off its rows ----

  lemma LocatedSession(t: Tables, chains: map<Id, Chain>, id: Id)
    requires Represents(t, chains) && id in t.credentials
    ensures var f := t.credentials[id].familyId;
            f in t.families && f in chains && t.families[f].sessionId == chains[f].sessionId
  {
    assert CredentialOwned(t.credentials, chains, id);
  }

  /** Sessions and families correspond one to one. */
  lemma OneFamily(t: Tables, chains: map<Id, Chain>, f: Id, g: Id)
    requires Represents(t, chains) && f in t.families && g in chains && t.families[f].sessionId == chains[g].sessionId
    ensures f == g
  {
  }

  ghost function Live(chains: map<Id, Chain>, fs: set<Id>): set<Id> {
    set f | f in fs && f in chains && chains[f].ended.None?
  }

  lemma EndOneMore(chains: map<Id, Chain>, done: set<Id>, f: Id, reason: Reason)
    requires f in chains && f !in done
    ensures f in EndThose(chains, done, reason) && EndThose(chains, done, reason)[f] == chains[f]
    ensures EndThose(chains, done, reason)[f := End(chains[f], reason)] == EndThose(chains, done + {f}, reason)
    ensures |Live(chains, done + {f})| == |Live(chains, done)| + if chains[f].ended.None? then 1 else 0
  {
    assert Live(chains, done + {f}) == if chains[f].ended.None? then Live(chains, done) + {f} else Live(chains, done);
  }

  ghost function SessionsOf(chains: map<Id, Chain>, fs: set<Id>): set<Id> {
    set f | f in fs && f in chains :: chains[f].sessionId
  }

  lemma NamedSessions(t: Tables, chains: map<Id, Chain>, ids: set<Id>, named: set<Id>)
    requires Represents(t, chains)
    requires forall f :: f in named <==> f in chains && chains[f].sessionId in ids
    ensures (set s | s in t.sessions && s in ids) == SessionsOf(chains, named)
    ensures OneToOne(chains)
  {
    forall s | s in t.sessions && s in ids ensures s in SessionsOf(chains, named) {
      assert SessionOwned(t.sessions, chains, s);
    }
  }

  ghost predicate OneToOne(chains: map<Id, Chain>) {
    forall f, g :: f in chains && g in chains && chains[f].sessionId == chains[g].sessionId ==> f == g
  }

  lemma TakeSession(chains: map<Id, Chain>, fs: set<Id>, s: Id) returns (f: Id)
    requires OneToOne(chains) && s in SessionsOf(chains, fs)
    ensures f in fs && f in chains && chains[f].sessionId == s
    ensures SessionsOf(chains, fs - {f}) == SessionsOf(chains, fs) - {s}
  {
    f :| f in fs && f in chains && chains[f].sessionId == s;
  }

  lemma EmptySessions(chains: map<Id, Chain>, fs: set<Id>)
    requires fs <= chains.Keys
    ensures SessionsOf(chains, fs) == {} ==> fs == {}
  {
    forall f | f in fs ensures chains[f].sessionId in SessionsOf(chains, fs) {
    }
  }

  lemma EndNone(chains: map<Id, Chain>, reason: Reason)
    ensures EndThose(chains, {}, reason) == chains && Live(chains, {}) == {}
  {
  }

  lemma UnsettledKey(t: Tables, chains: map<Id, Chain>, f: Id, key: Key)
    requires Represents(t, chains) && f in chains
    ensures key in chains[f].settled <==> (f, key) in t.terminals
  {
    assert key in chains[f].settled ==> TerminalStored(t.terminals, f, chains[f], key);
  }

  /** The terminal record of a settled key, and the successor it names. */
  lemma SettledRows(t: Tables, chains: map<Id, Chain>, f: Id, key: Key)
    requires Represents(t, chains) && f in chains && (f, key) in t.terminals
    ensures var c := chains[f];
            && Sound(c, key)
            && t.terminals[(f, key)] == TerminalRow(c, c.settled[key])
            && (c.settled[key].Won? ==> CredentialStored(t.credentials, f, c, c.settled[key].predecessor))
  {
    assert TerminalStored(t.terminals, f, chains[f], key);
    if chains[f].settled[key].Won? {
      assert CredentialStored(t.credentials, f, chains[f], chains[f].settled[key].predecessor);
    }
  }

  /** A presented credential is one generation of its chain; it was replaced iff it is USED. */
  lemma PresentedRow(t: Tables, chains: map<Id, Chain>, id: Id)
    requires Represents(t, chains) && AllWellFormed(chains) && id in t.credentials
    ensures var r := t.credentials[id];
            && r.familyId in chains && |chains[r.familyId].ids| >= 1 && id in chains[r.familyId].ids
            && r.expiresAt == chains[r.familyId].expiresAt && r.generation <= |chains[r.familyId].ids|
            && (r.state.CredentialActive? <==> id == Last(chains[r.familyId]) && chains[r.familyId].ended.None?)
            && (r.state.CredentialUsed? && r.generation < |chains[r.familyId].ids| <==> id != Last(chains[r.familyId]))
            && (id == Last(chains[r.familyId]) ==>
                 r == CredentialRow(r.familyId, chains[r.familyId], |chains[r.familyId].ids| - 1))
  {
    var f, c, i := RowOf(t.credentials, chains, id);
    assert WellFormed(c);
  }

  /** The service's last refusal branch has no input: in a live family a credential row that was
      not replaced is ACTIVE and current. */
  lemma FallbackUnreachable(t: Tables, chains: map<Id, Chain>, id: Id)
    requires Represents(t, chains) && AllWellFormed(chains) && id in t.credentials
    ensures var r := t.credentials[id];
            && r.familyId in t.families
            && var fam := t.families[r.familyId];
            !(r.state.CredentialUsed? && r.generation < fam.currentGeneration) && fam.state.FamilyActive?
            ==> r.state.CredentialActive? && r.generation == fam.currentGeneration
  {
    PresentedRow(t, chains, id);
  }

  /** The rows of an ended chain: nothing in them is active. */
  lemma EndedRows(t: Tables, chains: map<Id, Chain>, f: Id)
    requires Represents(t, chains) && f in chains && chains[f].ended.Some?
    ensures f in t.families && !t.families[f].state.FamilyActive?
    ensures chains[f].sessionId in t.sessions && !t.sessions[chains[f].sessionId].state.SessionActive?
    ensures forall id :: id in t.credentials && t.credentials[id].familyId == f ==>
              !t.credentials[id].state.CredentialActive?
  {
    forall id | id in t.credentials && t.credentials[id].familyId == f
      ensures !t.credentials[id].state.CredentialActive?
    {
      var _, _, _ := RowOf(t.credentials, chains, id);
    }
  }

  /** Ending the families `fs`, read off the rows: nothing of them is active any more, a session that
      was active takes the state of the reason, and all other rows stay as they are. */
  ghost predicate EndsRows(t: Tables, u: Tables, fs: set<Id>, target: SessionState) {
    && FamiliesEnd(t.families, u.families, fs) && SessionsEnd(t.sessions, u.sessions, fs, target)
    && CredentialsEnd(t.credentials, u.credentials, fs)
  }

  ghost predicate FamiliesEnd(rows: map<Id, Family>, after: map<Id, Family>, fs: set<Id>) {
    && after.Keys == rows.Keys
    && forall f :: f in rows ==> if f in fs then !after[f].state.FamilyActive? else after[f] == rows[f]
  }

  ghost predicate SessionsEnd(rows: map<Id, Session>, after: map<Id, Session>, fs: set<Id>, target: SessionState) {
    && after.Keys == rows.Keys
    && forall s :: s in rows ==>
         && rows[s].refreshFamily.Some?
         && if rows[s].refreshFamily.value in fs && rows[s].state.SessionActive?
            then after[s].state == target else after[s] == rows[s]
  }

  ghost predicate CredentialsEnd(rows: map<Id, Credential>, after: map<Id, Credential>, fs: set<Id>) {
    && after.Keys == rows.Keys
    && forall id :: id in rows ==>
         if rows[id].familyId in fs then !after[id].state.CredentialActive? else after[id] == rows[id]
  }

  lemma EndedRowsOf(t: Tables, u: Tables, chains: map<Id, Chain>, fs: set<Id>, reason: Reason)
    requires Represents(t, chains) && Represents(u, EndThose(chains, fs, reason))
    ensures EndsRows(t, u, fs, if reason.Logout? then SessionLoggedOut else SessionState.SessionRevoked)
  {
    hide AccountsMatch, SessionsMatch, FamiliesMatch, CredentialsMatch, TerminalsMatch, SessionsEnd, CredentialsEnd,
      FamiliesEnd, EndThose;
    EndedFamilies(t.families, u.families, chains, fs, reason);
    EndedSessions(t.sessions, u.sessions, chains, fs, reason);
    EndedCredentials(t.credentials, u.credentials, chains, fs, reason);
  }

  /** Nothing of a user is active any more, and the rows of all other users stay as they are. */
  ghost predicate UserEnds(t: Tables, u: Tables, userId: nat) {
    UserSessionsEnd(t, u, userId) && UserFamiliesEnd(t, u, userId) && UserCredentialsEnd(t, u, userId)
  }

  ghost predicate UserSessionsEnd(t: Tables, u: Tables, userId: nat) {
    && u.sessions.Keys == t.sessions.Keys
    && forall s :: s in t.sessions ==>
         if t.sessions[s].userId == userId then !u.sessions[s].state.SessionActive? else u.sessions[s] == t.sessions[s]
  }

  /** The family belongs to a session of the user. */
  ghost predicate OfUser(t: Tables, f: Id, userId: nat) {
    && f in t.families && t.families[f].sessionId in t.sessions
    && t.sessions[t.families[f].sessionId].userId == userId
  }

  ghost predicate UserFamiliesEnd(t: Tables, u: Tables, userId: nat) {
    && u.families.Keys == t.families.Keys
    && forall f :: f in t.families ==>
         if OfUser(t, f, userId) then !u.families[f].state.FamilyActive? else u.families[f] == t.families[f]
  }

  ghost predicate UserCredentialsEnd(t: Tables, u: Tables, userId: nat) {
    && u.credentials.Keys == t.credentials.Keys
    && forall id :: id in t.credentials ==>
         if OfUser(t, t.credentials[id].familyId, userId) then !u.credentials[id].state.CredentialActive?
         else u.credentials[id] == t.credentials[id]
  }

  lemma UserEndsRows(t: Tables, u: Tables, chains: map<Id, Chain>, userId: nat)
    requires Represents(t, chains) && Represents(u, EndThose(chains, ChainsOf(chains, userId), PasswordReset))
    ensures UserEnds(t, u, userId)
  {
    hide EndThose, AccountsMatch, TerminalsMatch, CredentialsMatch, SessionsMatch, FamiliesMatch, ChainsOf, OfUser;
    var fs := ChainsOf(chains, userId);
    EndedRowsOf(t, u, chains, fs, PasswordReset);
    forall f ensures f in fs <==> OfUser(t, f, userId) {
      ChainsOfUser(t, chains, userId, f);
    }
    forall s | s in t.sessions
      ensures t.sessions[s].refreshFamily.Some?
              && (t.sessions[s].refreshFamily.value in fs <==> t.sessions[s].userId == userId)
    {
      SessionOfUser(t, chains, userId, s);
    }
  }

  lemma ChainsOfUser(t: Tables, chains: map<Id, Chain>, userId: nat, f: Id)
    requires SessionsMatch(t.sessions, chains) && FamiliesMatch(t.families, chains)
    ensures f in ChainsOf(chains, userId) <==> OfUser(t, f, userId)
  {
    if f in chains {
      assert t.families[f] == FamilyRow(chains[f]) && t.sessions[chains[f].sessionId] == SessionRow(f, chains[f]);
    }
  }

  lemma SessionOfUser(t: Tables, chains: map<Id, Chain>, userId: nat, s: Id)
    requires SessionsMatch(t.sessions, chains) && s in t.sessions
    ensures t.sessions[s].refreshFamily.Some?
    ensures t.sessions[s].refreshFamily.value in ChainsOf(chains, userId) <==> t.sessions[s].userId == userId
  {
    assert SessionOwned(t.sessions, chains, s);
    assert t.sessions[s] == SessionRow(t.sessions[s].refreshFamily.value, chains[t.sessions[s].refreshFamily.value]);
  }

  lemma EndedFamilies(rows: map<Id, Family>, after: map<Id, Family>, chains: map<Id, Chain>, fs: set<Id>,
                      reason: Reason)
    requires FamiliesMatch(rows, chains) && FamiliesMatch(after, EndThose(chains, fs, reason))
    ensures FamiliesEnd(rows, after, fs)
  {
  }

  lemma EndedSessions(rows: map<Id, Session>, after: map<Id, Session>, chains: map<Id, Chain>, fs: set<Id>,
                      reason: Reason)
    requires SessionsMatch(rows, chains) && SessionsMatch(after, EndThose(chains, fs, reason))
    ensures SessionsEnd(rows, after, fs, if reason.Logout? then SessionLoggedOut else SessionState.SessionRevoked)
  {
    var ended := EndThose(chains, fs, reason);
    forall s | s in rows
      ensures rows[s].refreshFamily.Some? && rows[s].refreshFamily.value in chains && s in after
      ensures var f := rows[s].refreshFamily.value;
              rows[s] == SessionRow(f, chains[f]) && after[s] == SessionRow(f, ended[f])
    {
      assert SessionOwned(rows, chains, s);
      assert ended[rows[s].refreshFamily.value].sessionId == s;
    }
    forall s | s in after ensures s in rows {
      assert SessionOwned(after, ended, s);
      assert chains[after[s].refreshFamily.value].sessionId == s;
    }
  }

  lemma EndedCredentials(rows: map<Id, Credential>, after: map<Id, Credential>, chains: map<Id, Chain>, fs: set<Id>,
                         reason: Reason)
    requires CredentialsMatch(rows, chains) && CredentialsMatch(after, EndThose(chains, fs, reason))
    ensures CredentialsEnd(rows, after, fs)
  {
    var ended := EndThose(chains, fs, reason);
    forall id | id in after ensures id in rows {
      var f, c, i := RowOf(after, ended, id);
      assert CredentialStored(rows, f, chains[f], i);
    }
    forall id | id in rows
      ensures id in after
      ensures if rows[id].familyId in fs then !after[id].state.CredentialActive? else after[id] == rows[id]
    {
      var f, c, i := RowOf(rows, chains, id);
      assert CredentialStored(after, f, ended[f], i);
    }
  }

  lemma NamedEnded(t: Tables, u: Tables, fs: set<Id>, target: SessionState)
    requires EndsRows(t, u, fs, target) && !target.SessionActive?
    ensures forall f :: f in t.families && f in fs ==> f in u.families && !u.families[f].state.FamilyActive?
    ensures forall s ::
      s in t.sessions && t.sessions[s].refreshFamily.Some? && t.sessions[s].refreshFamily.value in fs ==>
              s in u.sessions && !u.sessions[s].state.SessionActive?
  {
  }

  /** The current credential of a live chain is its only ACTIVE row. */
  lemma CurrentRow(t: Tables, chains: map<Id, Chain>, f: Id)
    requires Represents(t, chains) && f in chains && |chains[f].ids| >= 1
    ensures CredentialStored(t.credentials, f, chains[f], |chains[f].ids| - 1)
  {
  }

  lemma NextIsFresh(t: Tables, chains: map<Id, Chain>, f: Id, next: Id)
    requires Represents(t, chains) && f in chains && next !in t.credentials
    ensures next !in chains[f].ids
  {
    forall i | 0 <= i < |chains[f].ids| ensures chains[f].ids[i] != next {
      assert CredentialStored(t.credentials, f, chains[f], i);
    }
  }

  /** A session named by an access token belongs to a named family. */
  lemma NamedRows(t: Tables, chains: map<Id, Chain>, named: set<Id>, bearer: Option<Id>)
    requires Represents(t, chains) && forall f :: f in chains && bearer == Some(chains[f].sessionId) ==> f in named
    ensures bearer.Some? && bearer.value in t.sessions ==>
              && t.sessions[bearer.value].refreshFamily.Some?
              && t.sessions[bearer.value].refreshFamily.value in named
  {
    if bearer.Some? && bearer.value in t.sessions {
      assert SessionOwned(t.sessions, chains, bearer.value);
    }
  }

  // ---- the transactions ----

  predicate AlphaNumeric(ch: char) {
    'a' <= ch <= 'z' || 'A' <= ch <= 'Z' || '0' <= ch <= '9'
  }

  /** The shape an Idempotency-Key must have. */
  predicate ValidKey(key: Key) {
    && 1 <= |key| <= 128 && AlphaNumeric(key[0])
    && forall i :: 0 < i < |key| ==> AlphaNumeric(key[i]) || key[i] in "._:-"
  }

  // ---- what a refresh means for the rows it meets, without the protocol ----

  /** A key: up to 128 letters, digits and, after the first character, also . _ : and -. */
  ghost predicate KeyShaped(key: Key) {
    && 1 <= |key| <= 128
    && forall i :: 0 <= i < |key| ==>
         || 'a' <= key[i] <= 'z' || 'A' <= key[i] <= 'Z' || '0' <= key[i] <= '9'
         || (i > 0 && key[i] in {'.', '_', ':', '-'})
  }

  /** The token of a stored credential: its row has this generation and this hash. */
  ghost predicate Carries(rows: map<Id, Credential>, token: Option<Token>) {
    && token.Some? && token.value.credential in rows
    && rows[token.value.credential].generation == token.value.generation
    && rows[token.value.credential].tokenHash == TokenHash(token.value)
  }

  /** The families a logout names: that of the token's credential, and that of the access token's session. */
  ghost predicate NamesFamily(t: Tables, token: Option<Token>, bearer: Option<Id>, f: Id) {
    && f in t.families
    && (bearer == Some(t.families[f].sessionId)
        || (Carries(t.credentials, token) && t.credentials[token.value.credential].familyId == f))
  }

  lemma SessionsOfFamilies(t: Tables, chains: map<Id, Chain>)
    requires Represents(t, chains)
    ensures t.families.Keys == chains.Keys
    ensures forall f :: f in chains ==> t.families[f].sessionId == chains[f].sessionId
  {
  }

  /** Only live rows refresh: account, session and family are active and nothing has expired. */
  ghost predicate UsableRows(t: Tables, id: Id, now: Time, reply: Reply) {
    && id in t.credentials && t.credentials[id].familyId in t.families
    && var family := t.families[t.credentials[id].familyId];
    && family.sessionId in t.sessions && t.sessions[family.sessionId].accountId in t.accounts
    && var session := t.sessions[family.sessionId];
    (reply.Refreshed? ==>
      && family.state.FamilyActive? && session.state.SessionActive?
      && t.accounts[session.accountId].lifecycle.AccountActive?
      && now < family.expiresAt && now < session.expiresAt && now < t.credentials[id].expiresAt)
  }

  /** A settled key: another credential conflicts, a failure stays, a success is repeated while its
      successor is the active current credential of rows that can still be used. */
  ghost predicate AnswersSettled(t: Tables, f: Id, id: Id, key: Key, now: Time, respondAt: Time, reply: Reply) {
    && (f, key) in t.terminals && f in t.families && t.families[f].sessionId in t.sessions
    && t.sessions[t.families[f].sessionId].accountId in t.accounts
    && var terminal, family := t.terminals[(f, key)], t.families[f];
    var session := t.sessions[family.sessionId];
    && (terminal.requestHash != RequestHash(id) ==> reply == Refused(IdempotencyConflict))
    && (terminal.requestHash == RequestHash(id) && !terminal.succeeded ==>
        reply == Refused(RefreshError.SessionRevoked))
    && (terminal.requestHash == RequestHash(id) && terminal.succeeded ==>
        && terminal.successor.Some? && terminal.successor.value in t.credentials && terminal.claimsExpire.Some?
        && var next := terminal.successor.value;
        var successor := t.credentials[next];
        if !successor.state.CredentialActive? || successor.generation != family.currentGeneration
        then reply == Refused(Superseded)
        else if t.accounts[session.accountId].lifecycle.AccountActive? && session.state.SessionActive?
                && now < session.expiresAt && now < family.expiresAt && now < successor.expiresAt
        then reply == Refreshed(Token(next, successor.generation), family.sessionId, session.accountId,
                                Clamp(terminal.claimsExpire.value - respondAt), Clamp(successor.expiresAt - respondAt))
        else reply == Refused(RefreshError.SessionRevoked))
  }

  /** A new key: the ACTIVE credential of live rows is replaced by its successor; anything else is
      refused for good and leaves no row of the family active. */
  ghost predicate AnswersUnsettled(t: Tables, u: Tables, id: Id, key: Key, next: Id, now: Time, respondAt: Time,
                                   reply: Reply) {
    && id in t.credentials && t.credentials[id].familyId in t.families
    && var row, f := t.credentials[id], t.credentials[id].familyId;
    var family := t.families[f];
    && family.sessionId in t.sessions && t.sessions[family.sessionId].accountId in t.accounts
    && var session := t.sessions[family.sessionId];
    && (reply.Refreshed? <==>
          && row.state.CredentialActive? && family.state.FamilyActive? && session.state.SessionActive?
          && t.accounts[session.accountId].lifecycle.AccountActive? && now < family.expiresAt
             && now < session.expiresAt)
    && (reply.Refreshed? ==>
          && row.generation == family.currentGeneration && u.sessions == t.sessions
          && reply == Refreshed(Token(next, row.generation + 1), family.sessionId, session.accountId,
                                Clamp(now + 900 - respondAt), Clamp(family.expiresAt - respondAt))
          && u.families == t.families[f :=
             family.(currentGeneration := row.generation + 1, version := family.version + 1)]
          && u.credentials == t.credentials
               [id := row.(state := CredentialUsed, replacedBy := Some(next), version := row.version + 1)]
               [next := Credential(f, row.generation + 1, TokenHash(Token(next, row.generation + 1)), CredentialActive,
                                   family.expiresAt, None, 1)]
          && u.terminals == t.terminals[(f, key) :=
               Terminal(RequestHash(id), id, Some(next), Some(now + 900), true, None)])
    && (reply.Refused? ==>
          && reply == Refused(RefreshError.SessionRevoked)
          && f in u.families && !u.families[f].state.FamilyActive?
          && family.sessionId in u.sessions && !u.sessions[family.sessionId].state.SessionActive?
          && (forall o :: o in u.credentials && u.credentials[o].familyId == f ==>
                !u.credentials[o].state.CredentialActive?)
          && u.terminals == t.terminals[(f, key) :=
               Terminal(RequestHash(id), id, None, None, false, Some(RefreshError.SessionRevoked))])
  }

  /** The audit trail of one refresh. */
  function EventsOf(c: Chain, k: Case): seq<AuditEvent> {
    match k
    case Replayed => [RefreshReplayed(c.sessionId)]
    case Rotated => [RefreshSucceeded(c.sessionId, |c.ids| + 1)]
    case _ => []
  }

  const REFRESH_TTL: nat := 30 * 24 * 60 * 60

  class AuthService {
    var accounts: map<Id, Account>
    var sessions: map<Id, Session>
    var families: map<Id, Family>
    var credentials: map<Id, Credential>
    var terminals: map<(Id, Key), Terminal>
    var audit: seq<AuditEvent>
    ghost var chains: map<Id, Chain>

    ghost function Snapshot(): Tables
      reads this
    {
      Tables(accounts, sessions, families, credentials, terminals)
    }

    /** The rows are the rows of well-formed chains; hence they meet every database contract. */
    ghost predicate Valid()
      reads this
    {
      && Represents(Snapshot(), chains) && AllWellFormed(chains)
      && forall a :: a in accounts ==> accounts[a].lifecycleVersion >= 1
    }

    /** The family whose credential the token names exactly, if the row exists. */
    predicate Locates(token: Option<Token>)
      reads this`credentials
    {
      && token.Some? && token.value.credential in credentials
      && credentials[token.value.credential].generation == token.value.generation
      && credentials[token.value.credential].tokenHash == TokenHash(token.value)
    }

    /** The families a logout names: by refresh token, or by the session of an access token. */
    ghost function Named(token: Option<Token>, bearer: Option<Id>): set<Id>
      reads this
    {
      set f | f in chains && (|| (Locates(token) && credentials[token.value.credential].familyId == f)
                              || bearer == Some(chains[f].sessionId))
    }

    ghost predicate NoAccount(userId: nat, instanceId: string)
      reads this`accounts
    {
      forall a :: a in accounts && accounts[a].userId == userId && accounts[a].instanceId == instanceId ==>
        !accounts[a].lifecycle.AccountActive?
    }

    method SaveSession(s: Id, row: Session)
      requires s in sessions && SessionGuard(sessions[s], row)
      modifies this`sessions
      ensures sessions == old(sessions)[s := row]
    {
      sessions := sessions[s := row];
    }

    method SaveFamily(f: Id, row: Family)
      requires f in families && FamilyGuard(families[f], row)
      modifies this`families
      ensures families == old(families)[f := row]
    {
      families := families[f := row];
    }

    method SaveCredential(id: Id, row: Credential)
      requires id in credentials && CredentialGuard(credentials[id], row)
      modifies this`credentials
      ensures credentials == old(credentials)[id := row]
    {
      credentials := credentials[id := row];
    }

    /** Revokes the ACTIVE credentials of the family, then the family, then the session. */
    method Converge(f: Id, s: Id, target: SessionState, reason: Reason) returns (changed: bool)
      requires Valid() && f in chains && s == chains[f].sessionId
      requires target == TargetOf(reason)
      modifies this`credentials, this`families, this`sessions, this`chains
      ensures Valid() && chains == old(chains)[f := End(old(chains)[f], reason)]
      ensures changed == old(chains)[f].ended.None?
      ensures credentials.Keys == old(credentials).Keys
    {
      hide Represents, AllWellFormed, WellFormed;
      ghost var before := Snapshot();
      RowsAt(before, chains, f);
      ConvergeRepresents(before, chains, f, reason);
      RevokeCredentialRows(set id | id in credentials && credentials[id].familyId == f);
      if families[f].state.FamilyActive? {
        SaveFamily(f, families[f].(state := FamilyRevoked, revokeReason := Some(reason),
          version := families[f].version + 1));
      }
      changed := sessions[s].state.SessionActive?;
      if changed {
        SaveSession(s, sessions[s].(state := target, revokeReason := Some(reason), version := sessions[s].version + 1));
      }
      chains := chains[f := End(chains[f], reason)];
      assert Snapshot() == before.(
        credentials := RevokeCredentials(before.credentials, f),
        families := RevokeFamily(before.families, f, reason),
        sessions := EndSession(before.sessions, s, target, reason));
    }

    method RevokeFamilyForReplay(f: Id, s: Id)
      requires Valid() && f in chains && s == chains[f].sessionId
      modifies this`credentials, this`families, this`sessions, this`chains, this`audit
      ensures Valid() && chains == old(chains)[f := End(old(chains)[f], TokenReplayed)]
      ensures audit == old(audit) + [RefreshReplayed(s)]
      ensures credentials.Keys == old(credentials).Keys
    {
      hide Represents, AllWellFormed, WellFormed;
      var _ := Converge(f, s, SessionState.SessionRevoked, TokenReplayed);
      audit := audit + [RefreshReplayed(s)];
    }

    /** Issues generation 1 of a new family. */
    method Login(userId: nat, userActive: bool, passwordMatches: bool, instanceId: string, s: Id, f: Id, id: Id,
                 now: Time, respondAt: Time)
      returns (reply: Option<Reply>)
      requires Valid()
      requires s !in sessions && f !in families && id !in credentials
      modifies this
      ensures Valid() && accounts == old(accounts)
      ensures reply.None? ==> chains == old(chains) && Snapshot() == old(Snapshot()) && audit == old(audit)
      ensures reply.None? ==> !userActive || !passwordMatches || NoAccount(userId, instanceId)
      ensures reply.Some? ==>
        && userActive && passwordMatches && f in chains
        && var c := chains[f];
        && c.accountId in accounts && accounts[c.accountId].lifecycle.AccountActive?
           && accounts[c.accountId].instanceId == instanceId
        && c == Chain(userId, c.accountId, s, now + REFRESH_TTL, [id], None, map[])
        && chains == old(chains)[f := c]
        && reply.value == Grant(c, 1, now + ACCESS_TTL, respondAt)
        && reply.value == Refreshed(Token(id, 1), s, c.accountId, Clamp(now + 900 - respondAt),
                                    Clamp(now + 30 * 24 * 60 * 60 - respondAt))
        && audit == old(audit) + [LoginSucceeded(s)]
    {
      hide Represents, AllWellFormed, WellFormed;
      if accountId :| accountId in accounts && accounts[accountId].userId == userId
                      && accounts[accountId].instanceId == instanceId && accounts[accountId].lifecycle.AccountActive? {
        if !passwordMatches || !userActive {
          return None;
        }
        ghost var before := Snapshot();
        var expiresAt := now + REFRESH_TTL;
        sessions := sessions[s := Session(userId, accountId, None, SessionActive, expiresAt, None, 1)];
        families := families[f := Family(s, FamilyActive, 1, expiresAt, None, 1)];
        SaveSession(s, sessions[s].(refreshFamily := Some(f)));
        credentials := credentials[id :=
          Credential(f, 1, TokenHash(Token(id, 1)), CredentialActive, expiresAt, None, 1)];
        audit := audit + [LoginSucceeded(s)];
        ghost var c := Chain(userId, accountId, s, expiresAt, [id], None, map[]);
        LoginRepresents(before, chains, f, c);
        chains := chains[f := c];
        assert sessions == before.sessions[s := SessionRow(f, c)];
        assert Snapshot() == Tables(accounts, before.sessions[s := SessionRow(f, c)], families, credentials, terminals);
        reply := Some(Refreshed(Token(id, 1), s, accountId, Clamp(now + ACCESS_TTL - respondAt),
          Clamp(expiresAt - respondAt)));
      } else {
        reply := None;
      }
    }

    /** Builds the answer that carries credential `id`, re-deriving its token first. */
    method AuthenticationResult(s: Id, accountId: Id, id: Id, claimsExpire: Time, respondAt: Time)
      returns (reply: Reply)
      requires id in credentials
      ensures var row := credentials[id];
              reply == if row.tokenHash == TokenHash(Token(id, row.generation))
                       then Refreshed(Token(id, row.generation), s, accountId, Clamp(claimsExpire - respondAt),
                         Clamp(row.expiresAt - respondAt))
                       else Refused(Unavailable)
    {
      var row := credentials[id];
      var token := Token(id, row.generation);
      if TokenHash(token) != row.tokenHash {
        return Refused(Unavailable);
      }
      reply := Refreshed(token, s, accountId, Clamp(claimsExpire - respondAt), Clamp(row.expiresAt - respondAt));
    }

    /** The answer to a call whose key is already settled; it writes nothing. */
    method Replay(f: Id, key: Key, id: Id, account: Account, now: Time, respondAt: Time) returns (reply: Reply)
      requires Valid() && f in chains && (f, key) in terminals
      requires account == accounts[chains[f].accountId]
      ensures Sound(chains[f], key)
      ensures reply == Repeat(chains[f], id, key, account.lifecycle.AccountActive?, now, respondAt)
      ensures AnswersSettled(Snapshot(), f, id, key, now, respondAt, reply)
    {
      hide Represents, AllWellFormed, WellFormed;
      ghost var c := chains[f];
      RowsAt(Snapshot(), chains, f);
      SettledRows(Snapshot(), chains, f, key);
      var terminal := terminals[(f, key)];
      if terminal.requestHash != RequestHash(id) {
        return Refused(IdempotencyConflict);
      }
      if !terminal.succeeded {
        return Refused(if terminal.errorCode.Some? then terminal.errorCode.value else Unavailable);
      }
      var family := families[f];
      var session := sessions[family.sessionId];
      if terminal.successor.Some? {
        var next := terminal.successor.value;
        var successor := credentials[next];
        if successor.state.CredentialActive? && successor.generation == family.currentGeneration {
          if !account.lifecycle.AccountActive? || !session.state.SessionActive?
             || session.expiresAt <= now || family.expiresAt <= now || successor.expiresAt <= now {
            return Refused(RefreshError.SessionRevoked);
          }
          reply := AuthenticationResult(family.sessionId, session.accountId, next, terminal.claimsExpire.value,
            respondAt);
          return;
        }
      }
      reply := Refused(Superseded);
    }

    /** Records the refusal that settles the key of a family that is not alive any more. */
    method CreateFailedTerminal(f: Id, key: Key, id: Id)
      requires Valid() && f in chains && key !in chains[f].settled
      requires id in chains[f].ids && chains[f].ended.Some?
      modifies this`terminals, this`chains
      ensures Valid()
      ensures chains == old(chains)[f := old(chains)[f].(settled := old(chains)[f].settled[key := Lost(id)])]
      ensures terminals == old(terminals)[(f, key) :=
        Terminal(RequestHash(id), id, None, None, false, Some(RefreshError.SessionRevoked))]
    {
      hide Represents, AllWellFormed, WellFormed;
      ghost var d := chains[f].(settled := chains[f].settled[key := Lost(id)]);
      LoseRepresents(Snapshot(), chains, f, d, key, id);
      terminals := terminals[(f, key) :=
        Terminal(RequestHash(id), id, None, None, false, Some(RefreshError.SessionRevoked))];
      chains := chains[f := d];
    }

    /** The writes of a successful rotation. */
    method Rotate(f: Id, id: Id, key: Key, next: Id, now: Time)
      requires Valid() && f in chains && chains[f].ended.None? && key !in chains[f].settled
      requires |chains[f].ids| >= 1 && id == Last(chains[f]) && next !in credentials
      modifies this
      ensures Valid() && accounts == old(accounts)
      ensures var c := old(chains)[f];
              && chains == old(chains)[f :=
                 c.(ids := c.ids + [next], settled := c.settled[key := Won(|c.ids|, now + ACCESS_TTL)])]
              && audit == old(audit) + [RefreshSucceeded(c.sessionId, |c.ids| + 1)]
              && next in credentials && credentials[next] == CredentialRow(f, chains[f], |c.ids|)
      ensures f in old(families) && id in old(credentials) && sessions == old(sessions)
      ensures var family, credential := old(families)[f], old(credentials)[id];
        var generation := family.currentGeneration + 1;
        && families == old(families)[f := family.(currentGeneration := generation, version := family.version + 1)]
        && credentials == old(credentials)
             [id := credential.(state := CredentialUsed, replacedBy := Some(next), version := credential.version + 1)]
             [next := Credential(f, generation, TokenHash(Token(next, generation)), CredentialActive,
                                 family.expiresAt, None, 1)]
        && terminals == old(terminals)[(f, key) :=
             Terminal(RequestHash(id), id, Some(next), Some(now + ACCESS_TTL), true, None)]
    {
      hide Represents, AllWellFormed, WellFormed;
      ghost var before, c := Snapshot(), chains[f];
      ghost var d := c.(ids := c.ids + [next], settled := c.settled[key := Won(|c.ids|, now + ACCESS_TTL)]);
      RowsAt(before, chains, f);
      NextIsFresh(before, chains, f, next);
      WellFormedAt(chains, f);
      RotationKeeps(c, key, next, now);
      RotateRepresents(before, chains, f, d, key, next);
      CurrentRow(before, chains, f);

      var family, credential := families[f], credentials[id];
      var generation := family.currentGeneration + 1;
      SaveCredential(id, credential.(state := CredentialUsed, version := credential.version + 1));
      credentials := credentials[next :=
        Credential(f, generation, TokenHash(Token(next, generation)), CredentialActive, family.expiresAt, None, 1)];
      SaveCredential(id, credentials[id].(replacedBy := Some(next)));
      SaveFamily(f, family.(currentGeneration := generation, version := family.version + 1));
      terminals := terminals[(f, key) := Terminal(RequestHash(id), id, Some(next), Some(now + ACCESS_TTL), true, None)];
      audit := audit + [RefreshSucceeded(family.sessionId, generation)];
      chains := chains[f := d];
      assert credentials == before.credentials
        [id := credential.(state := CredentialUsed, replacedBy := Some(next), version := credential.version + 1)]
        [next := credentials[next]];
      assert credentials == RotateCredentials(before.credentials, id, f, next, |d.ids|, d.expiresAt);
      assert Snapshot() == before.(families := families, credentials := credentials, terminals := terminals);
    }

    /** The locked part of a refresh: replays its own settled key, punishes a used credential,
        refuses a dead family, or rotates. */
    method RefreshLocked(id: Id, key: Key, next: Id, now: Time, respondAt: Time) returns (reply: Reply)
      requires Valid() && id in credentials && next !in credentials
      modifies this
      ensures Valid() && accounts == old(accounts)
      ensures var f := old(credentials)[id].familyId;
        && f in old(chains) && old(chains)[f].accountId in accounts && id in old(chains)[f].ids
        && var c := old(chains)[f];
        var active := accounts[c.accountId].lifecycle.AccountActive?;
        && |c.ids| >= 1 && (key in c.settled ==> Sound(c, key))
        && chains == old(chains)[f := RefreshChain.Refresh(c, id, key, active, now, next)]
        && reply == Answer(c, id, key, active, now, next, respondAt)
        && audit == old(audit) + EventsOf(c, CaseOf(c, id, key, active, now))
      ensures UsableRows(old(Snapshot()), id, now, reply)
      ensures var f := old(credentials)[id].familyId;
        if (f, key) in old(terminals)
        then Snapshot() == old(Snapshot()) && AnswersSettled(old(Snapshot()), f, id, key, now, respondAt, reply)
        else AnswersUnsettled(old(Snapshot()), Snapshot(), id, key, next, now, respondAt, reply)
    {
      hide Represents, AllWellFormed, WellFormed;
      var f := credentials[id].familyId;
      PresentedRow(Snapshot(), chains, id);
      RowsAt(Snapshot(), chains, f);
      if (f, key) in terminals { SettledRows(Snapshot(), chains, f, key); }
      UnsettledKey(Snapshot(), chains, f, key);
      var s := families[f].sessionId;
      var accountId := sessions[s].accountId;
      var account, session, family, credential := accounts[accountId], sessions[s], families[f], credentials[id];

      if (f, key) in terminals {
        reply := Replay(f, key, id, account, now, respondAt);
        return;
      }
      reply := RefreshUnsettled(f, id, key, next, account, session, family, credential, now, respondAt);
    }

    /** The first call under a key: punishes a used credential, refuses a dead family, or rotates. */
    method RefreshUnsettled(f: Id, id: Id, key: Key, next: Id, account: Account, session: Session, family: Family,
                            credential: Credential, now: Time, respondAt: Time) returns (reply: Reply)
      requires Valid() && id in credentials && next !in credentials && credential == credentials[id]
      requires f == credential.familyId && f in families && family == families[f] && (f, key) !in terminals
      requires family.sessionId in sessions && session == sessions[family.sessionId]
      requires session.accountId in accounts && account == accounts[session.accountId]
      modifies this
      ensures Valid() && accounts == old(accounts)
      ensures f in old(chains) && |old(chains)[f].ids| >= 1 && key !in old(chains)[f].settled
        && var c := old(chains)[f];
        var active := account.lifecycle.AccountActive?;
        && chains == old(chains)[f := RefreshChain.Refresh(c, id, key, active, now, next)]
        && reply == Answer(c, id, key, active, now, next, respondAt)
        && audit == old(audit) + EventsOf(c, CaseOf(c, id, key, active, now))
      ensures AnswersUnsettled(old(Snapshot()), Snapshot(), id, key, next, now, respondAt, reply)
    {
      hide Represents, AllWellFormed, WellFormed;
      PresentedRow(Snapshot(), chains, id);
      RowsAt(Snapshot(), chains, f);
      UnsettledKey(Snapshot(), chains, f, key);
      var s, accountId := family.sessionId, session.accountId;
      if credential.state.CredentialUsed? && credential.generation < family.currentGeneration {
        RevokeFamilyForReplay(f, s);
      } else if
        || session.accountId != accountId || family.sessionId != s
        || !family.state.FamilyActive? || !session.state.SessionActive?
        || session.expiresAt <= now || family.expiresAt <= now
        || !account.lifecycle.AccountActive? || account.lifecycleVersion < 1
      {
        var _ := Converge(f, s, SessionState.SessionRevoked, SessionUnusable);
      } else if !credential.state.CredentialActive? || credential.generation != family.currentGeneration {
        // a live family's only unused credential is its current one
        assert false;
      } else {
        Rotate(f, id, key, next, now);
        reply := AuthenticationResult(s, accountId, next, now + ACCESS_TTL, respondAt);
        return;
      }
      CreateFailedTerminal(f, key, id);
      EndedRows(Snapshot(), chains, f);
      reply := Refused(RefreshError.SessionRevoked);
    }

    /** Ends one session of a logout; a session without a family is passed over. */
    method LogoutOne(s: Id, ghost g: Id) returns (changed: bool)
      requires Valid() && g in chains && chains[g].sessionId == s
      modifies this
      ensures Valid() && accounts == old(accounts)
      ensures chains == old(chains)[g := End(old(chains)[g], Logout)] && changed == old(chains)[g].ended.None?
      ensures audit == old(audit) + [LogoutConverged(s, changed)]
    {
      hide Represents, AllWellFormed, WellFormed;
      RowsAt(Snapshot(), chains, g);
      changed := false;
      if f :| f in families && families[f].sessionId == s {
        OneFamily(Snapshot(), chains, f, g);
        changed := Converge(f, s, SessionLoggedOut, Logout);
        audit := audit + [LogoutConverged(s, changed)];
      }
    }

    /** The sessions a logout request names, by refresh token and by a valid access token. */
    method LocateSessions(token: Option<Token>, bearer: Option<Id>) returns (ids: set<Id>)
      requires Valid()
      ensures forall f :: f in Named(token, bearer) <==> f in chains && chains[f].sessionId in ids
    {
      ids := if bearer.Some? then {bearer.value} else {};
      if Locates(token) {
        LocatedSession(Snapshot(), chains, token.value.credential);
        ids := ids + {families[credentials[token.value.credential].familyId].sessionId};
      }
    }

    /** Ends every located session, once each. */
    method LogoutLocated(ids: set<Id>, ghost named: set<Id>) returns (revoked: nat)
      requires Valid()
      requires forall f :: f in named <==> f in chains && chains[f].sessionId in ids
      modifies this
      ensures Valid() && accounts == old(accounts)
      ensures chains == EndThose(old(chains), named, Logout)
      ensures revoked == |Live(old(chains), named)|
      ensures old(audit) <= audit && |audit| == |old(audit)| + |named|
    {
      hide Represents, AllWellFormed, WellFormed, EndThose, Live, SessionsOf, OneToOne;
      ghost var before := chains;
      NamedSessions(Snapshot(), before, ids, named);
      revoked := 0;
      var todo := set s | s in sessions && s in ids;
      ghost var left := named;
      EndNone(before, Logout);
      assert named - left == {};
      while todo != {}
        invariant Valid() && accounts == old(accounts)
        invariant left <= named <= before.Keys
        invariant chains == EndThose(before, named - left, Logout)
        invariant revoked == |Live(before, named - left)|
        invariant old(audit) <= audit && |audit| == |old(audit)| + |named| - |left|
        invariant todo == SessionsOf(before, left)
      {
        var s :| s in todo;
        ghost var g := TakeSession(before, left, s);
        EndOneMore(before, named - left, g, Logout);
        todo := todo - {s};
        var changed := LogoutOne(s, g);
        revoked := revoked + if changed then 1 else 0;
        assert named - (left - {g}) == (named - left) + {g};
        left := left - {g};
      }
      EmptySessions(before, left);
      assert named - left == named;
    }

    /** Logs out the sessions named by a refresh token and by an access token. */
    method LogoutSessions(token: Option<Token>, bearer: Option<Id>) returns (revoked: nat)
      requires Valid()
      modifies this
      ensures Valid() && accounts == old(accounts)
      ensures chains == EndThose(old(chains), old(Named(token, bearer)), Logout)
      ensures revoked == |Live(old(chains), old(Named(token, bearer)))|
      ensures old(audit) <= audit && |audit| == |old(audit)| + |old(Named(token, bearer))|
      // the same, read off the rows
      ensures forall f :: f in old(Named(token, bearer)) <==> NamesFamily(old(Snapshot()), token, bearer, f)
      ensures EndsRows(old(Snapshot()), Snapshot(), old(Named(token, bearer)), SessionLoggedOut)
      ensures bearer.Some? && bearer.value in old(sessions) ==>
        bearer.value in sessions && !sessions[bearer.value].state.SessionActive?
      ensures token.Some? && token.value.credential in old(credentials) ==>
        var row := old(credentials)[token.value.credential];
        row.generation == token.value.generation && row.tokenHash == TokenHash(token.value) ==>
          row.familyId in families && !families[row.familyId].state.FamilyActive?
    {
      hide Represents, EndThose, EndsRows, Live;
      var ids := LocateSessions(token, bearer);
      ghost var before, chained, named := Snapshot(), chains, Named(token, bearer);
      NamedRows(before, chained, named, bearer);
      SessionsOfFamilies(before, chained);
      if Locates(token) { LocatedSession(before, chained, token.value.credential); }
      revoked := LogoutLocated(ids, named);
      EndedRowsOf(before, Snapshot(), chained, named, Logout);
      NamedEnded(before, Snapshot(), named, SessionLoggedOut);
    }

    method RevokeCredentialRows(ids: set<Id>)
      requires ids <= credentials.Keys
      modifies this`credentials
      ensures credentials == RevokeIds(old(credentials), ids)
    {
      var todo := ids;
      while todo != {}
        invariant todo <= ids && ids <= old(credentials).Keys
        invariant credentials == RevokeIds(old(credentials), ids - todo)
      {
        var id :| id in todo;
        todo := todo - {id};
        if credentials[id].state.CredentialActive? {
          SaveCredential(id, credentials[id].(state := CredentialRevoked, version := credentials[id].version + 1));
        }
      }
      assert ids - todo == ids;
    }

    method RevokeFamilyRows(fs: set<Id>)
      requires fs <= families.Keys
      modifies this`families
      ensures families == RevokeFamilies(old(families), fs, PasswordReset)
    {
      var todo := fs;
      while todo != {}
        invariant todo <= fs && fs <= old(families).Keys
        invariant families == RevokeFamilies(old(families), fs - todo, PasswordReset)
      {
        var f :| f in todo;
        todo := todo - {f};
        if families[f].state.FamilyActive? {
          SaveFamily(f, families[f].(state := FamilyRevoked, revokeReason := Some(PasswordReset),
            version := families[f].version + 1));
        }
      }
      assert fs - todo == fs;
    }

    method RevokeSessionRows(ss: set<Id>) returns (revoked: nat)
      requires ss <= sessions.Keys
      modifies this`sessions
      ensures sessions == RevokeSessions(old(sessions), ss, PasswordReset)
      ensures revoked == |set s | s in ss && old(sessions)[s].state.SessionActive?|
    {
      var todo := ss;
      revoked := 0;
      ghost var hit: set<Id> := {};
      while todo != {}
        invariant todo <= ss && ss <= old(sessions).Keys
        invariant sessions == RevokeSessions(old(sessions), ss - todo, PasswordReset)
        invariant hit == set s | s in ss - todo && old(sessions)[s].state.SessionActive?
        invariant revoked == |hit|
      {
        var s :| s in todo;
        todo := todo - {s};
        if sessions[s].state.SessionActive? {
          SaveSession(s, sessions[s].(state := SessionState.SessionRevoked, revokeReason := Some(PasswordReset),
                                      version := sessions[s].version + 1));
          revoked := revoked + 1;
          hit := hit + {s};
        }
      }
      assert ss - todo == ss;
      assert hit == set s | s in ss && old(sessions)[s].state.SessionActive?;
    }

    /** The account part of a committed password reset: no session of the user survives it. */
    method RevokeUser(userId: nat) returns (revoked: nat)
      requires Valid()
      modifies this
      ensures Valid() && accounts == old(accounts)
      ensures chains == EndThose(old(chains), ChainsOf(old(chains), userId), PasswordReset)
      ensures audit == old(audit) + [PasswordResetSucceeded(userId, revoked)]
      // the same, read off the rows
      ensures EndsRows(old(Snapshot()), Snapshot(), old(ChainsOf(chains, userId)), SessionState.SessionRevoked)
      ensures forall s :: s in old(sessions) && old(sessions)[s].userId == userId ==>
                s in sessions && !sessions[s].state.SessionActive?
      ensures UserEnds(old(Snapshot()), Snapshot(), userId)
    {
      hide Represents, AllWellFormed, WellFormed, UserEnds;
      var ss := set s | s in sessions && sessions[s].userId == userId;
      var fs := set f | f in families && families[f].sessionId in ss;
      var ids := set id | id in credentials && credentials[id].familyId in fs;
      ResetRepresents(Snapshot(), chains, userId, ss, fs, ids);
      ghost var before, chained := Snapshot(), chains;
      RevokeCredentialRows(ids);
      RevokeFamilyRows(fs);
      revoked := RevokeSessionRows(ss);
      audit := audit + [PasswordResetSucceeded(userId, revoked)];
      chains := EndThose(chains, fs, PasswordReset);
      EndedRowsOf(before, Snapshot(), chained, fs, PasswordReset);
      UserEndsRows(before, Snapshot(), chained, userId);
    }

    /** One rotation attempt with a presented token, which may be missing, unknown or forged. */
    method Refresh(token: Option<Token>, key: Key, next: Id, now: Time, respondAt: Time) returns (reply: Reply)
      requires Valid() && next !in credentials
      modifies this
      ensures Valid() && accounts == old(accounts)
      ensures !(ValidKey(key) && old(Locates(token))) ==>
        && reply == Refused(if ValidKey(key) then Unavailable else KeyInvalid)
        && Snapshot() == old(Snapshot()) && audit == old(audit) && chains == old(chains)
      ensures ValidKey(key) && old(Locates(token)) ==>
        var id := token.value.credential;
        var f := old(credentials)[id].familyId;
        && f in old(chains) && old(chains)[f].accountId in accounts && id in old(chains)[f].ids
        && var c := old(chains)[f];
        var active := accounts[c.accountId].lifecycle.AccountActive?;
        && |c.ids| >= 1 && (key in c.settled ==> Sound(c, key))
        && chains == old(chains)[f := RefreshChain.Refresh(c, id, key, active, now, next)]
        && reply == Answer(c, id, key, active, now, next, respondAt)
        && audit == old(audit) + EventsOf(c, CaseOf(c, id, key, active, now))
      // the same, read off the rows
      ensures !(KeyShaped(key) && Carries(old(credentials), token)) ==>
        && reply == Refused(if KeyShaped(key) then Unavailable else KeyInvalid)
        && Snapshot() == old(Snapshot()) && audit == old(audit)
      ensures KeyShaped(key) && Carries(old(credentials), token) ==>
        var id := token.value.credential;
        var f := old(credentials)[id].familyId;
        && UsableRows(old(Snapshot()), id, now, reply)
        && ((f, key) in old(terminals) ==>
              Snapshot() == old(Snapshot()) && AnswersSettled(old(Snapshot()), f, id, key, now, respondAt, reply))
        && ((f, key) !in old(terminals) ==>
              AnswersUnsettled(old(Snapshot()), Snapshot(), id, key, next, now, respondAt, reply))
    {
      hide Represents, AllWellFormed, WellFormed;
      if !ValidKey(key) {
        return Refused(KeyInvalid);
      }
      if !Locates(token) {
        return Refused(Unavailable);
      }
      reply := RefreshLocked(token.value.credential, key, next, now, respondAt);
    }
  }
}
