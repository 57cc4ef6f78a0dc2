/**
 Whole runs of the refresh protocol: any interleaving of logins, refreshes, logouts and password
 resets, one transaction after another.
 */
module RefreshRuns {
  import opened Wrappers
  import opened RefreshChain
  import opened RefreshTables

  datatype Event =
    | LoggedIn(family: Id, chain: Chain)
    | Refreshing(family: Id, credential: Id, key: Key, accountActive: bool, now: Time, next: Id)
    | LoggedOut(families: set<Id>)
    | Reset(userId: nat)

  /** No credential belongs to two families. */
  ghost predicate Separate(chains: map<Id, Chain>) {
    forall f, g, id :: f in chains && g in chains && id in chains[f].ids && id in chains[g].ids ==> f == g
  }

  ghost predicate Inv(chains: map<Id, Chain>) {
    Separate(chains) && forall f :: f in chains ==> WellFormed(chains[f])
  }

  ghost predicate Unused(chains: map<Id, Chain>, id: Id) {
    forall f :: f in chains ==> id !in chains[f].ids
  }

  /** What the service guarantees of a step: fresh identifiers are fresh, and a presented
      credential belongs to the family it was located in. */
  ghost predicate Enabled(chains: map<Id, Chain>, e: Event) {
    match e
    case LoggedIn(f, c) =>
      f !in chains && |c.ids| == 1 && c.ended.None? && c.settled == map[] && Unused(chains, c.ids[0])
    case Refreshing(f, id, _, _, _, next) =>
      f in chains && id in chains[f].ids && Unused(chains, next)
    case _ => true
  }

  ghost function Step(chains: map<Id, Chain>, e: Event): map<Id, Chain>
    requires Inv(chains) && Enabled(chains, e)
  {
    match e
    case LoggedIn(f, c) => chains[f := c]
    case Refreshing(f, id, key, active, now, next) => chains[f := Refresh(chains[f], id, key, active, now, next)]
    case LoggedOut(fs) => EndThose(chains, fs, Logout)
    case Reset(userId) => EndThose(chains, ChainsOf(chains, userId), PasswordReset)
  }

  /** Replacing one chain by one that only grew by an unused credential keeps families apart. */
  lemma SeparateAfter(chains: map<Id, Chain>, f: Id, d: Chain, next: Id)
    requires Separate(chains) && Unused(chains, next)
    requires forall id :: id in d.ids ==> id == next || (f in chains && id in chains[f].ids)
    ensures Separate(chains[f := d])
  {
  }

  lemma WellFormedStep(chains: map<Id, Chain>, e: Event, f: Id)
    requires Inv(chains) && Enabled(chains, e) && f in Step(chains, e)
    ensures WellFormed(Step(chains, e)[f])
  {
    match e
    case LoggedIn(_, c) =>
      assert Wins(c) == {};
    case Refreshing(g, id, key, active, now, next) =>
      RefreshKeeps(chains[g], id, key, active, now, next);
    case LoggedOut(_) =>
      EndKeeps(chains[f], Logout);
    case Reset(_) =>
      EndKeeps(chains[f], PasswordReset);
  }

  lemma StepKeeps(chains: map<Id, Chain>, e: Event)
    requires Inv(chains) && Enabled(chains, e)
    ensures Inv(Step(chains, e))
  {
    forall f | f in Step(chains, e) ensures WellFormed(Step(chains, e)[f]) {
      WellFormedStep(chains, e, f);
    }
    hide WellFormed;
    match e
    case LoggedIn(f, c) =>
      SeparateAfter(chains, f, c, c.ids[0]);
    case Refreshing(f, id, key, active, now, next) =>
      SeparateAfter(chains, f, Refresh(chains[f], id, key, active, now, next), next);
    case _ =>
  }

  ghost predicate ValidRun(chains: map<Id, Chain>, es: seq<Event>)
    requires Inv(chains)
    decreases |es|
  {
    es == [] || (Enabled(chains, es[0]) && (StepKeeps(chains, es[0]); ValidRun(Step(chains, es[0]), es[1..])))
  }

  ghost function Run(chains: map<Id, Chain>, es: seq<Event>): map<Id, Chain>
    requires Inv(chains) && ValidRun(chains, es)
    decreases |es|
  {
    if es == [] then chains else
      StepKeeps(chains, es[0]);
      Run(Step(chains, es[0]), es[1..])
  }

  // ---- what one chain can become ----

  /** d is a later state of c: it only grew, what was settled and what ended stayed so. */
  ghost predicate Later(c: Chain, d: Chain) {
    && c.ids <= d.ids
    && (c.ended.Some? ==> d.ended == c.ended && d.ids == c.ids)
    && (forall k :: k in c.settled ==> k in d.settled && d.settled[k] == c.settled[k])
    && d.userId == c.userId && d.accountId == c.accountId && d.sessionId == c.sessionId && d.expiresAt == c.expiresAt
  }

  lemma RefreshLater(c: Chain, id: Id, key: Key, active: bool, now: Time, next: Id)
    requires |c.ids| >= 1
    ensures Later(c, Refresh(c, id, key, active, now, next))
  {
  }

  lemma StepLater(chains: map<Id, Chain>, e: Event, f: Id)
    requires Inv(chains) && Enabled(chains, e) && f in chains
    ensures f in Step(chains, e) && Later(chains[f], Step(chains, e)[f])
  {
    assert WellFormed(chains[f]);
    match e
    case Refreshing(g, id, key, active, now, next) =>
      if g == f {
        RefreshLater(chains[f], id, key, active, now, next);
      }
    case _ =>
  }

  /** Over any run every chain keeps its settled keys, its end and its prefix. */
  lemma {:induction false} RunLater(chains: map<Id, Chain>, es: seq<Event>, f: Id)
    requires Inv(chains) && ValidRun(chains, es) && f in chains
    ensures Inv(Run(chains, es)) && f in Run(chains, es) && Later(chains[f], Run(chains, es)[f])
    decreases |es|
  {
    if es == [] {
    } else {
      StepKeeps(chains, es[0]);
      StepLater(chains, es[0], f);
      RunLater(Step(chains, es[0]), es[1..], f);
    }
  }

  /** In every reachable state each family is one linear chain of generations whose length is one
      more than the number of rotations its keys won. */
  lemma {:induction false} ReachableChains(chains: map<Id, Chain>, es: seq<Event>)
    requires Inv(chains) && ValidRun(chains, es)
    ensures Inv(Run(chains, es))
    ensures forall f :: f in Run(chains, es) ==> |Run(chains, es)[f].ids| == 1 + |Wins(Run(chains, es)[f])|
    decreases |es|
  {
    if es == [] {
    } else {
      StepKeeps(chains, es[0]);
      ReachableChains(Step(chains, es[0]), es[1..]);
    }
  }

  // ---- outcome stability ----

  /** The first processed call fixes the outcome of a key: later calls with the credential it was
      settled for change no row and get that outcome, SESSION_REVOKED or SUPERSEDED; any other
      credential conflicts. */
  lemma OutcomeStable(chains: map<Id, Chain>, es: seq<Event>, f: Id, key: Key, credential: Id, active: bool, now: Time,
                      next: Id, at: Time)
    requires Inv(chains) && ValidRun(chains, es) && f in chains && key in chains[f].settled
    ensures f in Run(chains, es)
    ensures var c, d := chains[f], Run(chains, es)[f];
            && WellFormed(d)
            && Refresh(d, credential, key, active, now, next) == d
            && var reply := Answer(d, credential, key, active, now, next, at);
            match c.settled[key]
            case Lost(id) =>
              reply == Refused(if id == credential then RefreshError.SessionRevoked else IdempotencyConflict)
            case Won(p, exp) =>
              if c.ids[p - 1] != credential then reply == Refused(IdempotencyConflict)
              else reply == Refused(RefreshError.SessionRevoked) || reply == Refused(Superseded)
                   || (reply == Grant(c, p + 1, exp, at) && |d.ids| == p + 1 && Usable(d, active, now))
  {
    RunLater(chains, es, f);
    var c, d := chains[f], Run(chains, es)[f];
    assert WellFormed(c) && WellFormed(d);
    match c.settled[key]
    case Lost(_) =>
    case Won(p, _) =>
      assert d.ids[p] == c.ids[p] && d.ids[p - 1] == c.ids[p - 1];
  }

  /** Once the successor a key won is no longer the active current credential, the key never
      succeeds again. */
  lemma SupersededForever(chains: map<Id, Chain>, es: seq<Event>, f: Id, key: Key, credential: Id, active: bool,
                          now: Time, next: Id, at: Time)
    requires Inv(chains) && ValidRun(chains, es) && f in chains && key in chains[f].settled
    requires chains[f].settled[key].Won?
      && (|chains[f].ids| != chains[f].settled[key].predecessor + 1 || chains[f].ended.Some?)
    ensures f in Run(chains, es) && WellFormed(Run(chains, es)[f])
    ensures Answer(Run(chains, es)[f], credential, key, active, now, next, at).Refused?
  {
    RunLater(chains, es, f);
    assert WellFormed(chains[f]);
  }

  // ---- a password reset is final ----

  lemma EndedRefuses(c: Chain, credential: Id, key: Key, active: bool, now: Time, next: Id, at: Time)
    requires WellFormed(c) && c.ended.Some?
    ensures Answer(c, credential, key, active, now, next, at).Refused?
  {
  }

  /** No credential of the user that existed at a committed reset ever refreshes successfully
      again, in any continuation, under any key, at any time; and it still names only the family
      that the reset ended. */
  lemma ResetIsFinal(chains: map<Id, Chain>, es: seq<Event>, userId: nat, f: Id, id: Id, key: Key, active: bool,
                     now: Time, next: Id, at: Time)
    requires Inv(chains) && Inv(Step(chains, Reset(userId))) && ValidRun(Step(chains, Reset(userId)), es)
    requires f in chains && chains[f].userId == userId && id in chains[f].ids
    ensures var after := Run(Step(chains, Reset(userId)), es);
            && f in after && WellFormed(after[f]) && id in after[f].ids
            && (forall g :: g in after && id in after[g].ids ==> g == f)
            && Answer(after[f], id, key, active, now, next, at).Refused?
            && after[f].ids == chains[f].ids
  {
    var start := Step(chains, Reset(userId));
    RunLater(start, es, f);
    EndedRefuses(Run(start, es)[f], id, key, active, now, next, at);
  }

  /** The same for a logout: no credential of a family it ended ever refreshes again. */
  lemma LogoutIsFinal(chains: map<Id, Chain>, es: seq<Event>, fs: set<Id>, f: Id, id: Id, key: Key, active: bool,
                      now: Time, next: Id, at: Time)
    requires Inv(chains) && Inv(Step(chains, LoggedOut(fs))) && ValidRun(Step(chains, LoggedOut(fs)), es)
    requires f in chains && f in fs && id in chains[f].ids
    ensures var after := Run(Step(chains, LoggedOut(fs)), es);
            && f in after && WellFormed(after[f]) && id in after[f].ids
            && (forall g :: g in after && id in after[g].ids ==> g == f)
            && Answer(after[f], id, key, active, now, next, at).Refused?
            && after[f].ids == chains[f].ids
  {
    var start := Step(chains, LoggedOut(fs));
    RunLater(start, es, f);
    EndedRefuses(Run(start, es)[f], id, key, active, now, next, at);
  }

  // ---- expiry ----

  /** From the moment a family expires nothing refreshes in it any more: in every continuation every
      call, under any key and with any of its credentials, is refused. */
  lemma ExpiredForever(chains: map<Id, Chain>, es: seq<Event>, f: Id, id: Id, key: Key, active: bool, now: Time,
                       next: Id, at: Time)
    requires Inv(chains) && ValidRun(chains, es) && f in chains && chains[f].expiresAt <= now
    ensures f in Run(chains, es) && WellFormed(Run(chains, es)[f])
    ensures Answer(Run(chains, es)[f], id, key, active, now, next, at).Refused?
  {
    RunLater(chains, es, f);
  }

  /** Nor while the account is not active. */
  lemma InactiveRefuses(c: Chain, id: Id, key: Key, now: Time, next: Id, at: Time)
    requires WellFormed(c)
    ensures Answer(c, id, key, false, now, next, at).Refused?
  {
  }

  // ---- the transactions of the service are the steps of a run ----

  /** Tables that represent well-formed chains satisfy the invariant of runs, and the rows the
      service looks up enable the corresponding steps. */
  lemma TablesEnable(t: Tables, chains: map<Id, Chain>, id: Id, key: Key, active: bool, now: Time, next: Id)
    requires Represents(t, chains) && AllWellFormed(chains) && next !in t.credentials
    ensures Inv(chains) && Unused(chains, next)
    ensures id in t.credentials ==> Enabled(chains, Refreshing(t.credentials[id].familyId, id, key, active, now, next))
  {
    hide AccountsMatch, SessionsMatch, FamiliesMatch, TerminalsMatch, WellFormed;
    forall f, i | f in chains && 0 <= i < |chains[f].ids|
      ensures chains[f].ids[i] in t.credentials && t.credentials[chains[f].ids[i]].familyId == f
    {
      assert CredentialStored(t.credentials, f, chains[f], i);
    }
    if id in t.credentials {
      var _, _, _ := RowOf(t.credentials, chains, id);
    }
  }
}
