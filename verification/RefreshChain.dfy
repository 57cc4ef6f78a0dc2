/**
 The refresh-token rotation protocol, reduced to what it promises.

 A family is a chain of credentials: `ids[0]` is generation 1, the last one is the current
 generation.  Every idempotency key that was ever processed is settled once, either by the
 rotation it won or by the refusal it got.  `RefreshTables` proves that the relational rows the
 service writes are, at every commit, exactly the rows of such chains.
 */
module RefreshChain {
  import opened Wrappers

  type Key = string   // an Idempotency-Key

  const ACCESS_TTL: nat := 900

  datatype Reason = TokenReplayed | SessionUnusable | Logout | PasswordReset

  /** `Won(p, exp)`: the key replaced generation p by p + 1 and minted claims expiring at exp.
      `Lost(id)`: the key was refused with SESSION_REVOKED while presenting credential id. */
  datatype Settled = Won(predecessor: nat, claimsExpire: Time) | Lost(credential: Id)

  datatype Chain = Chain(
    userId: nat,
    accountId: Id,
    sessionId: Id,
    expiresAt: Time,
    ids: seq<Id>,
    ended: Option<Reason>,
    settled: map<Key, Settled>)

  datatype RefreshError = KeyInvalid | Unavailable | IdempotencyConflict | Superseded | SessionRevoked

  datatype Token = Token(credential: Id, generation: nat)

  datatype Reply =
    | Refreshed(token: Token, sessionId: Id, accountId: Id, expiresIn: nat, maxAge: nat)
    | Refused(code: RefreshError)

  /** The keys whose terminal record is SUCCEEDED. */
  ghost function Wins(c: Chain): set<Key> {
    set k | k in c.settled && c.settled[k].Won?
  }

  ghost predicate WellFormed(c: Chain) {
    && |c.ids| >= 1
    && (forall i, j :: 0 <= i < j < |c.ids| ==> c.ids[i] != c.ids[j])
    && (forall k :: k in c.settled && c.settled[k].Won? ==> 1 <= c.settled[k].predecessor < |c.ids|)
    && (forall k :: k in c.settled && c.settled[k].Lost? ==> c.settled[k].credential in c.ids && c.ended.Some?)
    && (forall k, m :: k in Wins(c) && m in Wins(c) && c.settled[k].predecessor == c.settled[m].predecessor ==> k == m)
    && |Wins(c)| == |c.ids| - 1
  }

  function Clamp(n: int): (r: nat)
    ensures n <= r && (r == n || r == 0)
  {
    if n < 0 then 0 else n
  }

  function Last(c: Chain): Id
    requires |c.ids| >= 1
  {
    c.ids[|c.ids| - 1]
  }

  /** The service's liveness test for a rotation: family, session and account all usable now. */
  predicate Usable(c: Chain, accountActive: bool, now: Time) {
    c.ended.None? && now < c.expiresAt && accountActive
  }

  /** Ending a chain is idempotent: the first reason stays. */
  function End(c: Chain, reason: Reason): Chain {
    if c.ended.None? then c.(ended := Some(reason)) else c
  }

  /** Ends every chain of `fs` that is still alive. */
  function EndThose(chains: map<Id, Chain>, fs: set<Id>, reason: Reason): map<Id, Chain> {
    map f | f in chains :: if f in fs then End(chains[f], reason) else chains[f]
  }

  function ChainsOf(chains: map<Id, Chain>, userId: nat): set<Id> {
    set f | f in chains && chains[f].userId == userId
  }

  datatype Case = Repeated | Replayed | Unusable | Rotated

  function CaseOf(c: Chain, credential: Id, key: Key, accountActive: bool, now: Time): Case
    requires |c.ids| >= 1
  {
    if key in c.settled then Repeated
    else if credential != Last(c) then Replayed
    else if !Usable(c, accountActive, now) then Unusable
    else Rotated
  }

  /** What one refresh of `credential` under `key` does to the chain. */
  function Refresh(c: Chain, credential: Id, key: Key, accountActive: bool, now: Time, successor: Id): Chain
    requires |c.ids| >= 1
  {
    match CaseOf(c, credential, key, accountActive, now)
    case Repeated => c
    case Replayed => End(c, TokenReplayed).(settled := c.settled[key := Lost(credential)])
    case Unusable => End(c, SessionUnusable).(settled := c.settled[key := Lost(credential)])
    case Rotated => c.(ids := c.ids + [successor], settled := c.settled[key := Won(|c.ids|, now + ACCESS_TTL)])
  }

  function Grant(c: Chain, generation: nat, claimsExpire: Time, respondAt: Time): Reply
    requires 1 <= generation <= |c.ids|
  {
    Refreshed(
      Token(c.ids[generation - 1], generation),
      c.sessionId, c.accountId, Clamp(claimsExpire - respondAt), Clamp(c.expiresAt - respondAt))
  }

  /** The key is settled, and a rotation it won lies inside the chain. */
  predicate Sound(c: Chain, key: Key) {
    key in c.settled && (c.settled[key].Won? ==> 1 <= c.settled[key].predecessor < |c.ids|)
  }

  /** What a call that finds its key settled is told. */
  function Repeat(c: Chain, credential: Id, key: Key, accountActive: bool, now: Time, respondAt: Time): Reply
    requires Sound(c, key)
  {
    match c.settled[key]
    case Lost(id) => if id == credential then Refused(SessionRevoked) else Refused(IdempotencyConflict)
    case Won(p, exp) =>
      if c.ids[p - 1] != credential then Refused(IdempotencyConflict)
      else if p + 1 != |c.ids| || c.ended.Some? then Refused(Superseded)
      else if !Usable(c, accountActive, now) then Refused(SessionRevoked)
      else Grant(c, p + 1, exp, respondAt)
  }

  /** What the caller of a refresh is told. */
  function Answer(c: Chain, credential: Id, key: Key, accountActive: bool, now: Time, successor: Id,
                  respondAt: Time): Reply
    requires |c.ids| >= 1 && (key in c.settled ==> Sound(c, key))
  {
    match CaseOf(c, credential, key, accountActive, now)
    case Repeated => Repeat(c, credential, key, accountActive, now, respondAt)
    case Replayed => Refused(SessionRevoked)
    case Unusable => Refused(SessionRevoked)
    case Rotated =>
      Grant(Refresh(c, credential, key, accountActive, now, successor), |c.ids| + 1, now + ACCESS_TTL, respondAt)
  }

  // ---- one step ----

  lemma EndKeeps(c: Chain, reason: Reason)
    requires WellFormed(c)
    ensures WellFormed(End(c, reason))
  {
    assert Wins(End(c, reason)) == Wins(c);
  }

  lemma LoseKeeps(c: Chain, key: Key, id: Id)
    requires WellFormed(c) && key !in c.settled && id in c.ids && c.ended.Some?
    ensures WellFormed(c.(settled := c.settled[key := Lost(id)]))
  {
    assert Wins(c.(settled := c.settled[key := Lost(id)])) == Wins(c);
  }

  lemma RotationKeeps(c: Chain, key: Key, successor: Id, now: Time)
    requires WellFormed(c) && key !in c.settled && successor !in c.ids
    requires c.ended.None?
    ensures WellFormed(c.(ids := c.ids + [successor], settled := c.settled[key := Won(|c.ids|, now + ACCESS_TTL)]))
  {
    var d := c.(ids := c.ids + [successor], settled := c.settled[key := Won(|c.ids|, now + ACCESS_TTL)]);
    assert Wins(d) == Wins(c) + {key};
    assert key !in Wins(c);
  }

  /** Rotation, replay and refusal all keep the chain linear and keep
      current_generation == 1 + number of SUCCEEDED terminal records. */
  lemma RefreshKeeps(c: Chain, credential: Id, key: Key, accountActive: bool, now: Time, successor: Id)
    requires WellFormed(c) && credential in c.ids && successor !in c.ids
    ensures WellFormed(Refresh(c, credential, key, accountActive, now, successor))
  {
    match CaseOf(c, credential, key, accountActive, now)
    case Repeated =>
    case Rotated =>
      RotationKeeps(c, key, successor, now);
    case Replayed =>
      EndKeeps(c, TokenReplayed);
      LoseKeeps(End(c, TokenReplayed), key, credential);
    case Unusable =>
      EndKeeps(c, SessionUnusable);
      LoseKeeps(End(c, SessionUnusable), key, credential);
  }
}
