/**
 The challenge and outbox tables, the guard triggers on them, and the transactions of delivery
 workers, registrations and password resets.  Every single write goes through `SaveChallenge` or
 `SaveOutbox`, whose preconditions are the guards, so no transaction is aborted by them.
 */
module VerificationDesk {
  import opened Wrappers
  import opened L = LeaseMachine
  import opened T = VerificationTickets
  import opened RowOrder
  import RefreshService
  import RefreshChain
  import RefreshTables

  datatype ChallengeState =
    | ChallengePending | ChallengeActive | ChallengeConsumed | ChallengeSuperseded
    | ChallengeExpired | ChallengeLocked | ChallengeFailed

  datatype OutboxState = OutboxPending | OutboxLeased | OutboxDelivered | OutboxFailed

  datatype Challenge = Challenge(
    purpose: Purpose, digest: ContactDigest, user: Option<nat>, code: Code,
    state: ChallengeState, attemptCount: nat,
    activatedAt: Option<Time>, expiresAt: Option<Time>, consumedAt: Option<Time>,
    supersededAt: Option<Time>, terminalAt: Option<Time>)

  /** What the encrypted payload of an open outbox says. */
  datatype Payload = Payload(email: Email, purpose: Purpose, code: Code)

  datatype Outbox = Outbox(
    challengeId: Id, createdAt: Time, payload: Option<Payload>, state: OutboxState, attemptCount: nat,
    leaseOwner: Option<Worker>, leaseExpiresAt: Option<Time>, nextAttemptAt: Time,
    deliveredAt: Option<Time>, terminalAt: Option<Time>)

  datatype ClaimedDelivery = ClaimedDelivery(outboxId: Id, challengeId: Id, worker: Worker, payload: Payload,
    attemptCount: nat)

  /** What a caller who submits a code is told. */
  datatype CodeOutcome = CodeAccepted | CodeInvalid | NotRegistrable | ResetUnavailable

  /** `RolledBack`: the unique constraint on active destinations undid the transaction. */
  datatype DeliveryOutcome = NoWork | Delivered | RetryScheduled | DeliveryFailed | StaleClaim | RolledBack | Crashed

  /** How handing a message to the mail provider ends; `Lost`: the worker dies right after it. */
  datatype Attempt = Accepted | Refused | Deferred | Lost

  // ---- the guard triggers and check constraints ----

  predicate TerminalChallenge(s: ChallengeState) {
    !s.ChallengePending? && !s.ChallengeActive?
  }

  predicate ChallengeGuard(old_: Challenge, new_: Challenge) {
    && new_.purpose == old_.purpose && new_.digest == old_.digest && new_.user == old_.user && new_.code == old_.code
    && (TerminalChallenge(old_.state) ==> new_ == old_)
    && (new_.state != old_.state ==>
         || (old_.state.ChallengePending?
           && (new_.state.ChallengeActive? || new_.state.ChallengeSuperseded? || new_.state.ChallengeFailed?))
         || (old_.state.ChallengeActive? && (new_.state.ChallengeConsumed? || new_.state.ChallengeSuperseded?
                                             || new_.state.ChallengeExpired? || new_.state.ChallengeLocked?)))
  }

  predicate ChallengeShape(c: Challenge) {
    && (c.purpose.Registration? <==> c.user.None?)
    && c.attemptCount <= 5
    && (c.state.ChallengeActive? ==>
       c.activatedAt.Some? && c.expiresAt.Some? && c.expiresAt.value > c.activatedAt.value)
    && (TerminalChallenge(c.state) <==> c.terminalAt.Some?)
    && (c.state.ChallengeConsumed? ==> c.consumedAt.Some?)
    && (c.state.ChallengeSuperseded? ==> c.supersededAt.Some?)
  }

  predicate SameDestination(a: Challenge, b: Challenge) {
    a.purpose == b.purpose && a.digest == b.digest
  }

  /** The unique constraint on active destinations, as it judges one written row. */
  predicate DestinationFree(rows: map<Id, Challenge>, id: Id, row: Challenge) {
    row.state.ChallengeActive? ==>
      forall o :: o in rows && o != id && rows[o].state.ChallengeActive? ==> !SameDestination(rows[o], row)
  }

  predicate OutboxGuard(old_: Outbox, new_: Outbox) {
    && new_.challengeId == old_.challengeId && new_.createdAt == old_.createdAt
    && (old_.state.OutboxDelivered? || old_.state.OutboxFailed? ==> new_ == old_)
    && (new_.state != old_.state ==>
         || (old_.state.OutboxPending? && (new_.state.OutboxLeased? || new_.state.OutboxFailed?))
         || (old_.state.OutboxLeased?
           && (new_.state.OutboxPending? || new_.state.OutboxDelivered? || new_.state.OutboxFailed?)))
  }

  predicate OutboxShape(o: Outbox) {
    && (o.state.OutboxPending? || o.state.OutboxLeased? <==> o.payload.Some?)
    && (o.state.OutboxLeased? ==> o.leaseOwner.Some? && o.leaseExpiresAt.Some?)
    && (o.state.OutboxDelivered? <==> o.deliveredAt.Some?)
    && (o.state.OutboxDelivered? || o.state.OutboxFailed? <==> o.terminalAt.Some?)
  }

  // ---- the rows of a ticket ----

  function ChallengeRow(t: Ticket): Challenge {
    var base := Challenge(t.purpose, t.digest, t.user, t.code, ChallengePending, t.guesses, None, None, None, None,
      None);
    match t.fate
    case Undelivered => base
    case Failed(at) => base.(state := ChallengeFailed, terminalAt := Some(at))
    case Cancelled(at) => base.(state := ChallengeSuperseded, supersededAt := Some(at), terminalAt := Some(at))
    case Live(since) =>
      base.(state := ChallengeActive, activatedAt := Some(since), expiresAt := Some(since + CHALLENGE_TTL))
    case Closed(since, at, outcome) =>
      base.(
        state := match outcome
                 case Consumed => ChallengeConsumed
                 case Superseded => ChallengeSuperseded
                 case Expired => ChallengeExpired
                 case Locked => ChallengeLocked,
        activatedAt := Some(since), expiresAt := Some(since + CHALLENGE_TTL),
        consumedAt := if outcome.Consumed? then Some(at) else None,
        supersededAt := if outcome.Superseded? then Some(at) else None,
        terminalAt := Some(at))
  }

  function PayloadOf(t: Ticket): Payload {
    Payload(t.digest.email, t.purpose, t.code)
  }

  function OutboxRow(id: Id, t: Ticket): Outbox {
    var d := t.delivery;
    var base := Outbox(id, t.createdAt, None, OutboxPending, d.attempts, None, None, d.nextAt, None, None);
    match d.stage
    case Waiting => base.(payload := Some(PayloadOf(t)))
    case Leased(w, until) =>
      base.(state := OutboxLeased, payload := Some(PayloadOf(t)), leaseOwner := Some(w), leaseExpiresAt := Some(until))
    case Sent(at) => base.(state := OutboxDelivered, deliveredAt := Some(at), terminalAt := Some(at))
    case Dropped(at) => base.(state := OutboxFailed, terminalAt := Some(at))
  }

  ghost predicate ChallengesMatch(rows: map<Id, Challenge>, ts: map<Id, Ticket>) {
    rows.Keys == ts.Keys && forall id :: id in ts ==> rows[id] == ChallengeRow(ts[id])
  }

  ghost predicate OutboxesMatch(rows: map<Id, Outbox>, ts: map<Id, Ticket>) {
    (forall id :: id in ts ==> BoxStored(rows, id, ts[id])) && (forall o :: o in rows ==> BoxOwned(rows, ts, o))
  }

  ghost predicate BoxStored(rows: map<Id, Outbox>, id: Id, t: Ticket) {
    t.outboxId in rows && rows[t.outboxId] == OutboxRow(id, t)
  }

  ghost predicate BoxOwned(rows: map<Id, Outbox>, ts: map<Id, Ticket>, o: Id)
    requires o in rows
  {
    rows[o].challengeId in ts && ts[rows[o].challengeId].outboxId == o
  }

  /** Outbox open iff challenge pending; payload kept iff outbox open; each kind of terminal row
      belongs to its kind of terminal challenge. */
  lemma RowsCoupled(challenges: map<Id, Challenge>, outboxes: map<Id, Outbox>, ts: map<Id, Ticket>, o: Id)
    requires ChallengesMatch(challenges, ts) && OutboxesMatch(outboxes, ts) && AllOk(ts) && o in outboxes
    ensures outboxes[o].challengeId in challenges
    ensures var box, c := outboxes[o], challenges[outboxes[o].challengeId];
            && ((box.state.OutboxPending? || box.state.OutboxLeased?) <==> c.state.ChallengePending?)
            && (box.payload.None? <==> box.state.OutboxDelivered? || box.state.OutboxFailed?)
            && (box.state.OutboxFailed? ==> c.state.ChallengeFailed? || c.state.ChallengeSuperseded?)
            && (c.activatedAt.Some? ==> box.state.OutboxDelivered?)
            && (c.state.ChallengeActive? || c.state.ChallengeConsumed? ==> box.state.OutboxDelivered?)
            && (c.state.ChallengeExpired? || c.state.ChallengeLocked? ==> box.state.OutboxDelivered?)
            && ChallengeShape(c) && OutboxShape(box)
  {
    hide ChallengesMatch, OutboxesMatch, AllOk, UniqueDigests, LogOk;
    BoxRows(challenges, outboxes, ts, o);
  }

  lemma ChallengeChanged(rows: map<Id, Challenge>, ts: map<Id, Ticket>, id: Id, t: Ticket)
    requires ChallengesMatch(rows, ts)
    ensures ChallengesMatch(rows[id := ChallengeRow(t)], ts[id := t])
  {
  }

  lemma OutboxChanged(rows: map<Id, Outbox>, ts: map<Id, Ticket>, id: Id, t: Ticket)
    requires OutboxesMatch(rows, ts)
    requires if id in ts then t.outboxId == ts[id].outboxId else t.outboxId !in rows
    ensures OutboxesMatch(rows[t.outboxId := OutboxRow(id, t)], ts[id := t])
  {
    var out, us := rows[t.outboxId := OutboxRow(id, t)], ts[id := t];
    forall o | o in us ensures BoxStored(out, o, us[o]) {
      if o != id {
        assert BoxStored(rows, o, ts[o]);
        assert id in ts ==> BoxStored(rows, id, ts[id]);
      }
    }
    forall o | o in out ensures BoxOwned(out, us, o) {
      if o != t.outboxId { assert BoxOwned(rows, ts, o); }
    }
  }

  lemma OneChanged(challenges: map<Id, Challenge>, outboxes: map<Id, Outbox>, ts: map<Id, Ticket>, id: Id, t: Ticket)
    requires ChallengesMatch(challenges, ts) && OutboxesMatch(outboxes, ts)
    requires if id in ts then t.outboxId == ts[id].outboxId else t.outboxId !in outboxes
    ensures ChallengesMatch(challenges[id := ChallengeRow(t)], ts[id := t])
    ensures OutboxesMatch(outboxes[t.outboxId := OutboxRow(id, t)], ts[id := t])
  {
    ChallengeChanged(challenges, ts, id, t);
    OutboxChanged(outboxes, ts, id, t);
  }

  lemma BoxRows(challenges: map<Id, Challenge>, outboxes: map<Id, Outbox>, ts: map<Id, Ticket>, o: Id)
    requires ChallengesMatch(challenges, ts) && OutboxesMatch(outboxes, ts) && AllOk(ts) && o in outboxes
    ensures var id := outboxes[o].challengeId;
            && id in ts && ts[id].outboxId == o && TicketOk(ts[id])
            && id in challenges && challenges[id] == ChallengeRow(ts[id]) && outboxes[o] == OutboxRow(id, ts[id])
  {
  }

  // ---- what the bulk updates amount to ----

  function WithdrawChallenges(rows: map<Id, Challenge>, ids: set<Id>, now: Time): map<Id, Challenge> {
    map id | id in rows ::
      if id in ids then rows[id].(state := ChallengeSuperseded, supersededAt := Some(now), terminalAt := Some(now))
        else rows[id]
  }

  function CancelOutboxes(rows: map<Id, Outbox>, os: set<Id>, now: Time): map<Id, Outbox> {
    map o | o in rows :: if o in os then DropOutbox(rows[o], now) else rows[o]
  }

  function DropOutbox(row: Outbox, now: Time): Outbox {
    row.(state := OutboxFailed, payload := None, leaseOwner := None, leaseExpiresAt := None, terminalAt := Some(now))
  }

  predicate Rival(rows: map<Id, Challenge>, id: Id, ring: KeyRing, o: Id)
    requires id in rows && o in rows
  {
    && o != id && rows[o].state.ChallengeActive? && rows[o].purpose == rows[id].purpose
    && rows[o].digest.email == rows[id].digest.email && rows[o].digest.keyId in ring
  }

  /** Activating one challenge and superseding its rivals gives the rows of the finished tickets. */
  lemma FinishedChallenges(rows: map<Id, Challenge>, ts: map<Id, Ticket>, id: Id, worker: Worker, ring: KeyRing,
                           rivals: set<Id>, now: Time)
    requires ChallengesMatch(rows, ts) && id in ts && HeldBy(ts[id].delivery, worker) && !Blocked(ts, id, ring)
    requires forall o :: o in rivals <==> o in rows && Rival(rows, id, ring, o)
    ensures var us := T.Finish(ts, id, worker, ring, now);
            id in us && ChallengesMatch(WithdrawChallenges(rows, rivals, now)[id := ChallengeRow(us[id])], us)
  {
    hide T.Finish, ChallengeRow, WithdrawChallenges, Rival;
    FinishKeepsBoxes(ts, id, worker, ring, now);
    WithdrawKeys(rows, rivals, now);
    var us := T.Finish(ts, id, worker, ring, now);
    var out := WithdrawChallenges(rows, rivals, now)[id := ChallengeRow(us[id])];
    forall o | o in us ensures out[o] == ChallengeRow(us[o]) {
      if o != id { ChallengeAfterFinish(rows, ts, id, o, worker, ring, rivals, now); }
    }
  }

  function ActivatedRow(row: Challenge, now: Time): (r: Challenge)
    ensures SameDestination(r, row)
  {
    row.(state := ChallengeActive, activatedAt := Some(now), expiresAt := Some(now + CHALLENGE_TTL))
  }

  function DeliveredRow(row: Outbox, now: Time): Outbox {
    row.(state := OutboxDelivered, payload := None, leaseOwner := None, leaseExpiresAt := None,
         deliveredAt := Some(now), terminalAt := Some(now))
  }

  /** The two rows a finish writes itself pass their guards and are those of the finished ticket. */
  lemma FinishedRows(ts: map<Id, Ticket>, id: Id, worker: Worker, ring: KeyRing, now: Time)
    requires id in ts && TicketOk(ts[id]) && HeldBy(ts[id].delivery, worker) && !Blocked(ts, id, ring)
    ensures var us := T.Finish(ts, id, worker, ring, now);
            var c, o := ChallengeRow(ts[id]), OutboxRow(id, ts[id]);
            && id in us && ActivatedRow(c, now) == ChallengeRow(us[id]) && DeliveredRow(o, now) == OutboxRow(id, us[id])
            && ChallengeGuard(c, ActivatedRow(c, now)) && ChallengeShape(ActivatedRow(c, now))
            && OutboxGuard(o, DeliveredRow(o, now)) && OutboxShape(DeliveredRow(o, now))
  {
  }

  lemma LeaseInRow(id: Id, t: Ticket, worker: Worker)
    ensures var row := OutboxRow(id, t);
            HeldBy(t.delivery, worker) <==> row.state.OutboxLeased? && row.leaseOwner == Some(worker)
  {
  }

  lemma StaleFinish(ts: map<Id, Ticket>, id: Id, worker: Worker, ring: KeyRing, now: Time)
    requires id in ts && (!HeldBy(ts[id].delivery, worker) || Blocked(ts, id, ring))
    ensures T.Finish(ts, id, worker, ring, now) == ts
  {
  }

  lemma RivalRows(challenges: map<Id, Challenge>, ts: map<Id, Ticket>, id: Id, ring: KeyRing, rivals: set<Id>)
    requires ChallengesMatch(challenges, ts) && AllOk(ts) && id in challenges
    requires forall r :: r in rivals ==> r in challenges && Rival(challenges, id, ring, r)
    ensures forall r :: r in rivals ==> !TerminalChallenge(challenges[r].state) && ChallengeShape(challenges[r])
  {
    hide ChallengesMatch, AllOk;
    ActiveShapes(challenges, ts, rivals);
  }

  lemma ChallengeAfterFinish(rows: map<Id, Challenge>, ts: map<Id, Ticket>, id: Id, o: Id, worker: Worker,
                             ring: KeyRing, rivals: set<Id>, now: Time)
    requires id in ts && o in ts && o != id && id in rows && o in rows && HeldBy(ts[id].delivery, worker)
    requires !Blocked(ts, id, ring)
    requires rows[id] == ChallengeRow(ts[id]) && rows[o] == ChallengeRow(ts[o])
    requires o in rivals <==> Rival(rows, id, ring, o)
    ensures o in T.Finish(ts, id, worker, ring, now)
    ensures WithdrawChallenges(rows, rivals, now)[o] == ChallengeRow(T.Finish(ts, id, worker, ring, now)[o])
  {
  }

  lemma FinishedOutboxes(rows: map<Id, Outbox>, ts: map<Id, Ticket>, id: Id, worker: Worker, ring: KeyRing, now: Time)
    requires OutboxesMatch(rows, ts) && id in ts && HeldBy(ts[id].delivery, worker) && !Blocked(ts, id, ring)
    ensures var us := T.Finish(ts, id, worker, ring, now);
            id in us && us[id].outboxId == ts[id].outboxId
              && OutboxesMatch(rows[ts[id].outboxId := OutboxRow(id, us[id])], us)
  {
    hide T.Finish, BoxStored, OutboxRow;
    var us := T.Finish(ts, id, worker, ring, now);
    FinishKeepsBoxes(ts, id, worker, ring, now);
    OutboxChanged(rows, ts, id, us[id]);
    var out := rows[ts[id].outboxId := OutboxRow(id, us[id])];
    forall o | o in us ensures BoxStored(out, o, us[o]) {
      assert BoxStored(out, o, ts[id := us[id]][o]);
      SameBox(out, o, ts[id := us[id]][o], us[o]);
    }
    forall o | o in out ensures BoxOwned(out, us, o) {
      assert BoxOwned(out, ts[id := us[id]], o);
    }
  }

  lemma FinishKeepsBoxes(ts: map<Id, Ticket>, id: Id, worker: Worker, ring: KeyRing, now: Time)
    requires id in ts
    ensures var us := T.Finish(ts, id, worker, ring, now);
            us.Keys == ts.Keys
              && forall o :: o in ts ==> us[o].outboxId == ts[o].outboxId && (o != id ==> SameRow(ts[o], us[o]))
  {
  }

  /** Two tickets with the same outbox row. */
  predicate SameRow(t: Ticket, u: Ticket) {
    u.outboxId == t.outboxId && u.createdAt == t.createdAt && u.delivery == t.delivery && PayloadOf(u) == PayloadOf(t)
  }

  lemma SameBox(rows: map<Id, Outbox>, o: Id, t: Ticket, u: Ticket)
    requires BoxStored(rows, o, t) && (t == u || SameRow(t, u))
    ensures BoxStored(rows, o, u)
  {
  }

  function ConsumedRow(row: Challenge, now: Time): (r: Challenge)
    ensures !r.state.ChallengeActive?
  {
    row.(state := ChallengeConsumed, consumedAt := Some(now), terminalAt := Some(now))
  }

  lemma ConsumedRows(t: Ticket, now: Time)
    requires TicketOk(t) && t.fate.Live?
    ensures var row := ConsumedRow(ChallengeRow(t), now);
            && row == ChallengeRow(Close(t, Consumed, now))
            && ChallengeGuard(ChallengeRow(t), row) && ChallengeShape(row)
  {
  }

  lemma KeptRow(rows: map<Id, Challenge>, ids: set<Id>, id: Id, now: Time)
    requires id in rows && id !in ids
    ensures id in WithdrawChallenges(rows, ids, now) && WithdrawChallenges(rows, ids, now)[id] == rows[id]
  {
  }

  predicate Unfinished(rows: map<Id, Challenge>, id: Id, o: Id)
    requires id in rows && o in rows
  {
    && o != id && rows[o].purpose.PasswordReset? && rows[o].user == rows[id].user
    && (rows[o].state.ChallengePending? || rows[o].state.ChallengeActive?)
  }

  /** Consuming the presented challenge and withdrawing the unfinished ones gives the rows of the
      reset tickets. */
  lemma ResetChallenges(rows: map<Id, Challenge>, ts: map<Id, Ticket>, id: Id, unfinished: set<Id>, now: Time)
    requires ChallengesMatch(rows, ts) && id in ts
    requires forall o :: o in unfinished <==> o in rows && Unfinished(rows, id, o)
    ensures id in Reset(ts, id, now)
    ensures ChallengesMatch(WithdrawChallenges(rows, unfinished, now)[id := ChallengeRow(Reset(ts, id, now)[id])],
      Reset(ts, id, now))
  {
    hide Reset, ChallengeRow, WithdrawChallenges, Unfinished;
    ResetKeys(ts, id, now);
    WithdrawKeys(rows, unfinished, now);
    var us := Reset(ts, id, now);
    var out := WithdrawChallenges(rows, unfinished, now)[id := ChallengeRow(us[id])];
    forall o | o in us ensures out[o] == ChallengeRow(us[o]) {
      if o != id { ChallengeAfterReset(rows, ts, id, o, unfinished, now); }
    }
  }

  lemma ResetKeys(ts: map<Id, Ticket>, id: Id, now: Time)
    requires id in ts
    ensures Reset(ts, id, now).Keys == ts.Keys
      && forall o :: o in ts ==> Reset(ts, id, now)[o].outboxId == ts[o].outboxId
  {
  }

  lemma ResetOwn(ts: map<Id, Ticket>, id: Id, now: Time)
    requires id in ts
    ensures id in Reset(ts, id, now) && Reset(ts, id, now)[id] == Close(ts[id], Consumed, now)
  {
  }

  lemma UnfinishedOpen(rows: map<Id, Challenge>, id: Id, ids: set<Id>)
    requires id in rows && forall o :: o in ids ==> o in rows && Unfinished(rows, id, o)
    ensures forall o :: o in ids ==> o != id && !TerminalChallenge(rows[o].state)
  {
  }

  lemma WithdrawKeys(rows: map<Id, Challenge>, ids: set<Id>, now: Time)
    ensures WithdrawChallenges(rows, ids, now).Keys == rows.Keys
  {
  }

  lemma ChallengeAfterReset(rows: map<Id, Challenge>, ts: map<Id, Ticket>, id: Id, o: Id, unfinished: set<Id>,
                            now: Time)
    requires id in ts && o in ts && o != id && id in rows && o in rows
    requires rows[id] == ChallengeRow(ts[id]) && rows[o] == ChallengeRow(ts[o])
    requires o in unfinished <==> Unfinished(rows, id, o)
    ensures WithdrawChallenges(rows, unfinished, now)[o] == ChallengeRow(Reset(ts, id, now)[o])
  {
  }

  lemma ResetOutboxes(challenges: map<Id, Challenge>, rows: map<Id, Outbox>, ts: map<Id, Ticket>,
                      id: Id, unfinished: set<Id>, open: set<Id>, now: Time)
    requires ChallengesMatch(challenges, ts) && OutboxesMatch(rows, ts) && AllOk(ts) && id in ts && ts[id].fate.Live?
    requires forall o :: o in unfinished <==> o in challenges && Unfinished(challenges, id, o)
    requires forall b :: b in open <==> b in rows && rows[b].challengeId in unfinished && OpenBox(rows[b])
    ensures OutboxesMatch(CancelOutboxes(rows, open, now), Reset(ts, id, now))
  {
    hide Reset, CancelOutboxes, Unfinished, OpenBox, ChallengeRow, OutboxRow, TicketOk;
    ResetKeys(ts, id, now);
    CancelKeys(rows, open, now);
    var us, out := Reset(ts, id, now), CancelOutboxes(rows, open, now);
    forall o | o in us ensures BoxStored(out, o, us[o]) {
      assert BoxStored(rows, o, ts[o]) && TicketOk(ts[o]);
      BoxAfterReset(challenges, rows, ts, id, o, unfinished, open, now);
    }
    forall b | b in out ensures BoxOwned(out, us, b) {
      assert BoxOwned(rows, ts, b);
    }
  }

  lemma CancelKeys(rows: map<Id, Outbox>, open: set<Id>, now: Time)
    ensures var out := CancelOutboxes(rows, open, now);
            out.Keys == rows.Keys && forall b :: b in rows ==> out[b].challengeId == rows[b].challengeId
  {
  }

  lemma BoxAfterReset(challenges: map<Id, Challenge>, rows: map<Id, Outbox>, ts: map<Id, Ticket>,
                      id: Id, o: Id, unfinished: set<Id>, open: set<Id>, now: Time)
    requires id in ts && ts[id].fate.Live? && id in challenges && challenges[id] == ChallengeRow(ts[id])
    requires o in ts && BoxStored(rows, o, ts[o]) && TicketOk(ts[o]) && o in challenges
      && challenges[o] == ChallengeRow(ts[o])
    requires o in unfinished <==> Unfinished(challenges, id, o)
    requires ts[o].outboxId in open <==> rows[ts[o].outboxId].challengeId in unfinished && OpenBox(rows[ts[o].outboxId])
    ensures BoxStored(CancelOutboxes(rows, open, now), o, Reset(ts, id, now)[o])
  {
  }

  predicate Eligible(o: Outbox, now: Time) {
    && o.attemptCount < MAX_ATTEMPTS
    && ((o.state.OutboxPending? && o.nextAttemptAt <= now)
        || (o.state.OutboxLeased? && o.leaseExpiresAt.Some? && o.leaseExpiresAt.value <= now))
  }

  predicate ExhaustedBox(o: Outbox, now: Time) {
    o.state.OutboxLeased? && o.leaseExpiresAt.Some? && o.leaseExpiresAt.value <= now && o.attemptCount >= MAX_ATTEMPTS
  }

  /** The rows a worker may claim, passing over those another transaction has locked. */
  function Due(rows: map<Id, Outbox>, now: Time, locked: set<Id>): set<Id> {
    set o | o in rows && o !in locked && Eligible(rows[o], now)
  }

  function Spent(rows: map<Id, Outbox>, now: Time, locked: set<Id>): set<Id> {
    set o | o in rows && o !in locked && ExhaustedBox(rows[o], now)
  }

  /** Retry order: the time of the next attempt, then the creation. */
  function RetryRank(rows: map<Id, Outbox>): Id -> Rank {
    o => if o in rows then (rows[o].nextAttemptAt, rows[o].createdAt) else (0, 0)
  }

  function LeaseRank(rows: map<Id, Outbox>): Id -> Rank {
    o => if o in rows && rows[o].leaseExpiresAt.Some? then (rows[o].leaseExpiresAt.value, 0) else (0, 0)
  }

  /** Latest activation first. */
  function RecencyRank(rows: map<Id, Challenge>): Id -> Rank {
    o => if o in rows && rows[o].activatedAt.Some? then (-rows[o].activatedAt.value, 0) else (0, 0)
  }

  predicate OpenBox(o: Outbox) {
    o.state.OutboxPending? || o.state.OutboxLeased?
  }

  /** What the worker reports about a message it sent. */
  function Report(id: Id, worker: Worker, ring: KeyRing, attempt: Attempt, now: Time): seq<T.Event> {
    match attempt
    case Accepted => [Finishing(id, worker, ring, now)]
    case Refused => [Failing(id, worker, true, now)]
    case Deferred => [Failing(id, worker, false, now)]
    case Lost => []
  }

  // ---- what the transactions do, row by row ----

  /** An outbox row a worker may lease now, or whose last lease ran out. */
  ghost predicate MayBeLeased(rows: map<Id, Outbox>, o: Id, now: Time, locked: set<Id>) {
    && o in rows && o !in locked && rows[o].attemptCount < 5
    && ((rows[o].state.OutboxPending? && rows[o].nextAttemptAt <= now)
        || (rows[o].state.OutboxLeased? && rows[o].leaseExpiresAt.Some? && rows[o].leaseExpiresAt.value <= now))
  }

  ghost predicate RanOut(rows: map<Id, Outbox>, o: Id, now: Time, locked: set<Id>) {
    && o in rows && o !in locked && rows[o].attemptCount >= 5
    && rows[o].state.OutboxLeased? && rows[o].leaseExpiresAt.Some? && rows[o].leaseExpiresAt.value <= now
  }

  /** The row to lease is the first by time of the next attempt, creation and identifier. */
  ghost predicate FirstToLease(rows: map<Id, Outbox>, o: Id, now: Time, locked: set<Id>) {
    && MayBeLeased(rows, o, now, locked)
    && forall p :: MayBeLeased(rows, p, now, locked) && p != o ==>
         || rows[o].nextAttemptAt < rows[p].nextAttemptAt
         || (rows[o].nextAttemptAt == rows[p].nextAttemptAt
             && (rows[o].createdAt < rows[p].createdAt || (rows[o].createdAt == rows[p].createdAt && o < p)))
  }

  ghost predicate FirstRanOut(rows: map<Id, Outbox>, o: Id, now: Time, locked: set<Id>) {
    && RanOut(rows, o, now, locked)
    && forall p :: RanOut(rows, p, now, locked) && p != o ==>
         || rows[o].leaseExpiresAt.value < rows[p].leaseExpiresAt.value
         || (rows[o].leaseExpiresAt.value == rows[p].leaseExpiresAt.value && o < p)
  }

  /** One outbox fails and loses payload and lease, and with it a challenge that was still pending. */
  ghost predicate FailedRows(cs: map<Id, Challenge>, os: map<Id, Outbox>, cs2: map<Id, Challenge>,
                             os2: map<Id, Outbox>, o: Id, now: Time) {
    && o in os && os[o].challengeId in cs
    && cs[os[o].challengeId].state.ChallengePending?
    && cs2 == cs[os[o].challengeId := cs[os[o].challengeId].(state := ChallengeFailed, terminalAt := Some(now))]
    && os2 == os[o := os[o].(state := OutboxFailed, payload := None, leaseOwner := None, leaseExpiresAt := None,
                             terminalAt := Some(now))]
  }

  ghost predicate Leases(rows: map<Id, Outbox>, o: Id, worker: Worker) {
    o in rows && rows[o].state.OutboxLeased? && rows[o].leaseOwner == Some(worker)
  }

  /** Another active challenge for the same purpose and address, whose key the ring holds. */
  ghost predicate Reached(rows: map<Id, Challenge>, id: Id, ring: KeyRing, r: Id)
    requires id in rows && r in rows
  {
    && r != id && rows[r].state.ChallengeActive? && rows[r].purpose == rows[id].purpose
    && rows[r].digest.email == rows[id].digest.email && rows[r].digest.keyId in ring
  }

  /** An active challenge at the very same destination that the ring does not reach. */
  ghost predicate InTheWay(rows: map<Id, Challenge>, id: Id, ring: KeyRing) {
    && id in rows && rows[id].digest.keyId !in ring
    && exists r ::
         && r in rows && r != id && rows[r].state.ChallengeActive? && rows[r].purpose == rows[id].purpose
         && rows[r].digest == rows[id].digest
  }

  /** One challenge becomes active for ten minutes, and the ones reached are superseded. */
  ghost predicate ActivatedRows(cs: map<Id, Challenge>, cs2: map<Id, Challenge>, id: Id, ring: KeyRing, now: Time) {
    && id in cs && cs2.Keys == cs.Keys
    && cs2[id] == cs[id].(state := ChallengeActive, activatedAt := Some(now), expiresAt := Some(now + 600))
    && forall r :: r in cs && r != id ==>
         cs2[r] == if Reached(cs, id, ring, r)
                   then cs[r].(state := ChallengeSuperseded, supersededAt := Some(now), terminalAt := Some(now))
                   else cs[r]
  }

  ghost predicate DeliveredBox(os: map<Id, Outbox>, os2: map<Id, Outbox>, o: Id, now: Time) {
    && o in os
    && os2 == os[o := os[o].(state := OutboxDelivered, payload := None, leaseOwner := None, leaseExpiresAt := None,
                             deliveredAt := Some(now), terminalAt := Some(now))]
  }

  /** The lease is given back, and the next attempt is due 2, 4, 8 or 16 seconds later. */
  ghost predicate RetriedBox(os: map<Id, Outbox>, os2: map<Id, Outbox>, o: Id, now: Time) {
    && o in os && 1 <= os[o].attemptCount <= 4
    && var n := os[o].attemptCount;
    os2 == os[o := os[o].(state := OutboxPending, leaseOwner := None, leaseExpiresAt := None,
                          nextAttemptAt := now + if n == 1 then 2 else if n == 2 then 4 else if n == 3 then 8 else 16)]
  }

  /** An active challenge a submitted code can be meant for. */
  ghost predicate MeantFor(rows: map<Id, Challenge>, id: Id, purpose: Purpose, user: Option<nat>, email: Email,
                           ring: KeyRing) {
    && id in rows && rows[id].state.ChallengeActive? && rows[id].purpose == purpose && rows[id].user == user
    && rows[id].digest.email == email && rows[id].digest.keyId in ring
  }

  /** The one activated last, and under the first identifier of these. */
  ghost predicate LastActivated(rows: map<Id, Challenge>, id: Id, purpose: Purpose, user: Option<nat>, email: Email,
                                ring: KeyRing) {
    && MeantFor(rows, id, purpose, user, email, ring) && rows[id].activatedAt.Some?
    && forall o :: MeantFor(rows, o, purpose, user, email, ring) && o != id ==>
         && rows[o].activatedAt.Some?
         && (rows[o].activatedAt.value < rows[id].activatedAt.value
             || (rows[o].activatedAt == rows[id].activatedAt && id < o))
  }

  /** In time: before the stored expiry. */
  ghost predicate Usable(row: Challenge, now: Time) {
    row.expiresAt.Some? && now < row.expiresAt.value
  }

  /** A code that is not accepted: an expired challenge is closed, a wrong code counts, and the fifth
      wrong one locks. */
  ghost predicate RejectedRow(row: Challenge, row2: Challenge, now: Time) {
    if !Usable(row, now) then row2 == row.(state := ChallengeExpired, terminalAt := Some(now))
    else if row.attemptCount < 4 then row2 == row.(attemptCount := row.attemptCount + 1)
    else row2 == row.(attemptCount := row.attemptCount + 1, state := ChallengeLocked, terminalAt := Some(now))
  }

  ghost predicate AcceptedRow(row: Challenge, row2: Challenge, now: Time) {
    row2 == row.(state := ChallengeConsumed, consumedAt := Some(now), terminalAt := Some(now))
  }

  /** Another unfinished reset challenge of the same user. */
  ghost predicate Withdrawn(rows: map<Id, Challenge>, id: Id, o: Id)
    requires id in rows && o in rows
  {
    && o != id && rows[o].purpose == Purpose.PasswordReset && rows[o].user == rows[id].user
    && (rows[o].state.ChallengePending? || rows[o].state.ChallengeActive?)
  }

  /** A reset uses its code up and withdraws the unfinished ones of the user with their outboxes. */
  ghost predicate ResetRows(cs: map<Id, Challenge>, cs2: map<Id, Challenge>, id: Id, now: Time) {
    && id in cs && cs2.Keys == cs.Keys && AcceptedRow(cs[id], cs2[id], now)
    && forall o :: o in cs && o != id ==>
         cs2[o] == if Withdrawn(cs, id, o)
                   then cs[o].(state := ChallengeSuperseded, supersededAt := Some(now), terminalAt := Some(now))
                   else cs[o]
  }

  ghost predicate ResetBoxes(cs: map<Id, Challenge>, os: map<Id, Outbox>, os2: map<Id, Outbox>, id: Id, now: Time) {
    && id in cs && os2.Keys == os.Keys
    && forall b :: b in os ==>
         && os[b].challengeId in cs
         && os2[b] == if Withdrawn(cs, id, os[b].challengeId)
            && (os[b].state.OutboxPending? || os[b].state.OutboxLeased?)
                      then os[b].(state := OutboxFailed, payload := None, leaseOwner := None, leaseExpiresAt := None,
                                  terminalAt := Some(now))
                      else os[b]
  }

  lemma LeasedFirst(rows: map<Id, Outbox>, now: Time, locked: set<Id>)
    ensures forall o :: o in Due(rows, now, locked) <==> MayBeLeased(rows, o, now, locked)
    ensures forall o :: IsFirst(Due(rows, now, locked), RetryRank(rows), o) ==> FirstToLease(rows, o, now, locked)
  {
    var rank := RetryRank(rows);
    forall o | IsFirst(Due(rows, now, locked), rank, o) ensures FirstToLease(rows, o, now, locked) {
      forall p | MayBeLeased(rows, p, now, locked) && p != o
        ensures || rows[o].nextAttemptAt < rows[p].nextAttemptAt
                || (rows[o].nextAttemptAt == rows[p].nextAttemptAt
                    && (rows[o].createdAt < rows[p].createdAt || (rows[o].createdAt == rows[p].createdAt && o < p)))
      {
        assert p in Due(rows, now, locked) && Before(rank(o), o, rank(p), p);
      }
    }
  }

  lemma RanOutFirst(rows: map<Id, Outbox>, now: Time, locked: set<Id>)
    ensures forall o :: o in Spent(rows, now, locked) <==> RanOut(rows, o, now, locked)
    ensures forall o :: IsFirst(Spent(rows, now, locked), LeaseRank(rows), o) ==> FirstRanOut(rows, o, now, locked)
  {
    var rank := LeaseRank(rows);
    forall o | IsFirst(Spent(rows, now, locked), rank, o) ensures FirstRanOut(rows, o, now, locked) {
      forall p | RanOut(rows, p, now, locked) && p != o
        ensures || rows[o].leaseExpiresAt.value < rows[p].leaseExpiresAt.value
                || (rows[o].leaseExpiresAt.value == rows[p].leaseExpiresAt.value && o < p)
      {
        assert p in Spent(rows, now, locked) && Before(rank(o), o, rank(p), p);
      }
    }
  }

  lemma ActivatedExplicit(cs: map<Id, Challenge>, id: Id, ring: KeyRing, rivals: set<Id>, now: Time)
    requires id in cs && forall r :: r in rivals <==> r in cs && Rival(cs, id, ring, r)
    ensures ActivatedRows(cs, WithdrawChallenges(cs, rivals, now)[id := ActivatedRow(cs[id], now)], id, ring, now)
  {
  }

  lemma BlockedInTheWay(cs: map<Id, Challenge>, ts: map<Id, Ticket>, id: Id, ring: KeyRing)
    requires ChallengesMatch(cs, ts) && id in ts
    ensures Blocked(ts, id, ring) <==> InTheWay(cs, id, ring)
  {
    forall r | r in cs
      ensures Twin(ts, id, r)
              <==> r != id && cs[r].state.ChallengeActive? && cs[r].purpose == cs[id].purpose
                   && cs[r].digest == cs[id].digest
    {
      assert cs[r] == ChallengeRow(ts[r]) && cs[id] == ChallengeRow(ts[id]);
    }
  }

  lemma SelectedMeant(cs: map<Id, Challenge>, purpose: Purpose, user: Option<nat>, email: Email, ring: KeyRing)
    ensures forall id :: id in cs && Selected(cs[id], purpose, user, email, ring)
                         <==> MeantFor(cs, id, purpose, user, email, ring)
  {
  }

  lemma HitsAreLast(cs: map<Id, Challenge>, ts: map<Id, Ticket>, hits: set<Id>, id: Id,
                    purpose: Purpose, user: Option<nat>, email: Email, ring: KeyRing)
    requires ChallengesMatch(cs, ts)
    requires forall o :: o in hits <==> o in cs && Selected(cs[o], purpose, user, email, ring)
    requires IsFirst(hits, RecencyRank(cs), id)
    ensures LastActivated(cs, id, purpose, user, email, ring)
  {
    var rank := RecencyRank(cs);
    assert forall o :: o in hits ==> cs[o] == ChallengeRow(ts[o]) && cs[o].activatedAt.Some?;
    forall o | MeantFor(cs, o, purpose, user, email, ring) && o != id
      ensures cs[o].activatedAt.Some?
              && (cs[o].activatedAt.value < cs[id].activatedAt.value
                  || (cs[o].activatedAt == cs[id].activatedAt && id < o))
    {
      assert o in hits && Before(rank(id), id, rank(o), o);
    }
  }

  lemma DeliveredExplicit(os: map<Id, Outbox>, o: Id, now: Time)
    requires o in os
    ensures DeliveredBox(os, os[o := DeliveredRow(os[o], now)], o, now)
  {
  }

  lemma ResetExplicit(cs: map<Id, Challenge>, id: Id, unfinished: set<Id>, now: Time)
    requires id in cs && forall o :: o in unfinished <==> o in cs && Unfinished(cs, id, o)
    ensures ResetRows(cs, WithdrawChallenges(cs, unfinished, now)[id := ConsumedRow(cs[id], now)], id, now)
  {
  }

  lemma ResetBoxesExplicit(cs: map<Id, Challenge>, os: map<Id, Outbox>, ts: map<Id, Ticket>, id: Id,
                           unfinished: set<Id>, open: set<Id>, now: Time)
    requires ChallengesMatch(cs, ts) && OutboxesMatch(os, ts) && id in cs
    requires forall o :: o in unfinished <==> o in cs && Unfinished(cs, id, o)
    requires forall b :: b in open <==> b in os && os[b].challengeId in unfinished && OpenBox(os[b])
    ensures ResetBoxes(cs, os, CancelOutboxes(os, open, now), id, now)
  {
    forall b | b in os ensures os[b].challengeId in cs {
      assert BoxOwned(os, ts, b);
    }
  }

  // ---- the messages handed to the provider ----

  /** A claim, by its challenge and the number of the attempt. */
  type Message = (Id, nat)

  function KeyOf(claim: ClaimedDelivery): Message {
    (claim.challengeId, claim.attemptCount)
  }

  ghost predicate Counted(ts: map<Id, Ticket>, m: Message) {
    m.0 in ts && 1 <= m.1 <= ts[m.0].delivery.attempts
  }

  /** Every message belongs to a claim of its own; claims in hand are not sent yet. */
  ghost predicate LogOk(ts: map<Id, Ticket>, log: seq<Message>, inHand: set<Message>) {
    && (forall i, j :: 0 <= i < j < |log| ==> log[i] != log[j])
    && (forall i :: 0 <= i < |log| ==> Counted(ts, log[i]) && log[i] !in inHand)
    && (forall m :: m in inHand ==> Counted(ts, m))
  }

  function SendsFor(log: seq<Message>, id: Id): nat {
    if log == [] then 0 else (if log[0].0 == id then 1 else 0) + SendsFor(log[1..], id)
  }

  /** The attempts of a challenge that were sent. */
  function AttemptsSent(log: seq<Message>, id: Id): set<nat> {
    set i | 0 <= i < |log| && log[i].0 == id :: log[i].1
  }

  lemma {:induction false} DistinctAttempts(log: seq<Message>, id: Id)
    requires forall i, j :: 0 <= i < j < |log| ==> log[i] != log[j]
    ensures |AttemptsSent(log, id)| == SendsFor(log, id)
    decreases |log|
  {
    if log == [] {
      assert AttemptsSent(log, id) == {};
    } else {
      DistinctAttempts(log[1..], id);
      var rest := AttemptsSent(log[1..], id);
      assert forall i :: 1 <= i < |log| ==> log[1..][i - 1] == log[i];
      if log[0].0 == id {
        assert AttemptsSent(log, id) == rest + {log[0].1};
        assert forall i :: 0 <= i < |log[1..]| && log[1..][i].0 == id ==> log[1..][i].1 != log[0].1;
      } else {
        assert AttemptsSent(log, id) == rest;
      }
    }
  }

  lemma {:induction false} AtMost(s: set<nat>, n: nat)
    requires forall x :: x in s ==> 1 <= x <= n
    ensures |s| <= n
    decreases n
  {
    if n == 0 {
      assert forall x :: x !in s;
    } else {
      AtMost(s - {n}, n - 1);
    }
  }

  /** However its workers crash, stall and overtake each other: for one challenge no more messages
      are ever handed to the provider than its outbox was claimed, hence at most five. */
  lemma SendsBounded(ts: map<Id, Ticket>, log: seq<Message>, inHand: set<Message>, id: Id)
    requires AllOk(ts) && LogOk(ts, log, inHand) && id in ts
    ensures SendsFor(log, id) <= ts[id].delivery.attempts <= MAX_ATTEMPTS
  {
    assert TicketOk(ts[id]);
    DistinctAttempts(log, id);
    AtMost(AttemptsSent(log, id), ts[id].delivery.attempts);
  }

  class Desk {
    var challenges: map<Id, Challenge>
    var outboxes: map<Id, Outbox>
    ghost var tickets: map<Id, Ticket>
    ghost var inHand: set<Message>   // claims whose message was not handed to the provider yet
    ghost var log: seq<Message>      // the messages handed to the provider
    const auth: RefreshService.AuthService

    ghost predicate Valid()
      reads this
    {
      && ChallengesMatch(challenges, tickets) && OutboxesMatch(outboxes, tickets)
      && AllOk(tickets) && UniqueDigests(tickets) && LogOk(tickets, log, inHand)
    }

    constructor (auth: RefreshService.AuthService)
      ensures Valid() && this.auth == auth && tickets == map[] && log == []
    {
      this.auth := auth;
      challenges, outboxes, tickets, log, inHand := map[], map[], map[], [], {};
    }

    ghost predicate Genuine(claim: ClaimedDelivery)
      reads this
    {
      GenuineIn(tickets, claim)
    }

    method SaveChallenge(id: Id, row: Challenge)
      requires id in challenges && ChallengeGuard(challenges[id], row) && ChallengeShape(row)
      requires DestinationFree(challenges, id, row)
      modifies this`challenges
      ensures challenges == old(challenges)[id := row]
    {
      challenges := challenges[id := row];
    }

    method SaveOutbox(o: Id, row: Outbox)
      requires o in outboxes && OutboxGuard(outboxes[o], row) && OutboxShape(row)
      modifies this`outboxes
      ensures outboxes == old(outboxes)[o := row]
    {
      outboxes := outboxes[o := row];
    }

    /** A new challenge with its outbox, due at once. */
    method RequestVerification(purpose: Purpose, user: Option<nat>, email: Email, keyId: nat, code: Code, id: Id, o: Id,
                               now: Time, createdAt: Time)
      requires Valid() && id !in challenges && o !in outboxes
      requires purpose.Registration? <==> user.None?
      modifies this`challenges, this`outboxes, this`tickets
      ensures Valid()
      ensures var t := Ticket(purpose, ContactDigest(keyId, email), user, code, o, createdAt, 0,
                             Delivery(0, now, Waiting), Undelivered);
              T.Enabled(old(tickets), Issue(id, t)) && tickets == T.Step(old(tickets), Issue(id, t))
      // the same, read off the rows
      ensures challenges == old(challenges)[id := Challenge(purpose, ContactDigest(keyId, email), user, code,
                                                            ChallengePending, 0, None, None, None, None, None)]
      ensures outboxes == old(outboxes)[o := Outbox(id, createdAt, Some(Payload(email, purpose, code)), OutboxPending,
                                                    0, None, None, now, None, None)]
    {
      hide ChallengesMatch, OutboxesMatch, AllOk, UniqueDigests, LogOk;
      ghost var t := Ticket(purpose, ContactDigest(keyId, email), user, code, o, createdAt, 0,
        Delivery(0, now, Waiting), Undelivered);
      SameKeys(challenges, tickets, id);
      Advance(tickets, Issue(id, t), log, inHand);
      OneChanged(challenges, outboxes, tickets, id, t);
      challenges := challenges[id :=
        Challenge(purpose, ContactDigest(keyId, email), user, code, ChallengePending, 0, None, None, None, None, None)];
      outboxes := outboxes[o :=
        Outbox(id, createdAt, Some(Payload(email, purpose, code)), OutboxPending, 0, None, None, now, None, None)];
      tickets := tickets[id := t];
    }

    /** Leases the next due outbox to a worker. */
    method ClaimDelivery(worker: Worker, now: Time, locked: set<Id>) returns (claim: Option<ClaimedDelivery>)
      requires Valid()
      modifies this`outboxes, this`tickets, this`inHand
      ensures Valid() && challenges == old(challenges)
      ensures claim.None? <==> Due(old(outboxes), now, locked) == {}
      ensures claim.None? ==> tickets == old(tickets) && inHand == old(inHand)
      ensures claim.Some? ==>
        && IsFirst(Due(old(outboxes), now, locked), RetryRank(old(outboxes)), claim.value.outboxId)
        && Genuine(claim.value) && claim.value.worker == worker
        && inHand == old(inHand) + {KeyOf(claim.value)}
        && var id := claim.value.challengeId;
        && T.Enabled(old(tickets), Claimed(id, worker, now))
           && tickets == T.Step(old(tickets), Claimed(id, worker, now))
        && claim.value.attemptCount == tickets[id].delivery.attempts
      // the same, read off the rows
      ensures claim.None? <==> forall o :: !MayBeLeased(old(outboxes), o, now, locked)
      ensures claim.None? ==> outboxes == old(outboxes)
      ensures claim.Some? ==>
        var o := claim.value.outboxId;
        && FirstToLease(old(outboxes), o, now, locked)
        && var row := old(outboxes)[o];
        && row.payload.Some?
        && claim.value == ClaimedDelivery(o, row.challengeId, worker, row.payload.value, row.attemptCount + 1)
        && outboxes == old(outboxes)[o := row.(state := OutboxLeased, leaseOwner := Some(worker),
                                               leaseExpiresAt := Some(now + 30), attemptCount := row.attemptCount + 1)]
    {
      hide ChallengesMatch, OutboxesMatch, AllOk, UniqueDigests, LogOk, RetryRank, FirstToLease;
      LeasedFirst(outboxes, now, locked);
      var due := Due(outboxes, now, locked);
      if due == {} {
        return None;
      }
      var o := First(due, RetryRank(outboxes));
      BoxRows(challenges, outboxes, tickets, o);
      var row := outboxes[o];
      ghost var e := Claimed(row.challengeId, worker, now);
      Advance(tickets, e, log, inHand);
      OneChanged(challenges, outboxes, tickets, row.challengeId, T.Step(tickets, e)[row.challengeId]);
      var leased := row.(state := OutboxLeased, leaseOwner := Some(worker), leaseExpiresAt := Some(now + LEASE_SECONDS),
                         attemptCount := row.attemptCount + 1);
      SaveOutbox(o, leased);
      TakeInHand(tickets, log, inHand, e);
      tickets := T.Step(tickets, e);
      SameMap(challenges, row.challengeId);
      claim := Some(ClaimedDelivery(o, row.challengeId, worker, row.payload.value, leased.attemptCount));
      inHand := inHand + {KeyOf(claim.value)};
    }

    /** Closes one outbox whose last lease ran out, together with its challenge. */
    method TerminalizeOneExhausted(now: Time, locked: set<Id>) returns (hit: Option<Id>)
      requires Valid()
      modifies this`challenges, this`outboxes, this`tickets
      ensures Valid()
      ensures hit.None? <==> Spent(old(outboxes), now, locked) == {}
      ensures hit.None? ==> tickets == old(tickets) && outboxes == old(outboxes)
      ensures hit.Some? ==>
                && T.Enabled(old(tickets), Exhausting(hit.value, now))
                && IsFirst(Spent(old(outboxes), now, locked), LeaseRank(old(outboxes)),
                   old(tickets)[hit.value].outboxId)
                && tickets == T.Step(old(tickets), Exhausting(hit.value, now))
      // the same, read off the rows
      ensures hit.None? <==> forall o :: !RanOut(old(outboxes), o, now, locked)
      ensures hit.None? ==> challenges == old(challenges)
      ensures hit.Some? ==> exists o ::
        && FirstRanOut(old(outboxes), o, now, locked) && old(outboxes)[o].challengeId == hit.value
        && FailedRows(old(challenges), old(outboxes), challenges, outboxes, o, now)
    {
      hide ChallengesMatch, OutboxesMatch, AllOk, UniqueDigests, LogOk, LeaseRank, FirstRanOut;
      RanOutFirst(outboxes, now, locked);
      var due := Spent(outboxes, now, locked);
      if due == {} {
        return None;
      }
      var o := First(due, LeaseRank(outboxes));
      BoxRows(challenges, outboxes, tickets, o);
      var id := outboxes[o].challengeId;
      ghost var e := Exhausting(id, now);
      Advance(tickets, e, log, inHand);
      OneChanged(challenges, outboxes, tickets, id, T.Step(tickets, e)[id]);
      TerminalizeFailure(id, o, now);
      tickets := T.Step(tickets, e);
      hit := Some(id);
      assert FailedRows(old(challenges), old(outboxes), challenges, outboxes, o, now);
    }

    /** Marks a delivery failed; its challenge fails with it unless something else ended it first. */
    method TerminalizeFailure(id: Id, o: Id, now: Time)
      requires id in challenges && o in outboxes && OpenBox(outboxes[o])
      requires ChallengeShape(challenges[id]) && OutboxShape(outboxes[o])
      modifies this`challenges, this`outboxes
      ensures challenges == if old(challenges)[id].state.ChallengePending?
                            then old(challenges)[id :=
                              old(challenges)[id].(state := ChallengeFailed, terminalAt := Some(now))]
                            else old(challenges)
      ensures outboxes == old(outboxes)[o := DropOutbox(old(outboxes)[o], now)]
    {
      if challenges[id].state.ChallengePending? {
        SaveChallenge(id, challenges[id].(state := ChallengeFailed, terminalAt := Some(now)));
      }
      SaveOutbox(o, DropOutbox(outboxes[o], now));
    }

    method WithdrawRows(ids: set<Id>, now: Time)
      requires forall id :: id in ids ==>
        id in challenges && !TerminalChallenge(challenges[id].state) && ChallengeShape(challenges[id])
      modifies this`challenges
      ensures challenges == WithdrawChallenges(old(challenges), ids, now)
    {
      var todo := ids;
      while todo != {}
        invariant todo <= ids
        invariant challenges == WithdrawChallenges(old(challenges), ids - todo, now)
      {
        var id :| id in todo;
        todo := todo - {id};
        SaveChallenge(id,
          challenges[id].(state := ChallengeSuperseded, supersededAt := Some(now), terminalAt := Some(now)));
      }
      assert ids - todo == ids;
    }

    method CancelRows(os: set<Id>, now: Time)
      requires forall o :: o in os ==> o in outboxes && OpenBox(outboxes[o]) && OutboxShape(outboxes[o])
      modifies this`outboxes
      ensures outboxes == CancelOutboxes(old(outboxes), os, now)
    {
      var todo := os;
      while todo != {}
        invariant todo <= os
        invariant outboxes == CancelOutboxes(old(outboxes), os - todo, now)
      {
        var o :| o in todo;
        todo := todo - {o};
        SaveOutbox(o, DropOutbox(outboxes[o], now));
      }
      assert os - todo == os;
    }

    /** The worker's message was accepted: supersede the rivals its keys reach, activate the
        challenge, close the outbox.  A worker whose lease was taken over changes nothing. */
    method FinishDelivery(claim: ClaimedDelivery, ring: KeyRing, now: Time) returns (outcome: DeliveryOutcome)
      requires Valid() && Genuine(claim)
      modifies this`challenges, this`outboxes, this`tickets
      ensures Valid()
      ensures var e := Finishing(claim.challengeId, claim.worker, ring, now);
              T.Enabled(old(tickets), e) && tickets == T.Step(old(tickets), e)
      ensures outcome == if !HeldBy(old(tickets)[claim.challengeId].delivery, claim.worker) then StaleClaim
                         else if Blocked(old(tickets), claim.challengeId, ring) then RolledBack else Delivered
      // the same, read off the rows
      ensures outcome.StaleClaim? <==> !Leases(old(outboxes), claim.outboxId, claim.worker)
      ensures outcome.RolledBack? <==>
        !outcome.StaleClaim? && InTheWay(old(challenges), claim.challengeId, ring)
      ensures !outcome.Delivered? ==> challenges == old(challenges) && outboxes == old(outboxes)
      ensures outcome.Delivered? ==>
        && ActivatedRows(old(challenges), challenges, claim.challengeId, ring, now)
        && DeliveredBox(old(outboxes), outboxes, claim.outboxId, now)
    {
      hide ChallengesMatch, OutboxesMatch, AllOk, UniqueDigests, LogOk, ChallengeRow, OutboxRow, T.Finish,
        WithdrawChallenges,
        Rival, Blocked, TicketOk, ChallengeGuard, ChallengeShape, OutboxGuard, OutboxShape, ActivatedRow, DeliveredRow,
        ActivatedRows, DeliveredBox, InTheWay;
      var o, id := claim.outboxId, claim.challengeId;
      OwnBox(challenges, outboxes, tickets, id);
      var row := outboxes[o];
      LeaseInRow(id, tickets[id], claim.worker);
      if !row.state.OutboxLeased? || row.leaseOwner != Some(claim.worker) {
        StaleFinish(tickets, id, claim.worker, ring, now);
        return StaleClaim;
      }
      ghost var e := Finishing(id, claim.worker, ring, now);
      var rivals := set r | r in challenges && Rival(challenges, id, ring, r);
      Advance(tickets, e, log, inHand);
      BlockedRows(challenges, tickets, id, ring, rivals, now);
      BlockedInTheWay(challenges, tickets, id, ring);
      ActivatedExplicit(challenges, id, ring, rivals, now);
      DeliveredExplicit(outboxes, o, now);
      RivalRows(challenges, tickets, id, ring, rivals);
      var before := challenges;
      WithdrawRows(rivals, now);
      if exists o :: o in challenges && o != id && challenges[o].state.ChallengeActive?
                     && SameDestination(challenges[o], challenges[id]) {
        challenges := before;
        StaleFinish(tickets, id, claim.worker, ring, now);
        return RolledBack;
      }
      FinishedChallenges(before, tickets, id, claim.worker, ring, rivals, now);
      FinishedOutboxes(outboxes, tickets, id, claim.worker, ring, now);
      FinishedRows(tickets, id, claim.worker, ring, now);
      SaveChallenge(id, ActivatedRow(challenges[id], now));
      SaveOutbox(o, DeliveredRow(row, now));
      tickets := T.Step(tickets, e);
      outcome := Delivered;
    }

    /** Hands a claim's message to the provider, once. */
    method Send(claim: ClaimedDelivery)
      requires Valid() && KeyOf(claim) in inHand
      modifies this`log, this`inHand
      ensures Valid() && log == old(log) + [KeyOf(claim)] && inHand == old(inHand) - {KeyOf(claim)}
    {
      hide ChallengesMatch, OutboxesMatch, AllOk, UniqueDigests;
      log := log + [KeyOf(claim)];
      inHand := inHand - {KeyOf(claim)};
    }

    /** The worker's message was not accepted: retry later, or give up. */
    method RecordFailure(claim: ClaimedDelivery, permanent: bool, now: Time) returns (outcome: DeliveryOutcome)
      requires Valid() && Genuine(claim)
      modifies this`challenges, this`outboxes, this`tickets
      ensures Valid()
      ensures var e := Failing(claim.challengeId, claim.worker, permanent, now);
              T.Enabled(old(tickets), e) && tickets == T.Step(old(tickets), e)
      ensures outcome.StaleClaim? <==> !HeldBy(old(tickets)[claim.challengeId].delivery, claim.worker)
      ensures outcome.DeliveryFailed? <==> !outcome.StaleClaim? && tickets[claim.challengeId].fate.Failed?
      ensures outcome.StaleClaim? || outcome.DeliveryFailed? || outcome.RetryScheduled?
      // the same, read off the rows
      ensures outcome.StaleClaim? <==> !Leases(old(outboxes), claim.outboxId, claim.worker)
      ensures outcome.StaleClaim? ==> challenges == old(challenges) && outboxes == old(outboxes)
      ensures outcome.DeliveryFailed? <==>
        !outcome.StaleClaim? && (permanent || old(outboxes)[claim.outboxId].attemptCount >= 5)
      ensures outcome.DeliveryFailed? ==>
        FailedRows(old(challenges), old(outboxes), challenges, outboxes, claim.outboxId, now)
      ensures outcome.RetryScheduled? ==>
        challenges == old(challenges) && RetriedBox(old(outboxes), outboxes, claim.outboxId, now)
    {
      hide ChallengesMatch, OutboxesMatch, AllOk, UniqueDigests, LogOk;
      Delays();
      var o, id := claim.outboxId, claim.challengeId;
      OwnBox(challenges, outboxes, tickets, id);
      var row := outboxes[o];
      ghost var e := Failing(id, claim.worker, permanent, now);
      Advance(tickets, e, log, inHand);
      OneChanged(challenges, outboxes, tickets, id, T.Step(tickets, e)[id]);
      SameMap(challenges, id);
      SameMap(outboxes, o);
      if !row.state.OutboxLeased? || row.leaseOwner != Some(claim.worker) {
        outcome := StaleClaim;
      } else if permanent || row.attemptCount >= MAX_ATTEMPTS {
        TerminalizeFailure(id, o, now);
        outcome := DeliveryFailed;
      } else {
        SaveOutbox(o, row.(state := OutboxPending, nextAttemptAt := now + Backoff(row.attemptCount),
          leaseOwner := None, leaseExpiresAt := None));
        outcome := RetryScheduled;
      }
      tickets := T.Step(tickets, e);
    }

    /** One round of a delivery worker: close an exhausted lease, or else claim, send and report. */
    method DeliverOne(worker: Worker, permit: bool, ring: KeyRing, attempt: Attempt, now: Time, later: Time,
                      locked: set<Id>)
      returns (outcome: DeliveryOutcome, ghost es: seq<T.Event>)
      requires Valid()
      modifies this`challenges, this`outboxes, this`tickets, this`inHand, this`log
      ensures Valid()
      ensures T.ValidRun(old(tickets), es) && tickets == T.Run(old(tickets), es)
      ensures !permit ==> outcome.NoWork? && es == []
      ensures permit && Spent(old(outboxes), now, locked) != {} ==>
        outcome.DeliveryFailed? && |es| == 1 && es[0].Exhausting? && log == old(log)
      ensures permit && Spent(old(outboxes), now, locked) == {} && Due(old(outboxes), now, locked) == {} ==>
        outcome.NoWork? && es == []
      ensures permit && Spent(old(outboxes), now, locked) == {} && Due(old(outboxes), now, locked) != {} ==>
        && es != [] && es[0].Claimed? && es[0].worker == worker && es[0].now == now && es[0].id in old(tickets)
        && var id := es[0].id;
        && IsFirst(Due(old(outboxes), now, locked), RetryRank(old(outboxes)), old(tickets)[id].outboxId)
        && log == old(log) + [(id, old(tickets)[id].delivery.attempts + 1)]
        && es[1..] == Report(id, worker, ring, attempt, later)
        && (attempt.Lost? <==> outcome.Crashed?)
        && (attempt.Accepted? ==> outcome == if Blocked(old(tickets), id, ring) then RolledBack else Delivered)
        && (attempt.Refused? ==> outcome == DeliveryFailed)
        && (attempt.Deferred? ==>
           outcome == if old(tickets)[id].delivery.attempts + 1 < MAX_ATTEMPTS then RetryScheduled else DeliveryFailed)
      ensures outcome.NoWork? ==> tickets == old(tickets) && log == old(log)
    {
      hide ChallengesMatch, OutboxesMatch, AllOk, UniqueDigests, LogOk, Due, Spent, T.Step, T.ValidRun, T.Run, Blocked,
        IsFirst, RetryRank, LeaseRank, RanOut, FirstRanOut, FirstToLease, MayBeLeased, FailedRows, InTheWay,
        ActivatedRows, DeliveredBox, RetriedBox;
      es := [];
      NoEvents(tickets);
      if !permit {
        return NoWork, es;
      }
      var hit := TerminalizeOneExhausted(now, locked);
      if hit.Some? {
        es := [Exhausting(hit.value, now)];
        OneEvent(old(tickets), es[0]);
        return DeliveryFailed, es;
      }
      var claim := ClaimDelivery(worker, now, locked);
      if claim.None? {
        return NoWork, es;
      }
      ghost var e := Claimed(claim.value.challengeId, worker, now);
      es := [e];
      OneEvent(old(tickets), e);
      JustClaimed(old(tickets), e, ring);
      Send(claim.value);
      if attempt.Lost? {
        return Crashed, es;
      }
      ghost var report := Report(e.id, worker, ring, attempt, later);
      JustFailed(tickets, e.id, worker, attempt.Refused?, later);
      ClaimThenReport(old(tickets), e, report[0]);
      es := es + report;
      if attempt.Accepted? {
        outcome := FinishDelivery(claim.value, ring, later);
      } else {
        outcome := RecordFailure(claim.value, attempt.Refused?, later);
      }
      assert es == [e, report[0]] && es[1..] == report;
    }

    /** The live challenge a submitted code is checked against: the latest activated match. */
    method FindActive(purpose: Purpose, user: Option<nat>, email: Email, ring: KeyRing) returns (found: Option<Id>)
      requires Valid()
      ensures found.None? ==> forall id :: id in tickets ==> !Presented(tickets[id], purpose, user, email, ring)
      ensures found.Some? ==>
                && found.value in tickets && Presented(tickets[found.value], purpose, user, email, ring)
                && Latest(tickets, found.value, purpose, user, email, ring)
      // the same, read off the rows
      ensures found.None? ==> forall id :: !MeantFor(challenges, id, purpose, user, email, ring)
      ensures found.Some? ==> LastActivated(challenges, found.value, purpose, user, email, ring)
    {
      hide ChallengesMatch, OutboxesMatch, AllOk, UniqueDigests, LogOk, Selected, Presented, Latest, LastActivated,
        MeantFor;
      var hits := set id | id in challenges && Selected(challenges[id], purpose, user, email, ring);
      SelectedPresented(challenges, tickets, purpose, user, email, ring);
      SelectedMeant(challenges, purpose, user, email, ring);
      if hits == {} {
        assert forall id :: id in challenges && Selected(challenges[id], purpose, user, email, ring) ==> id in hits;
        return None;
      }
      var id := First(hits, RecencyRank(challenges));
      HitsAreLatest(challenges, tickets, hits, id, purpose, user, email, ring);
      HitsAreLast(challenges, tickets, hits, id, purpose, user, email, ring);
      found := Some(id);
    }

    /** Checks a submitted code against its challenge; unless it is accepted, the check itself is
        what happens to the ticket. */
    method CheckCode(id: Id, code: Code, now: Time) returns (accepted: bool)
      requires Valid() && id in tickets && tickets[id].fate.Live?
      modifies this`challenges, this`tickets
      ensures Valid()
      ensures accepted <==> code == old(tickets)[id].code && now < old(tickets)[id].fate.since + CHALLENGE_TTL
      ensures accepted ==> tickets == old(tickets) && challenges == old(challenges)
      ensures !accepted ==> var e := Guessing(id, code == old(tickets)[id].code, now);
                T.Enabled(old(tickets), e) && tickets == T.Step(old(tickets), e)
      // the same, read off the rows
      ensures id in old(challenges) && old(challenges)[id].state.ChallengeActive?
      ensures accepted <==> code == old(challenges)[id].code && Usable(old(challenges)[id], now)
      ensures !accepted ==>
        && id in challenges && challenges == old(challenges)[id := challenges[id]]
        && RejectedRow(old(challenges)[id], challenges[id], now)
    {
      hide ChallengesMatch, OutboxesMatch, AllOk, UniqueDigests, LogOk;
      OwnBox(challenges, outboxes, tickets, id);
      var row := challenges[id];
      ghost var e := Guessing(id, code == row.code, now);
      Advance(tickets, e, log, inHand);
      OneChanged(challenges, outboxes, tickets, id, T.Step(tickets, e)[id]);
      SameMap(outboxes, tickets[id].outboxId);
      AloneAtDestination(challenges, tickets, id, row.(attemptCount := row.attemptCount + 1));
      if row.expiresAt.None? || row.expiresAt.value <= now {
        SaveChallenge(id, row.(state := ChallengeExpired, terminalAt := Some(now)));
      } else if row.code != code {
        var guessed := row.(attemptCount := row.attemptCount + 1);
        SaveChallenge(id,
          if guessed.attemptCount >= 5 then guessed.(state := ChallengeLocked, terminalAt := Some(now)) else guessed);
      } else {
        return true;
      }
      tickets := T.Step(tickets, e);
      accepted := false;
    }

    /** The challenge part of a registration: only an accepted code of a registration that can go
        ahead consumes it; a registration that cannot is rolled back. */
    method SubmitRegistration(email: Email, ring: KeyRing, code: Code, registrable: bool, now: Time)
      returns (outcome: CodeOutcome, ghost hit: Option<Id>)
      requires Valid()
      modifies this`challenges, this`tickets
      ensures Valid()
      ensures hit.None? ==>
                && outcome == CodeInvalid && tickets == old(tickets)
                && forall id :: id in tickets ==> !Presented(tickets[id], Registration, None, email, ring)
      ensures hit.Some? ==>
        && hit.value in old(tickets) && Presented(old(tickets)[hit.value], Registration, None, email, ring)
        && Latest(old(tickets), hit.value, Registration, None, email, ring)
        && var t := old(tickets)[hit.value];
        var right := code == t.code;
        && (outcome == CodeInvalid <==> !right || t.fate.since + CHALLENGE_TTL <= now)
        && (outcome != CodeInvalid ==> (outcome == CodeAccepted <==> registrable))
        && (outcome == NotRegistrable ==> tickets == old(tickets))
        && (outcome != NotRegistrable ==>
            && T.Enabled(old(tickets), Guessing(hit.value, right, now))
            && tickets == T.Step(old(tickets), Guessing(hit.value, right, now)))
      ensures outcome != ResetUnavailable
      // the same, read off the rows
      ensures hit.None? <==> forall id :: !MeantFor(old(challenges), id, Registration, None, email, ring)
      ensures hit.None? ==> outcome == CodeInvalid && challenges == old(challenges)
      ensures hit.Some? ==>
        && LastActivated(old(challenges), hit.value, Registration, None, email, ring)
        && var row := old(challenges)[hit.value];
        && (outcome == CodeInvalid <==> code != row.code || !Usable(row, now))
        && (outcome == CodeAccepted <==> code == row.code && Usable(row, now) && registrable)
        && hit.value in challenges && challenges == old(challenges)[hit.value := challenges[hit.value]]
        && (outcome == CodeInvalid ==> RejectedRow(row, challenges[hit.value], now))
        && (outcome == CodeAccepted ==> AcceptedRow(row, challenges[hit.value], now))
        && (outcome == NotRegistrable ==> challenges[hit.value] == row)
    {
      hide ChallengesMatch, OutboxesMatch, AllOk, UniqueDigests, LogOk;
      var found := FindActive(Registration, None, email, ring);
      hit := found;
      if found.None? {
        return CodeInvalid, hit;
      }
      var id := found.value;
      var accepted := CheckCode(id, code, now);
      if !accepted {
        return CodeInvalid, hit;
      }
      if !registrable {
        return NotRegistrable, hit;
      }
      ghost var e := Guessing(id, true, now);
      OwnBox(challenges, outboxes, tickets, id);
      Advance(tickets, e, log, inHand);
      OneChanged(challenges, outboxes, tickets, id, T.Step(tickets, e)[id]);
      SameMap(outboxes, tickets[id].outboxId);
      SaveChallenge(id, ConsumedRow(challenges[id], now));
      tickets := T.Step(tickets, e);
      outcome := CodeAccepted;
    }

    predicate HasUsableAccount(userId: nat)
      reads auth`accounts
    {
      exists a :: a in auth.accounts && auth.accounts[a].userId == userId
                  && (auth.accounts[a].lifecycle.AccountActive? || auth.accounts[a].lifecycle.CoolingOff?)
    }

    /** The writes of an accepted password reset. */
    method CommitReset(userId: nat, id: Id, now: Time)
      requires Valid() && auth.Valid() && T.Enabled(tickets, Resetting(id, now))
      modifies this`challenges, this`outboxes, this`tickets, auth
      ensures Valid() && auth.Valid()
      ensures tickets == T.Step(old(tickets), Resetting(id, now))
      ensures auth.chains
        == RefreshChain.EndThose(old(auth.chains), RefreshChain.ChainsOf(old(auth.chains), userId),
        RefreshChain.PasswordReset)
      // the same, read off the rows
      ensures ResetRows(old(challenges), challenges, id, now)
      ensures ResetBoxes(old(challenges), old(outboxes), outboxes, id, now)
      ensures RefreshService.UserEnds(old(auth.Snapshot()), auth.Snapshot(), userId)
    {
      hide RefreshService.UserEnds, ResetRows, ResetBoxes, ChallengesMatch, OutboxesMatch, AllOk, UniqueDigests,
        LogOk, auth.Valid, Reset, RefreshChain.EndThose,
        RefreshChain.ChainsOf,
        Unfinished, ChallengeRow, OutboxRow, WithdrawChallenges, CancelOutboxes, ChallengeGuard, ChallengeShape,
          OutboxShape,
        TicketOk, ConsumedRow;
      var _ := auth.RevokeUser(userId);
      OwnBox(challenges, outboxes, tickets, id);
      var unfinished := set o | o in challenges && Unfinished(challenges, id, o);
      var open := set b | b in outboxes && outboxes[b].challengeId in unfinished && OpenBox(outboxes[b]);
      ghost var e := Resetting(id, now);
      Advance(tickets, e, log, inHand);
      ResetChallenges(challenges, tickets, id, unfinished, now);
      ResetOutboxes(challenges, outboxes, tickets, id, unfinished, open, now);
      ActiveShapes(challenges, tickets, unfinished);
      UnfinishedOpen(challenges, id, unfinished);
      ResetKeys(tickets, id, now);
      ResetOwn(tickets, id, now);
      ConsumedRows(tickets[id], now);
      KeptRow(challenges, unfinished, id, now);
      BoxShapes(challenges, outboxes, tickets, open);
      ResetExplicit(challenges, id, unfinished, now);
      ResetBoxesExplicit(challenges, outboxes, tickets, id, unfinished, open, now);
      WithdrawRows(unfinished, now);
      CancelRows(open, now);
      SaveChallenge(id, ConsumedRow(challenges[id], now));
      tickets := T.Step(tickets, e);
    }

    /** A password reset with a submitted code: every live session of the user ends and every other
        unfinished reset code of the user is withdrawn, or nothing but the check happened. */
    method ConfirmReset(userId: nat, email: Email, ring: KeyRing, contactUsable: bool, code: Code, passwordOk: bool,
                        now: Time)
      returns (outcome: CodeOutcome, ghost hit: Option<Id>)
      requires Valid() && auth.Valid()
      modifies this`challenges, this`outboxes, this`tickets, auth
      ensures Valid() && auth.Valid()
      ensures outcome != CodeAccepted ==> auth.chains == old(auth.chains) && outboxes == old(outboxes)
      ensures hit.None? ==>
                && outcome == CodeInvalid && tickets == old(tickets)
                && (contactUsable && old(HasUsableAccount(userId)) ==>
                      forall id :: id in tickets ==>
                        !Presented(tickets[id], Purpose.PasswordReset, Some(userId), email, ring))
      ensures hit.Some? ==>
        && contactUsable && old(HasUsableAccount(userId))
        && hit.value in old(tickets)
           && Presented(old(tickets)[hit.value], Purpose.PasswordReset, Some(userId), email, ring)
        && Latest(old(tickets), hit.value, Purpose.PasswordReset, Some(userId), email, ring)
        && var t := old(tickets)[hit.value];
        var right := code == t.code;
        && (outcome == CodeInvalid <==> !right || t.fate.since + CHALLENGE_TTL <= now)
        && (outcome != CodeInvalid ==> (outcome == CodeAccepted <==> passwordOk))
        && (outcome == CodeInvalid ==>
           T.Enabled(old(tickets), Guessing(hit.value, right, now))
           && tickets == T.Step(old(tickets), Guessing(hit.value, right, now)))
        && (outcome == ResetUnavailable ==> tickets == old(tickets))
        && (outcome == CodeAccepted ==>
              && T.Enabled(old(tickets), Resetting(hit.value, now))
                 && tickets == T.Step(old(tickets), Resetting(hit.value, now))
              && auth.chains == RefreshChain.EndThose(old(auth.chains),
                 RefreshChain.ChainsOf(old(auth.chains), userId), RefreshChain.PasswordReset))
      ensures outcome != NotRegistrable
      // the same, read off the rows
      ensures hit.None? ==> outcome == CodeInvalid && challenges == old(challenges)
      ensures hit.None? <==>
        || !contactUsable
        || (forall a :: a in old(auth.accounts) && old(auth.accounts)[a].userId == userId ==>
              !old(auth.accounts)[a].lifecycle.AccountActive? && !old(auth.accounts)[a].lifecycle.CoolingOff?)
        || forall id :: !MeantFor(old(challenges), id, Purpose.PasswordReset, Some(userId), email, ring)
      ensures outcome != CodeAccepted ==> auth.Snapshot() == old(auth.Snapshot()) && auth.audit == old(auth.audit)
      ensures hit.Some? ==>
        && LastActivated(old(challenges), hit.value, Purpose.PasswordReset, Some(userId), email, ring)
        && var row := old(challenges)[hit.value];
        && (outcome == CodeInvalid <==> code != row.code || !Usable(row, now))
        && (outcome == CodeAccepted <==> code == row.code && Usable(row, now) && passwordOk)
        && hit.value in challenges
        && (outcome == CodeInvalid ==>
             && challenges == old(challenges)[hit.value := challenges[hit.value]]
             && RejectedRow(row, challenges[hit.value], now))
        && (outcome == ResetUnavailable ==> challenges == old(challenges))
        && (outcome == CodeAccepted ==>
             && ResetRows(old(challenges), challenges, hit.value, now)
             && ResetBoxes(old(challenges), old(outboxes), outboxes, hit.value, now)
             && RefreshService.UserEnds(old(auth.Snapshot()), auth.Snapshot(), userId))
    {
      hide ChallengesMatch, OutboxesMatch, AllOk, UniqueDigests, LogOk, auth.Valid, RefreshService.UserEnds, ResetBoxes;
      if !contactUsable || !HasUsableAccount(userId) {
        return CodeInvalid, None;
      }
      var found := FindActive(Purpose.PasswordReset, Some(userId), email, ring);
      hit := found;
      if found.None? {
        return CodeInvalid, hit;
      }
      var id := found.value;
      var accepted := CheckCode(id, code, now);
      if !accepted {
        return CodeInvalid, hit;
      }
      if !passwordOk {
        return ResetUnavailable, hit;
      }
      CommitReset(userId, id, now);
      outcome := CodeAccepted;
    }
  }

  lemma NoEvents(ts: map<Id, Ticket>)
    ensures T.ValidRun(ts, []) && T.Run(ts, []) == ts
  {
  }

  lemma OneEvent(ts: map<Id, Ticket>, e: T.Event)
    requires T.Enabled(ts, e)
    ensures T.ValidRun(ts, [e]) && T.Run(ts, [e]) == T.Step(ts, e)
  {
    assert [e][1..] == [];
  }

  lemma ClaimThenReport(ts: map<Id, Ticket>, e: T.Event, f: T.Event)
    requires T.Enabled(ts, e) && T.Enabled(T.Step(ts, e), f)
    ensures T.ValidRun(ts, [e, f]) && T.Run(ts, [e, f]) == T.Step(T.Step(ts, e), f)
  {
    hide T.Step, T.Enabled;
    assert [e, f][1..] == [f];
    OneEvent(T.Step(ts, e), f);
  }

  /** A claim hands the lease over and leaves every challenge as it was. */
  lemma JustClaimed(ts: map<Id, Ticket>, e: T.Event, ring: KeyRing)
    requires T.Enabled(ts, e) && e.Claimed? && AllOk(ts)
    ensures var us := T.Step(ts, e);
            && e.id in us && HeldBy(us[e.id].delivery, e.worker)
            && us[e.id].delivery.attempts == ts[e.id].delivery.attempts + 1 && us[e.id].fate.Undelivered?
            && us[e.id].outboxId == ts[e.id].outboxId
            && (Blocked(us, e.id, ring) <==> Blocked(ts, e.id, ring))
  {
    var us := T.Step(ts, e);
    assert TicketOk(ts[e.id]);
    forall o | o in ts ensures Twin(us, e.id, o) <==> Twin(ts, e.id, o) {
    }
  }

  lemma JustFailed(ts: map<Id, Ticket>, id: Id, worker: Worker, permanent: bool, now: Time)
    requires id in ts && HeldBy(ts[id].delivery, worker) && ts[id].fate.Undelivered?
    ensures T.Step(ts, Failing(id, worker, permanent, now))[id].fate.Failed?
            <==> permanent || ts[id].delivery.attempts >= MAX_ATTEMPTS
  {
  }

  lemma Advance(ts: map<Id, Ticket>, e: T.Event, log: seq<Message>, inHand: set<Message>)
    requires AllOk(ts) && UniqueDigests(ts) && LogOk(ts, log, inHand) && T.Enabled(ts, e)
    ensures AllOk(T.Step(ts, e)) && UniqueDigests(T.Step(ts, e)) && LogOk(T.Step(ts, e), log, inHand)
  {
    hide T.Step, T.Enabled;
    StepOk(ts, e);
    StepUniqueDigests(ts, e);
    forall id | id in ts
      ensures id in T.Step(ts, e) && ts[id].delivery.attempts <= T.Step(ts, e)[id].delivery.attempts
    {
      AttemptsGrow(ts, e, id);
    }
  }

  /** A new claim has an attempt number that was never sent. */
  lemma TakeInHand(ts: map<Id, Ticket>, log: seq<Message>, inHand: set<Message>, e: T.Event)
    requires LogOk(ts, log, inHand) && T.Enabled(ts, e) && e.Claimed?
    ensures LogOk(T.Step(ts, e), log, inHand + {(e.id, ts[e.id].delivery.attempts + 1)})
  {
  }

  lemma AttemptsGrow(ts: map<Id, Ticket>, e: T.Event, id: Id)
    requires T.Enabled(ts, e) && id in ts
    ensures id in T.Step(ts, e) && ts[id].delivery.attempts <= T.Step(ts, e)[id].delivery.attempts
  {
  }

  /** The row of a live challenge stands alone at its destination. */
  lemma AloneAtDestination(challenges: map<Id, Challenge>, ts: map<Id, Ticket>, id: Id, row: Challenge)
    requires ChallengesMatch(challenges, ts) && UniqueDigests(ts) && id in ts && ts[id].fate.Live?
    requires id in challenges && SameDestination(row, challenges[id])
    ensures DestinationFree(challenges, id, row)
  {
    forall o | o in challenges && o != id && challenges[o].state.ChallengeActive?
      ensures !SameDestination(challenges[o], row)
    {
      assert challenges[o] == ChallengeRow(ts[o]) && ts[o].fate.Live?;
      assert Rivals(ts[o], ts[id]) ==> ts[o].digest != ts[id].digest;
    }
  }

  /** With its rivals withdrawn, a finish meets an active row at its own destination exactly when it
      is blocked. */
  lemma BlockedRows(challenges: map<Id, Challenge>, ts: map<Id, Ticket>, id: Id, ring: KeyRing, rivals: set<Id>,
                    now: Time)
    requires ChallengesMatch(challenges, ts) && id in ts && id in challenges
    requires forall o :: o in rivals <==> o in challenges && Rival(challenges, id, ring, o)
    ensures var after := WithdrawChallenges(challenges, rivals, now);
            && id in after && after[id] == challenges[id]
            && (Blocked(ts, id, ring) <==>
                  exists o :: o in after && o != id && after[o].state.ChallengeActive?
                    && SameDestination(after[o], after[id]))
  {
    var after := WithdrawChallenges(challenges, rivals, now);
    forall o | o in challenges
      ensures o != id && after[o].state.ChallengeActive? && SameDestination(after[o], after[id])
              <==> ts[id].digest.keyId !in ring && Twin(ts, id, o)
    {
      assert challenges[o] == ChallengeRow(ts[o]) && challenges[id] == ChallengeRow(ts[id]);
    }
  }

  lemma SameKeys(challenges: map<Id, Challenge>, ts: map<Id, Ticket>, id: Id)
    requires ChallengesMatch(challenges, ts)
    ensures id in ts <==> id in challenges
  {
  }

  lemma SameMap<T>(m: map<Id, T>, id: Id)
    ensures id in m ==> m[id := m[id]] == m
  {
  }

  /** A genuine claim's challenge and outbox are the rows of one ticket. */
  lemma OwnBox(challenges: map<Id, Challenge>, outboxes: map<Id, Outbox>, ts: map<Id, Ticket>, id: Id)
    requires ChallengesMatch(challenges, ts) && OutboxesMatch(outboxes, ts) && AllOk(ts) && id in ts
    ensures TicketOk(ts[id]) && id in challenges && challenges[id] == ChallengeRow(ts[id])
    ensures ts[id].outboxId in outboxes && outboxes[ts[id].outboxId] == OutboxRow(id, ts[id])
  {
  }

  lemma ActiveShapes(challenges: map<Id, Challenge>, ts: map<Id, Ticket>, ids: set<Id>)
    requires ChallengesMatch(challenges, ts) && AllOk(ts) && ids <= challenges.Keys
    ensures forall id :: id in ids ==> ChallengeShape(challenges[id])
  {
    forall id | id in ids ensures ChallengeShape(challenges[id]) {
      assert TicketOk(ts[id]);
    }
  }

  lemma BoxShapes(challenges: map<Id, Challenge>, outboxes: map<Id, Outbox>, ts: map<Id, Ticket>, os: set<Id>)
    requires ChallengesMatch(challenges, ts) && OutboxesMatch(outboxes, ts) && AllOk(ts) && os <= outboxes.Keys
    ensures forall o :: o in os ==> OutboxShape(outboxes[o])
  {
    hide ChallengesMatch, OutboxesMatch, AllOk, UniqueDigests, LogOk;
    forall o | o in os ensures OutboxShape(outboxes[o]) {
      BoxRows(challenges, outboxes, ts, o);
    }
  }

  /** Any other challenge the code could be meant for was activated before, or at the same time under
      a later identifier. */
  ghost predicate Latest(ts: map<Id, Ticket>, id: Id, purpose: Purpose, user: Option<nat>, email: Email, ring: KeyRing)
    requires id in ts && ts[id].fate.Live?
  {
    forall o :: o in ts && o != id && Presented(ts[o], purpose, user, email, ring) ==>
      ts[o].fate.since < ts[id].fate.since || (ts[o].fate.since == ts[id].fate.since && id < o)
  }

  /** While codes are unique the latest challenge is the only one. */
  lemma LatestIsOnly(ts: map<Id, Ticket>, id: Id, o: Id, purpose: Purpose, user: Option<nat>, email: Email,
                     ring: KeyRing)
    requires OneLive(ts) && id in ts && o in ts
    requires Presented(ts[id], purpose, user, email, ring) && Presented(ts[o], purpose, user, email, ring)
    ensures id == o
  {
    assert Rivals(ts[id], ts[o]);
  }

  /** A live challenge that a code submitted for this address can be meant for. */
  predicate Presented(t: Ticket, purpose: Purpose, user: Option<nat>, email: Email, ring: KeyRing) {
    t.fate.Live? && t.purpose == purpose && t.user == user && t.digest.email == email && t.digest.keyId in ring
  }

  predicate Selected(c: Challenge, purpose: Purpose, user: Option<nat>, email: Email, ring: KeyRing) {
    c.state.ChallengeActive? && c.purpose == purpose && c.user == user && c.digest.email == email
      && c.digest.keyId in ring
  }

  lemma HitsAreLatest(challenges: map<Id, Challenge>, ts: map<Id, Ticket>, hits: set<Id>, id: Id,
                      purpose: Purpose, user: Option<nat>, email: Email, ring: KeyRing)
    requires ChallengesMatch(challenges, ts) && id in hits && id in ts && Presented(ts[id], purpose, user, email, ring)
    requires forall o :: o in challenges && Selected(challenges[o], purpose, user, email, ring) ==> o in hits
    requires IsFirst(hits, RecencyRank(challenges), id)
    ensures Latest(ts, id, purpose, user, email, ring)
  {
    SelectedPresented(challenges, ts, purpose, user, email, ring);
    var rank := RecencyRank(challenges);
    forall o | o in ts && o != id && Presented(ts[o], purpose, user, email, ring)
      ensures ts[o].fate.since < ts[id].fate.since || (ts[o].fate.since == ts[id].fate.since && id < o)
    {
      assert Before(rank(id), id, rank(o), o);
    }
  }

  lemma SelectedPresented(challenges: map<Id, Challenge>, ts: map<Id, Ticket>, purpose: Purpose, user: Option<nat>,
                          email: Email, ring: KeyRing)
    requires ChallengesMatch(challenges, ts)
    ensures forall id :: id in ts ==>
      id in challenges
      && (Selected(challenges[id], purpose, user, email, ring) <==> Presented(ts[id], purpose, user, email, ring))
    ensures forall id :: id in challenges ==>
      id in ts && (ts[id].fate.Live? ==> challenges[id].activatedAt == Some(ts[id].fate.since))
  {
  }

  /** The claim names a ticket by its own outbox and carries its own payload. */
  ghost predicate GenuineIn(ts: map<Id, Ticket>, claim: ClaimedDelivery) {
    && claim.challengeId in ts && ts[claim.challengeId].outboxId == claim.outboxId
    && claim.payload == PayloadOf(ts[claim.challengeId])
  }

  /** A claim stays genuine however late its worker reports. */
  lemma {:induction false} ClaimStaysGenuine(ts: map<Id, Ticket>, es: seq<T.Event>, claim: ClaimedDelivery)
    requires T.ValidRun(ts, es) && GenuineIn(ts, claim)
    ensures GenuineIn(T.Run(ts, es), claim)
    decreases |es|
  {
    if es == [] {
    } else {
      IdentityKept(ts, es[0], claim.challengeId);
      ClaimStaysGenuine(T.Step(ts, es[0]), es[1..], claim);
    }
  }

  lemma IdentityKept(ts: map<Id, Ticket>, e: T.Event, id: Id)
    requires T.Enabled(ts, e) && id in ts
    ensures id in T.Step(ts, e)
    ensures T.Step(ts, e)[id].outboxId == ts[id].outboxId && PayloadOf(T.Step(ts, e)[id]) == PayloadOf(ts[id])
  {
  }
}
