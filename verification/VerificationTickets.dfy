/**
 E-mail verification reduced to what it promises: one ticket per challenge, which couples the life
 of the challenge with the delivery of its code.  `VerificationDesk` proves that the challenge and
 outbox rows are always the rows of such tickets.
 */
module VerificationTickets {
  import opened Wrappers
  import opened LeaseMachine

  type Email = string     // the comparison form of an address
  type Code = string
  type KeyRing = set<nat> // identifiers of the contact-lookup keys a process holds

  const CHALLENGE_TTL: nat := 600
  const MAX_GUESSES: nat := 5

  datatype Purpose = Registration | PasswordReset

  /** The keyed digest of an address, injective in both arguments. */
  datatype ContactDigest = ContactDigest(keyId: nat, email: Email)

  datatype Outcome = Consumed | Superseded | Expired | Locked

  /** `Undelivered`: no code was ever delivered.  `Live`: the code can be used.  `Closed`: it can
      not be used any more. */
  datatype Fate =
    | Undelivered
    | Failed(at: Time)
    | Cancelled(at: Time)
    | Live(since: Time)
    | Closed(since: Time, at: Time, outcome: Outcome)

  datatype Ticket = Ticket(
    purpose: Purpose, digest: ContactDigest, user: Option<nat>, code: Code,
    outboxId: Id, createdAt: Time, guesses: nat, delivery: Delivery, fate: Fate)

  /** The challenge is pending exactly while its outbox is open, and so on for every other state. */
  predicate Coupled(t: Ticket) {
    match t.fate
    case Undelivered => Open(t.delivery)
    case Failed(at) => t.delivery.stage == Dropped(at)
    case Cancelled(at) => t.delivery.stage == Dropped(at)
    case Live(since) => t.delivery.stage == Sent(since)
    case Closed(since, _, _) => t.delivery.stage == Sent(since)
  }

  predicate TicketOk(t: Ticket) {
    && Coupled(t) && LeaseMachine.Valid(t.delivery)
    && (t.purpose.Registration? <==> t.user.None?)
    && t.guesses <= MAX_GUESSES && (t.fate.Live? ==> t.guesses < MAX_GUESSES)
    && (!t.fate.Live? && !t.fate.Closed? ==> t.guesses == 0)
  }

  // ---- what the transactions do to tickets ----

  datatype Event =
    | Issue(id: Id, ticket: Ticket)
    | Claimed(id: Id, worker: Worker, now: Time)
    | Exhausting(id: Id, now: Time)
    | Failing(id: Id, worker: Worker, permanent: bool, now: Time)
    | Finishing(id: Id, worker: Worker, ring: KeyRing, now: Time)
    | Guessing(id: Id, right: bool, now: Time)      // right: code and surrounding checks accepted
    | Resetting(id: Id, now: Time)                  // an accepted password reset with this challenge

  /** Both live, for the same purpose and address. */
  predicate Rivals(a: Ticket, b: Ticket) {
    a.fate.Live? && b.fate.Live? && a.purpose == b.purpose && a.digest.email == b.digest.email
  }

  /** Another live challenge that the finishing worker's digests reach. */
  predicate Supersedes(ts: map<Id, Ticket>, id: Id, ring: KeyRing, o: Id)
    requires id in ts && o in ts
  {
    o != id && ts[o].fate.Live? && ts[o].purpose == ts[id].purpose
    && ts[o].digest.email == ts[id].digest.email && ts[o].digest.keyId in ring
  }

  function Close(t: Ticket, outcome: Outcome, now: Time): Ticket {
    if t.fate.Live? then t.(fate := Closed(t.fate.since, now, outcome)) else t
  }

  function Finish(ts: map<Id, Ticket>, id: Id, worker: Worker, ring: KeyRing, now: Time): map<Id, Ticket>
    requires id in ts
  {
    if HeldBy(ts[id].delivery, worker) && !Blocked(ts, id, ring) then Activate(ts, id, worker, ring, now) else ts
  }

  /** Another live challenge with the very same digest, which the unique constraint on active
      destinations does not let stand beside this one. */
  predicate Twin(ts: map<Id, Ticket>, id: Id, o: Id)
    requires id in ts && o in ts
  {
    o != id && ts[o].fate.Live? && ts[o].purpose == ts[id].purpose && ts[o].digest == ts[id].digest
  }

  /** A finish that cannot supersede its twin is rolled back by that constraint. */
  predicate Blocked(ts: map<Id, Ticket>, id: Id, ring: KeyRing)
    requires id in ts
  {
    ts[id].digest.keyId !in ring && exists o :: o in ts && Twin(ts, id, o)
  }

  function Activate(ts: map<Id, Ticket>, id: Id, worker: Worker, ring: KeyRing, now: Time): map<Id, Ticket>
    requires id in ts
  {
    map o | o in ts ::
      if o == id then ts[o].(fate := Live(now),
        delivery := LeaseMachine.Step(ts[o].delivery, LeaseMachine.Finish(worker, now)))
      else if Supersedes(ts, id, ring, o) then Close(ts[o], Superseded, now)
      else ts[o]
  }

  function Fail(t: Ticket, worker: Worker, permanent: bool, now: Time): Ticket {
    var d := LeaseMachine.Step(t.delivery, LeaseMachine.Fail(worker, permanent, now));
    t.(delivery := d, fate := if d != t.delivery && d.stage.Dropped? then Failed(now) else t.fate)
  }

  /** A submitted code: an expired challenge closes, a wrong code counts, the fifth one locks. */
  function Guess(t: Ticket, right: bool, now: Time): Ticket {
    if !t.fate.Live? then t
    else if t.fate.since + CHALLENGE_TTL <= now then Close(t, Expired, now)
    else if right then Close(t, Consumed, now)
    else if t.guesses + 1 >= MAX_GUESSES then Close(t.(guesses := t.guesses + 1), Locked, now)
    else t.(guesses := t.guesses + 1)
  }

  function Cancel(t: Ticket, now: Time): Ticket {
    match t.fate
    case Undelivered => t.(fate := Cancelled(now), delivery := LeaseMachine.Step(t.delivery, LeaseMachine.Cancel(now)))
    case Live(_) => Close(t, Superseded, now)
    case _ => t
  }

  /** A committed reset consumes its challenge and withdraws every other unfinished one of the user. */
  function Reset(ts: map<Id, Ticket>, id: Id, now: Time): map<Id, Ticket>
    requires id in ts
  {
    map o | o in ts ::
      if o == id then Close(ts[o], Consumed, now)
      else if ts[o].purpose.PasswordReset? && ts[o].user == ts[id].user then Cancel(ts[o], now)
      else ts[o]
  }

  ghost predicate Enabled(ts: map<Id, Ticket>, e: Event) {
    match e
    case Issue(id, t) =>
      id !in ts && TicketOk(t) && t.fate.Undelivered? && t.delivery.stage.Waiting? && t.delivery.attempts == 0
    case Claimed(id, _, now) => id in ts && Claimable(ts[id].delivery, now)
    case Exhausting(id, now) => id in ts && Exhausted(ts[id].delivery, now)
    case Failing(id, _, _, _) => id in ts
    case Finishing(id, _, _, _) => id in ts
    case Guessing(id, _, _) => id in ts
    case Resetting(id, now) =>
      id in ts && ts[id].fate.Live? && ts[id].purpose.PasswordReset? && now < ts[id].fate.since + CHALLENGE_TTL
  }

  ghost function Step(ts: map<Id, Ticket>, e: Event): map<Id, Ticket>
    requires Enabled(ts, e)
  {
    match e
    case Issue(id, t) => ts[id := t]
    case Claimed(id, w, now) =>
      ts[id := ts[id].(delivery := LeaseMachine.Step(ts[id].delivery, LeaseMachine.Claim(w, now)))]
    case Exhausting(id, now) =>
      ts[id := ts[id].(fate := Failed(now), delivery := LeaseMachine.Step(ts[id].delivery, LeaseMachine.Exhaust(now)))]
    case Failing(id, w, permanent, now) => ts[id := Fail(ts[id], w, permanent, now)]
    case Finishing(id, w, ring, now) => Finish(ts, id, w, ring, now)
    case Guessing(id, right, now) => ts[id := Guess(ts[id], right, now)]
    case Resetting(id, now) => Reset(ts, id, now)
  }

  // ---- invariants ----

  ghost predicate AllOk(ts: map<Id, Ticket>) {
    forall id :: id in ts ==> TicketOk(ts[id])
  }

  /** At most one usable code per purpose and address, whichever lookup key digested it. */
  ghost predicate OneLive(ts: map<Id, Ticket>) {
    forall a, b :: a in ts && b in ts && Rivals(ts[a], ts[b]) ==> a == b
  }

  /** The ring holds the keys of the live challenges it may have to supersede. */
  ghost predicate RingCovers(ts: map<Id, Ticket>, id: Id, ring: KeyRing)
    requires id in ts
  {
    forall o :: o in ts && o != id && Rivals(ts[o], ts[id].(fate := Live(0))) ==> ts[o].digest.keyId in ring
  }

  lemma StepOk(ts: map<Id, Ticket>, e: Event)
    requires AllOk(ts) && Enabled(ts, e)
    ensures AllOk(Step(ts, e))
  {
  }

  /** The ring holds the keys of those live challenges whose digest differs from this one's. */
  ghost predicate OthersCovered(ts: map<Id, Ticket>, id: Id, ring: KeyRing)
    requires id in ts
  {
    forall o :: o in ts && o != id && Rivals(ts[o], ts[id].(fate := Live(0))) && ts[o].digest != ts[id].digest ==>
      ts[o].digest.keyId in ring
  }

  /** A finish keeps codes unique per address exactly when its ring reaches every live rival with a
      different digest; one with the same digest is superseded or rolls the finish back. */
  lemma FinishUnique(ts: map<Id, Ticket>, id: Id, worker: Worker, ring: KeyRing, now: Time)
    requires AllOk(ts) && OneLive(ts) && id in ts && HeldBy(ts[id].delivery, worker)
    ensures OneLive(Finish(ts, id, worker, ring, now)) <==> OthersCovered(ts, id, ring)
  {
    var us := Finish(ts, id, worker, ring, now);
    if Blocked(ts, id, ring) {
      var twin :| twin in ts && Twin(ts, id, twin);
      forall o | o in ts && o != id && Rivals(ts[o], ts[id].(fate := Live(0))) ensures ts[o].digest == ts[id].digest {
        assert Rivals(ts[o], ts[twin]);
      }
    } else if !OthersCovered(ts, id, ring) {
      var o :| o in ts && o != id && Rivals(ts[o], ts[id].(fate := Live(0))) && ts[o].digest.keyId !in ring;
      assert us[o] == ts[o] && us[id].fate.Live?;
    } else {
      forall a, b | a in us && b in us && Rivals(us[a], us[b]) ensures a == b {
        if a != id { StillLive(ts, id, worker, ring, now, a); }
        if b != id { StillLive(ts, id, worker, ring, now, b); }
      }
    }
  }

  /** After an activation nothing live is a rival of the activated challenge. */
  lemma StillLive(ts: map<Id, Ticket>, id: Id, worker: Worker, ring: KeyRing, now: Time, o: Id)
    requires id in ts && o in ts && o != id && !Blocked(ts, id, ring) && OthersCovered(ts, id, ring)
    ensures var after := Activate(ts, id, worker, ring, now)[o];
            after.fate.Live? ==> after == ts[o] && !Rivals(ts[o], ts[id].(fate := Live(0)))
  {
    assert Twin(ts, id, o) && ts[id].digest.keyId !in ring ==> Blocked(ts, id, ring);
  }

  /** At most one active challenge per purpose and digest, as the database demands. */
  ghost predicate UniqueDigests(ts: map<Id, Ticket>) {
    forall a, b :: a in ts && b in ts && Rivals(ts[a], ts[b]) && ts[a].digest == ts[b].digest ==> a == b
  }

  /** A finish under a ring that holds the keys of all live rivals is never rolled back. */
  lemma CoveredIsNotBlocked(ts: map<Id, Ticket>, id: Id, ring: KeyRing)
    requires id in ts && RingCovers(ts, id, ring)
    ensures !Blocked(ts, id, ring) && OthersCovered(ts, id, ring)
  {
  }

  ghost predicate Covered(ts: map<Id, Ticket>, e: Event) {
    e.Finishing? && e.id in ts && HeldBy(ts[e.id].delivery, e.worker) ==> OthersCovered(ts, e.id, e.ring)
  }

  /** Steps other than a finished delivery make no ticket live. */
  lemma OnlyFinishActivates(ts: map<Id, Ticket>, e: Event, o: Id)
    requires Enabled(ts, e) && o in Step(ts, e) && Step(ts, e)[o].fate.Live?
    ensures (o in ts && ts[o].fate == Step(ts, e)[o].fate)
      || (e.Finishing? && e.id == o && HeldBy(ts[o].delivery, e.worker))
    ensures o in ts && Step(ts, e)[o].purpose == ts[o].purpose && Step(ts, e)[o].digest == ts[o].digest
  {
  }

  /** The constraint on active destinations holds after every step, whatever the rings hold. */
  lemma StepUniqueDigests(ts: map<Id, Ticket>, e: Event)
    requires AllOk(ts) && UniqueDigests(ts) && Enabled(ts, e)
    ensures UniqueDigests(Step(ts, e))
  {
    var us := Step(ts, e);
    forall a, b | a in us && b in us && Rivals(us[a], us[b]) && us[a].digest == us[b].digest ensures a == b {
      OnlyFinishActivates(ts, e, a);
      OnlyFinishActivates(ts, e, b);
      if e.Finishing? && a != b && (a == e.id || b == e.id) {
        var o := if a == e.id then b else a;
        assert us[o].fate.Live? && ts[o].fate.Live? && Twin(ts, e.id, o);
      }
    }
  }

  lemma StepUnique(ts: map<Id, Ticket>, e: Event)
    requires AllOk(ts) && OneLive(ts) && Enabled(ts, e) && Covered(ts, e)
    ensures OneLive(Step(ts, e))
  {
    if e.Finishing? && HeldBy(ts[e.id].delivery, e.worker) {
      FinishUnique(ts, e.id, e.worker, e.ring, e.now);
    } else {
      forall a, b | a in Step(ts, e) && b in Step(ts, e) && Rivals(Step(ts, e)[a], Step(ts, e)[b]) ensures a == b {
        OnlyFinishActivates(ts, e, a);
        OnlyFinishActivates(ts, e, b);
      }
    }
  }

  // ---- whole runs ----

  ghost predicate ValidRun(ts: map<Id, Ticket>, es: seq<Event>)
    decreases |es|
  {
    es == [] || (Enabled(ts, es[0]) && ValidRun(Step(ts, es[0]), es[1..]))
  }

  /** The workers of the run reach every live rival with a different digest. */
  ghost predicate AllCovered(ts: map<Id, Ticket>, es: seq<Event>)
    requires ValidRun(ts, es)
    decreases |es|
  {
    es == [] || (Covered(ts, es[0]) && AllCovered(Step(ts, es[0]), es[1..]))
  }

  ghost function Run(ts: map<Id, Ticket>, es: seq<Event>): map<Id, Ticket>
    requires ValidRun(ts, es)
    decreases |es|
  {
    if es == [] then ts else Run(Step(ts, es[0]), es[1..])
  }

  /** In every reachable state challenge and outbox are coupled and, across rotations of the lookup
      key, at most one code per purpose and address can be used. */
  lemma {:induction false} RunKeeps(ts: map<Id, Ticket>, es: seq<Event>)
    requires AllOk(ts) && ValidRun(ts, es)
    ensures AllOk(Run(ts, es))
    ensures UniqueDigests(ts) ==> UniqueDigests(Run(ts, es))
    ensures OneLive(ts) && AllCovered(ts, es) ==> OneLive(Run(ts, es))
    decreases |es|
  {
    if es == [] {
    } else {
      StepOk(ts, es[0]);
      if UniqueDigests(ts) { StepUniqueDigests(ts, es[0]); }
      if OneLive(ts) && AllCovered(ts, es) { StepUnique(ts, es[0]); }
      RunKeeps(Step(ts, es[0]), es[1..]);
    }
  }

  /** Some finish of the run is rolled back. */
  ghost predicate Aborts(ts: map<Id, Ticket>, es: seq<Event>)
    requires ValidRun(ts, es)
    decreases |es|
  {
    es != [] && (RolledBack(ts, es[0]) || Aborts(Step(ts, es[0]), es[1..]))
  }

  ghost predicate RolledBack(ts: map<Id, Ticket>, e: Event) {
    e.Finishing? && e.id in ts && HeldBy(ts[e.id].delivery, e.worker) && Blocked(ts, e.id, e.ring)
  }

  ghost predicate AllRingsCover(ts: map<Id, Ticket>, es: seq<Event>)
    requires ValidRun(ts, es)
    decreases |es|
  {
    es == [] || (
      && (es[0].Finishing? && HeldBy(ts[es[0].id].delivery, es[0].worker) ==> RingCovers(ts, es[0].id, es[0].ring))
      && AllRingsCover(Step(ts, es[0]), es[1..]))
  }

  /** While rings hold the keys of the live challenges no finish is ever rolled back, and codes stay
      unique. */
  lemma {:induction false} CoveredRunsNeverAbort(ts: map<Id, Ticket>, es: seq<Event>)
    requires AllOk(ts) && ValidRun(ts, es) && AllRingsCover(ts, es)
    ensures !Aborts(ts, es) && AllCovered(ts, es)
    decreases |es|
  {
    if es == [] {
    } else {
      if es[0].Finishing? && HeldBy(ts[es[0].id].delivery, es[0].worker) {
        CoveredIsNotBlocked(ts, es[0].id, es[0].ring);
      }
      StepOk(ts, es[0]);
      CoveredRunsNeverAbort(Step(ts, es[0]), es[1..]);
    }
  }

  predicate Terminal(t: Ticket) {
    t.fate.Failed? || t.fate.Cancelled? || t.fate.Closed?
  }

  lemma StepTerminal(ts: map<Id, Ticket>, e: Event, id: Id)
    requires AllOk(ts) && Enabled(ts, e) && id in ts && Terminal(ts[id])
    ensures id in Step(ts, e) && Step(ts, e)[id] == ts[id]
  {
  }

  /** A terminal ticket never changes again, whatever its worker still reports. */
  lemma {:induction false} TerminalForever(ts: map<Id, Ticket>, es: seq<Event>, id: Id)
    requires AllOk(ts) && ValidRun(ts, es) && id in ts && Terminal(ts[id])
    ensures id in Run(ts, es) && Run(ts, es)[id] == ts[id]
    decreases |es|
  {
    if es == [] {
    } else {
      StepOk(ts, es[0]);
      StepTerminal(ts, es[0], id);
      TerminalForever(Step(ts, es[0]), es[1..], id);
    }
  }

  /** A committed password reset is final for the user's codes: every reset code that was pending
      or usable at that moment is withdrawn, and no continuation makes it usable, even when a
      worker that leased its delivery finishes later. */
  lemma ResetIsFinal(ts: map<Id, Ticket>, id: Id, now: Time, es: seq<Event>, o: Id)
    requires AllOk(ts) && Enabled(ts, Resetting(id, now)) && ValidRun(Step(ts, Resetting(id, now)), es)
    requires o in ts && ts[o].purpose.PasswordReset? && ts[o].user == ts[id].user
    requires ts[o].fate.Undelivered? || ts[o].fate.Live?
    ensures var end := Run(Step(ts, Resetting(id, now)), es);
            && o in end
            && end[o].fate == (if ts[o].fate.Undelivered? then Cancelled(now)
                               else Closed(ts[o].fate.since, now, if o == id then Consumed else Superseded))
  {
    StepOk(ts, Resetting(id, now));
    TerminalForever(Step(ts, Resetting(id, now)), es, o);
  }

  // ---- every ticket's delivery is a run of the lease machine ----

  /** What one event means for the delivery of ticket o. */
  ghost function Project(ts: map<Id, Ticket>, e: Event, o: Id): seq<LeaseMachine.Event>
    requires o in ts && Enabled(ts, e)
  {
    match e
    case Claimed(id, w, now) => if id == o then [LeaseMachine.Claim(w, now)] else []
    case Exhausting(id, now) => if id == o then [LeaseMachine.Exhaust(now)] else []
    case Failing(id, w, permanent, now) => if id == o then [LeaseMachine.Fail(w, permanent, now)] else []
    case Finishing(id, w, ring, now) => if id == o && !Blocked(ts, id, ring) then [LeaseMachine.Finish(w, now)] else []
    case Resetting(id, now) =>
      if o != id && ts[o].purpose.PasswordReset? && ts[o].user == ts[id].user && ts[o].fate.Undelivered?
      then [LeaseMachine.Cancel(now)] else []
    case _ => []
  }

  ghost function Trace(ts: map<Id, Ticket>, es: seq<Event>, o: Id): seq<LeaseMachine.Event>
    requires AllOk(ts) && ValidRun(ts, es) && o in ts
    decreases |es|
  {
    if es == [] then [] else
      StepOk(ts, es[0]);
      Project(ts, es[0], o) + Trace(Step(ts, es[0]), es[1..], o)
  }

  lemma StepProjects(ts: map<Id, Ticket>, e: Event, o: Id)
    requires AllOk(ts) && Enabled(ts, e) && o in ts
    ensures |Project(ts, e, o)| <= 1
    ensures Project(ts, e, o) == [] ==> Step(ts, e)[o].delivery == ts[o].delivery
    ensures |Project(ts, e, o)| == 1 ==>
              var d := Project(ts, e, o)[0];
              LeaseMachine.Enabled(ts[o].delivery, d) && Step(ts, e)[o].delivery == LeaseMachine.Step(ts[o].delivery, d)
  {
  }

  /** The mails sent for one challenge never exceed the attempt limit, over any interleaving of
      workers, registrations and resets. */
  lemma {:induction false} DeliveryBounded(ts: map<Id, Ticket>, es: seq<Event>, o: Id)
    requires AllOk(ts) && ValidRun(ts, es) && o in ts
    ensures o in Run(ts, es)
    ensures LeaseMachine.ValidRun(ts[o].delivery, Trace(ts, es, o))
    ensures Run(ts, es)[o].delivery == LeaseMachine.Run(ts[o].delivery, Trace(ts, es, o))
    ensures ts[o].delivery.attempts + Claims(Trace(ts, es, o)) == Run(ts, es)[o].delivery.attempts <= MAX_ATTEMPTS
    decreases |es|
  {
    if es == [] {
    } else {
      StepOk(ts, es[0]);
      StepProjects(ts, es[0], o);
      var ds, rest := Project(ts, es[0], o), Trace(Step(ts, es[0]), es[1..], o);
      DeliveryBounded(Step(ts, es[0]), es[1..], o);
      assert ds == [] ==> ds + rest == rest;
      assert ds != [] ==> (ds + rest)[1..] == rest;
      BoundedSends(ts[o].delivery, ds + rest);
    }
  }

  // ---- guesses ----

  /** Wrong codes that were checked against the live, unexpired ticket o. */
  ghost function Wrong(ts: map<Id, Ticket>, es: seq<Event>, o: Id): nat
    requires ValidRun(ts, es)
    decreases |es|
  {
    if es == [] then 0
    else (if WrongGuess(ts, es[0], o) then 1 else 0) + Wrong(Step(ts, es[0]), es[1..], o)
  }

  predicate WrongGuess(ts: map<Id, Ticket>, e: Event, o: Id) {
    && e.Guessing? && e.id == o && !e.right && o in ts && ts[o].fate.Live? && e.now < ts[o].fate.since + CHALLENGE_TTL
  }

  lemma GuessCounted(ts: map<Id, Ticket>, e: Event, o: Id)
    requires AllOk(ts) && Enabled(ts, e) && o in ts
    ensures o in Step(ts, e) && Step(ts, e)[o].guesses == ts[o].guesses + if WrongGuess(ts, e, o) then 1 else 0
  {
  }

  /** Over any run at most five wrong codes are ever compared with one challenge. */
  lemma {:induction false} GuessesBounded(ts: map<Id, Ticket>, es: seq<Event>, o: Id)
    requires AllOk(ts) && ValidRun(ts, es) && o in ts
    ensures o in Run(ts, es) && Run(ts, es)[o].guesses == ts[o].guesses + Wrong(ts, es, o) <= MAX_GUESSES
    decreases |es|
  {
    if es == [] {
    } else {
      StepOk(ts, es[0]);
      GuessCounted(ts, es[0], o);
      GuessesBounded(Step(ts, es[0]), es[1..], o);
    }
  }

  // ---- a code is used at most once ----

  /** The event uses the code of a challenge up: the right code in time, or a reset committed with it. */
  predicate UsesUp(ts: map<Id, Ticket>, e: Event, o: Id) {
    && o in ts && ts[o].fate.Live?
    && ((e.Guessing? && e.id == o && e.right && e.now < ts[o].fate.since + 600) || (e.Resetting? && e.id == o))
  }

  lemma UsedIsConsumed(ts: map<Id, Ticket>, e: Event, o: Id)
    requires Enabled(ts, e) && UsesUp(ts, e, o)
    ensures o in Step(ts, e) && Step(ts, e)[o].fate == Closed(ts[o].fate.since, e.now, Consumed)
  {
  }

  ghost function Uses(ts: map<Id, Ticket>, es: seq<Event>, o: Id): nat
    requires ValidRun(ts, es)
    decreases |es|
  {
    if es == [] then 0 else (if UsesUp(ts, es[0], o) then 1 else 0) + Uses(Step(ts, es[0]), es[1..], o)
  }

  /** Over any run the code of a challenge is accepted at most once, and then it stays consumed. */
  lemma {:induction false} UsedOnce(ts: map<Id, Ticket>, es: seq<Event>, o: Id)
    requires AllOk(ts) && ValidRun(ts, es)
    ensures Uses(ts, es, o) <= if o in ts && Terminal(ts[o]) then 0 else 1
    ensures Uses(ts, es, o) == 1 ==>
              o in Run(ts, es) && Run(ts, es)[o].fate.Closed? && Run(ts, es)[o].fate.outcome.Consumed?
    decreases |es|
  {
    hide Step, Enabled, TicketOk;
    if es == [] {
    } else {
      var us := Step(ts, es[0]);
      StepOk(ts, es[0]);
      UsedOnce(us, es[1..], o);
      if o in ts && Terminal(ts[o]) {
        StepTerminal(ts, es[0], o);
      } else if UsesUp(ts, es[0], o) {
        UsedIsConsumed(ts, es[0], o);
        TerminalForever(us, es[1..], o);
      }
    }
  }
}
