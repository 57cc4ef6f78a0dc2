/**
 The outbox of security notifications, the second queue driven by the lease machine.  Besides the
 delivery itself every notification that is given up must leave exactly one audit event.
 */
module SecurityNotifications {
  import opened Wrappers
  import opened L = LeaseMachine
  import opened RowOrder

  datatype NoticeState = NoticePending | NoticeLeased | NoticeDelivered | NoticeFailed

  datatype Notice = Notice(
    createdAt: Time, state: NoticeState, attemptCount: nat, nextAttemptAt: Time,
    leaseOwner: Option<Worker>, leaseExpiresAt: Option<Time>, deliveredAt: Option<Time>, terminalAt: Option<Time>)

  datatype NoticeClaim = NoticeClaim(id: Id, worker: Worker, attemptCount: nat)

  datatype ClaimResult = NoWork | Given(claim: NoticeClaim) | GivenUp(id: Id)

  datatype NoticeOutcome = Delivered | RetryScheduled | DeliveryFailed | StaleClaim

  function NoticeRow(d: Delivery, createdAt: Time): Notice {
    var base := Notice(createdAt, NoticePending, d.attempts, d.nextAt, None, None, None, None);
    match d.stage
    case Waiting => base
    case Leased(w, until) => base.(state := NoticeLeased, leaseOwner := Some(w), leaseExpiresAt := Some(until))
    case Sent(at) => base.(state := NoticeDelivered, deliveredAt := Some(at), terminalAt := Some(at))
    case Dropped(at) => base.(state := NoticeFailed, terminalAt := Some(at))
  }

  ghost predicate RowsMatch(rows: map<Id, Notice>, ds: map<Id, Delivery>) {
    rows.Keys == ds.Keys
      && forall id :: id in ds ==> L.Valid(ds[id]) && rows[id] == NoticeRow(ds[id], rows[id].createdAt)
  }

  /** One audit event for every notification that was given up, and none for any other. */
  ghost predicate AuditedOnce(audit: seq<Id>, ds: map<Id, Delivery>) {
    forall id :: multiset(audit)[id] == if id in ds && ds[id].stage.Dropped? then 1 else 0
  }

  predicate Eligible(n: Notice, now: Time) {
    && n.attemptCount < MAX_ATTEMPTS
    && ((n.state.NoticePending? && n.nextAttemptAt <= now)
        || (n.state.NoticeLeased? && n.leaseExpiresAt.Some? && n.leaseExpiresAt.value <= now))
  }

  predicate LeaseSpent(n: Notice, now: Time) {
    n.state.NoticeLeased? && n.leaseExpiresAt.Some? && n.leaseExpiresAt.value <= now && n.attemptCount >= MAX_ATTEMPTS
  }

  /** The rows a worker may claim, passing over those another transaction has locked. */
  function Due(rows: map<Id, Notice>, now: Time, locked: set<Id>): set<Id> {
    set id | id in rows && id !in locked && Eligible(rows[id], now)
  }

  function Spent(rows: map<Id, Notice>, now: Time, locked: set<Id>): set<Id> {
    set id | id in rows && id !in locked && LeaseSpent(rows[id], now)
  }

  /** Retry order: the time of the next attempt, then the creation. */
  function RetryRank(rows: map<Id, Notice>): Id -> Rank {
    id => if id in rows then (rows[id].nextAttemptAt, rows[id].createdAt) else (0, 0)
  }

  function LeaseRank(rows: map<Id, Notice>): Id -> Rank {
    id => if id in rows && rows[id].leaseExpiresAt.Some? then (rows[id].leaseExpiresAt.value, 0) else (0, 0)
  }

  /** What claiming an eligible notification does to it. */
  lemma ClaimedRow(rows: map<Id, Notice>, audit: seq<Id>, ds: map<Id, Delivery>, id: Id, worker: Worker, now: Time)
    requires RowsMatch(rows, ds) && AuditedOnce(audit, ds) && id in rows && Eligible(rows[id], now)
    ensures id in ds && L.Claimable(ds[id], now) && L.Open(ds[id]) && rows[id].deliveredAt.None?
    ensures var d, row := L.Step(ds[id], L.Claim(worker, now)), LeasedRow(rows[id], worker, now);
            && L.Valid(d) && L.HeldBy(d, worker) && d.attempts == row.attemptCount && d.nextAt == row.nextAttemptAt
            && RowsMatch(rows[id := row], ds[id := d]) && AuditedOnce(audit, ds[id := d])
  {
  }

  function LeasedRow(row: Notice, worker: Worker, now: Time): Notice {
    row.(state := NoticeLeased, leaseOwner := Some(worker), leaseExpiresAt := Some(now + LEASE_SECONDS),
         attemptCount := row.attemptCount + 1)
  }

  // ---- what the transactions do, row by row ----

  /** A notification a worker may lease now, or whose last lease ran out. */
  ghost predicate MayBeLeased(rows: map<Id, Notice>, id: Id, now: Time, locked: set<Id>) {
    && id in rows && id !in locked && rows[id].attemptCount < 5
    && ((rows[id].state.NoticePending? && rows[id].nextAttemptAt <= now)
        || (rows[id].state.NoticeLeased? && rows[id].leaseExpiresAt.Some? && rows[id].leaseExpiresAt.value <= now))
  }

  ghost predicate RanOut(rows: map<Id, Notice>, id: Id, now: Time, locked: set<Id>) {
    && id in rows && id !in locked && rows[id].attemptCount >= 5
    && rows[id].state.NoticeLeased? && rows[id].leaseExpiresAt.Some? && rows[id].leaseExpiresAt.value <= now
  }

  /** The first by time of the next attempt, creation and identifier. */
  ghost predicate FirstToLease(rows: map<Id, Notice>, id: Id, now: Time, locked: set<Id>) {
    && MayBeLeased(rows, id, now, locked)
    && forall o :: MayBeLeased(rows, o, now, locked) && o != id ==>
         || rows[id].nextAttemptAt < rows[o].nextAttemptAt
         || (rows[id].nextAttemptAt == rows[o].nextAttemptAt
             && (rows[id].createdAt < rows[o].createdAt || (rows[id].createdAt == rows[o].createdAt && id < o)))
  }

  ghost predicate FirstRanOut(rows: map<Id, Notice>, id: Id, now: Time, locked: set<Id>) {
    && RanOut(rows, id, now, locked)
    && forall o :: RanOut(rows, o, now, locked) && o != id ==>
         || rows[id].leaseExpiresAt.value < rows[o].leaseExpiresAt.value
         || (rows[id].leaseExpiresAt.value == rows[o].leaseExpiresAt.value && id < o)
  }

  /** A notification that is given up loses its lease and is audited; `attempts` were made. */
  ghost predicate GivenUpRow(row: Notice, row2: Notice, attempts: nat, now: Time) {
    row2 == row.(state := NoticeFailed, attemptCount := attempts, leaseOwner := None, leaseExpiresAt := None,
                 terminalAt := Some(now))
  }

  ghost predicate Leases(rows: map<Id, Notice>, id: Id, worker: Worker) {
    id in rows && rows[id].state.NoticeLeased? && rows[id].leaseOwner == Some(worker)
  }

  /** The lease is given back, and the next attempt is due 2, 4, 8 or 16 seconds later. */
  ghost predicate RetriedRow(row: Notice, row2: Notice, now: Time) {
    && 1 <= row.attemptCount <= 4
    && var n := row.attemptCount;
    row2 == row.(state := NoticePending, leaseOwner := None, leaseExpiresAt := None,
                 nextAttemptAt := now + if n == 1 then 2 else if n == 2 then 4 else if n == 3 then 8 else 16)
  }

  lemma LeasedFirst(rows: map<Id, Notice>, now: Time, locked: set<Id>)
    ensures forall id :: id in Due(rows, now, locked) <==> MayBeLeased(rows, id, now, locked)
    ensures forall id :: IsFirst(Due(rows, now, locked), RetryRank(rows), id) ==> FirstToLease(rows, id, now, locked)
  {
    var rank := RetryRank(rows);
    forall id | IsFirst(Due(rows, now, locked), rank, id) ensures FirstToLease(rows, id, now, locked) {
      forall o | MayBeLeased(rows, o, now, locked) && o != id
        ensures || rows[id].nextAttemptAt < rows[o].nextAttemptAt
                || (rows[id].nextAttemptAt == rows[o].nextAttemptAt
                    && (rows[id].createdAt < rows[o].createdAt || (rows[id].createdAt == rows[o].createdAt && id < o)))
      {
        assert o in Due(rows, now, locked) && Before(rank(id), id, rank(o), o);
      }
    }
  }

  lemma RanOutFirst(rows: map<Id, Notice>, now: Time, locked: set<Id>)
    ensures forall id :: id in Spent(rows, now, locked) <==> RanOut(rows, id, now, locked)
    ensures forall id :: IsFirst(Spent(rows, now, locked), LeaseRank(rows), id) ==> FirstRanOut(rows, id, now, locked)
  {
    var rank := LeaseRank(rows);
    forall id | IsFirst(Spent(rows, now, locked), rank, id) ensures FirstRanOut(rows, id, now, locked) {
      forall o | RanOut(rows, o, now, locked) && o != id
        ensures || rows[id].leaseExpiresAt.value < rows[o].leaseExpiresAt.value
                || (rows[id].leaseExpiresAt.value == rows[o].leaseExpiresAt.value && id < o)
      {
        assert o in Spent(rows, now, locked) && Before(rank(id), id, rank(o), o);
      }
    }
  }

  class Notices {
    var rows: map<Id, Notice>
    var audit: seq<Id>   // the notifications named by delivery-failure audit events
    ghost var deliveries: map<Id, Delivery>

    ghost predicate Valid()
      reads this
    {
      RowsMatch(rows, deliveries) && AuditedOnce(audit, deliveries)
    }

    constructor ()
      ensures Valid() && deliveries == map[]
    {
      rows, audit, deliveries := map[], [], map[];
    }

    /** A committed password reset enqueues its notification, due at once. */
    method Enqueue(id: Id, now: Time, createdAt: Time)
      requires Valid() && id !in rows
      modifies this
      ensures Valid() && deliveries == old(deliveries)[id := Delivery(0, now, Waiting)]
      // the same, read off the rows
      ensures rows == old(rows)[id := Notice(createdAt, NoticePending, 0, now, None, None, None, None)]
      ensures audit == old(audit)
    {
      rows := rows[id := Notice(createdAt, NoticePending, 0, now, None, None, None, None)];
      deliveries := deliveries[id := Delivery(0, now, Waiting)];
    }

    /** Leases the next due notification; one whose contact cannot be used is given up at once. */
    method Claim(worker: Worker, now: Time, locked: set<Id>, unusable: set<Id>) returns (result: ClaimResult)
      requires Valid()
      modifies this
      ensures Valid()
      ensures result.NoWork? <==> Due(old(rows), now, locked) == {}
      ensures result.NoWork? ==> deliveries == old(deliveries)
      ensures !result.NoWork? ==>
        && var id := if result.Given? then result.claim.id else result.id;
        && IsFirst(Due(old(rows), now, locked), RetryRank(old(rows)), id)
        && id in old(deliveries) && L.Claimable(old(deliveries)[id], now) && (result.GivenUp? <==> id in unusable)
        && var claimed := L.Step(old(deliveries)[id], L.Claim(worker, now));
        && (result.Given? ==> result.claim == NoticeClaim(id, worker, claimed.attempts))
        && deliveries == old(deliveries)[id := if id in unusable then L.Step(claimed, L.Fail(worker, true, now))
           else claimed]
      // the same, read off the rows
      ensures result.NoWork? <==> forall id :: !MayBeLeased(old(rows), id, now, locked)
      ensures result.NoWork? ==> rows == old(rows)
      ensures !result.GivenUp? ==> audit == old(audit)
      ensures result.Given? ==>
        var id := result.claim.id;
        && FirstToLease(old(rows), id, now, locked) && id !in unusable
        && result.claim == NoticeClaim(id, worker, old(rows)[id].attemptCount + 1)
        && rows == old(rows)[id := old(rows)[id].(state := NoticeLeased, leaseOwner := Some(worker),
                                                  leaseExpiresAt := Some(now + 30),
                                                  attemptCount := old(rows)[id].attemptCount + 1)]
      ensures result.GivenUp? ==>
        && FirstToLease(old(rows), result.id, now, locked) && result.id in unusable
        && result.id in rows && rows == old(rows)[result.id := rows[result.id]]
        && GivenUpRow(old(rows)[result.id], rows[result.id], old(rows)[result.id].attemptCount + 1, now)
        && audit == old(audit) + [result.id]
    {
      hide RowsMatch, AuditedOnce, IsFirst, Eligible, FirstToLease, RetryRank;
      LeasedFirst(rows, now, locked);
      var due := Due(rows, now, locked);
      if due == {} {
        return NoWork;
      }
      var id := First(due, RetryRank(rows));
      ClaimedRow(rows, audit, deliveries, id, worker, now);
      ghost var claimed := L.Step(deliveries[id], L.Claim(worker, now));
      var leased := LeasedRow(rows[id], worker, now);
      if id in unusable {
        GiveUp(id, leased, L.Step(claimed, L.Fail(worker, true, now)), now);
        return GivenUp(id);
      }
      rows := rows[id := leased];
      deliveries := deliveries[id := claimed];
      result := Given(NoticeClaim(id, worker, leased.attemptCount));
    }

    /** Writes the failed row and its audit event together. */
    method GiveUp(id: Id, row: Notice, ghost dropped: Delivery, now: Time)
      requires Valid() && id in rows && L.Open(deliveries[id]) && L.Valid(dropped)
      requires dropped.stage == Dropped(now) && row.attemptCount == dropped.attempts
        && row.nextAttemptAt == dropped.nextAt
      requires row.deliveredAt.None? && row.createdAt == rows[id].createdAt
      modifies this
      ensures Valid() && deliveries == old(deliveries)[id := dropped]
      ensures audit == old(audit) + [id]
      ensures id in rows && rows == old(rows)[id := rows[id]] && GivenUpRow(row, rows[id], row.attemptCount, now)
    {
      rows := rows[id :=
        row.(state := NoticeFailed, leaseOwner := None, leaseExpiresAt := None, terminalAt := Some(now))];
      audit := audit + [id];
      deliveries := deliveries[id := dropped];
    }

    method TerminalizeOneExhausted(now: Time, locked: set<Id>) returns (hit: Option<Id>)
      requires Valid()
      modifies this
      ensures Valid()
      ensures hit.None? <==> Spent(old(rows), now, locked) == {}
      ensures hit.None? ==> deliveries == old(deliveries)
      ensures hit.Some? ==>
                && IsFirst(Spent(old(rows), now, locked), LeaseRank(old(rows)), hit.value)
                && hit.value in old(deliveries) && L.Exhausted(old(deliveries)[hit.value], now)
                && deliveries == old(deliveries)[hit.value := L.Step(old(deliveries)[hit.value], L.Exhaust(now))]
      // the same, read off the rows
      ensures hit.None? <==> forall id :: !RanOut(old(rows), id, now, locked)
      ensures hit.None? ==> rows == old(rows) && audit == old(audit)
      ensures hit.Some? ==>
        && FirstRanOut(old(rows), hit.value, now, locked) && audit == old(audit) + [hit.value]
        && hit.value in rows && rows == old(rows)[hit.value := rows[hit.value]]
        && GivenUpRow(old(rows)[hit.value], rows[hit.value], old(rows)[hit.value].attemptCount, now)
    {
      hide FirstRanOut, LeaseRank;
      RanOutFirst(rows, now, locked);
      var due := Spent(rows, now, locked);
      if due == {} {
        return None;
      }
      var id := First(due, LeaseRank(rows));
      GiveUp(id, rows[id], L.Step(deliveries[id], L.Exhaust(now)), now);
      hit := Some(id);
    }

    method Finish(claim: NoticeClaim, now: Time) returns (outcome: NoticeOutcome)
      requires Valid() && claim.id in rows
      modifies this
      ensures Valid()
      ensures deliveries == old(deliveries)[claim.id := L.Step(old(deliveries)[claim.id], L.Finish(claim.worker, now))]
      ensures outcome == if L.HeldBy(old(deliveries)[claim.id], claim.worker) then Delivered else StaleClaim
      // the same, read off the rows
      ensures audit == old(audit)
      ensures outcome == if Leases(old(rows), claim.id, claim.worker) then Delivered else StaleClaim
      ensures outcome.StaleClaim? ==> rows == old(rows)
      ensures outcome.Delivered? ==>
        rows == old(rows)[claim.id := old(rows)[claim.id].(state := NoticeDelivered, leaseOwner := None,
                                                           leaseExpiresAt := None, deliveredAt := Some(now),
                                                           terminalAt := Some(now))]
    {
      var row := rows[claim.id];
      ghost var after := L.Step(deliveries[claim.id], L.Finish(claim.worker, now));
      assert after == deliveries[claim.id] ==> deliveries == deliveries[claim.id := after];
      if !row.state.NoticeLeased? || row.leaseOwner != Some(claim.worker) {
        return StaleClaim;
      }
      rows := rows[claim.id :=
        row.(state := NoticeDelivered, leaseOwner := None, leaseExpiresAt := None, deliveredAt := Some(now),
        terminalAt := Some(now))];
      deliveries := deliveries[claim.id := after];
      outcome := Delivered;
    }

    method RecordFailure(claim: NoticeClaim, permanent: bool, now: Time) returns (outcome: NoticeOutcome)
      requires Valid() && claim.id in rows
      modifies this
      ensures Valid()
      ensures deliveries
        == old(deliveries)[claim.id := L.Step(old(deliveries)[claim.id], L.Fail(claim.worker, permanent, now))]
      ensures outcome.StaleClaim? <==> !L.HeldBy(old(deliveries)[claim.id], claim.worker)
      ensures outcome.DeliveryFailed? <==> !outcome.StaleClaim? && deliveries[claim.id].stage.Dropped?
      ensures !outcome.Delivered?
      // the same, read off the rows
      ensures outcome.StaleClaim? <==> !Leases(old(rows), claim.id, claim.worker)
      ensures outcome.StaleClaim? ==> rows == old(rows)
      ensures outcome.DeliveryFailed? <==>
        !outcome.StaleClaim? && (permanent || old(rows)[claim.id].attemptCount >= 5)
      ensures audit == if outcome.DeliveryFailed? then old(audit) + [claim.id] else old(audit)
      ensures !outcome.StaleClaim? ==>
        && claim.id in rows && rows == old(rows)[claim.id := rows[claim.id]]
        && var before := old(rows)[claim.id];
        if outcome.DeliveryFailed? then GivenUpRow(before, rows[claim.id], before.attemptCount, now)
        else RetriedRow(before, rows[claim.id], now)
    {
      Delays();
      var row := rows[claim.id];
      ghost var after := L.Step(deliveries[claim.id], L.Fail(claim.worker, permanent, now));
      assert after == deliveries[claim.id] ==> deliveries == deliveries[claim.id := after];
      if !row.state.NoticeLeased? || row.leaseOwner != Some(claim.worker) {
        return StaleClaim;
      }
      if permanent || row.attemptCount >= MAX_ATTEMPTS {
        GiveUp(claim.id, row, after, now);
        return DeliveryFailed;
      }
      rows := rows[claim.id :=
        row.(state := NoticePending, nextAttemptAt := now + Backoff(row.attemptCount), leaseOwner := None,
        leaseExpiresAt := None)];
      deliveries := deliveries[claim.id := after];
      outcome := RetryScheduled;
    }
  }
}
