/**
 The delivery life of one outbox row: workers claim it under a lease, send, and report back; a lease
 that runs out may be claimed again until the attempts are used up.  Verification e-mails and
 security notifications are two instances.
 */
module LeaseMachine {
  import opened Wrappers

  type Worker = string

  const MAX_ATTEMPTS: nat := 5
  const LEASE_SECONDS: nat := 30

  datatype Stage = Waiting | Leased(worker: Worker, until: Time) | Sent(at: Time) | Dropped(at: Time)

  datatype Delivery = Delivery(attempts: nat, nextAt: Time, stage: Stage)

  datatype Event =
    | Claim(worker: Worker, now: Time)
    | Finish(worker: Worker, now: Time)
    | Fail(worker: Worker, permanent: bool, now: Time)
    | Exhaust(now: Time)
    | Cancel(now: Time)

  predicate Open(d: Delivery) {
    d.stage.Waiting? || d.stage.Leased?
  }

  predicate Valid(d: Delivery) {
    && d.attempts <= MAX_ATTEMPTS
    && (d.stage.Waiting? ==> d.attempts < MAX_ATTEMPTS)
    && (d.stage.Leased? ==> d.attempts >= 1)
  }

  predicate Claimable(d: Delivery, now: Time) {
    d.attempts < MAX_ATTEMPTS && ((d.stage.Waiting? && d.nextAt <= now) || (d.stage.Leased? && d.stage.until <= now))
  }

  predicate Exhausted(d: Delivery, now: Time) {
    d.attempts >= MAX_ATTEMPTS && d.stage.Leased? && d.stage.until <= now
  }

  predicate HeldBy(d: Delivery, worker: Worker) {
    d.stage.Leased? && d.stage.worker == worker
  }

  function Pow2(n: nat): (r: nat)
    ensures r >= 1
  {
    if n == 0 then 1 else 2 * Pow2(n - 1)
  }

  function Backoff(attempts: nat): nat {
    if Pow2(attempts) < 300 then Pow2(attempts) else 300
  }

  /** Delays double from two seconds on, up to five minutes. */
  lemma Delays()
    ensures Backoff(1) == 2 && Backoff(2) == 4 && Backoff(3) == 8 && Backoff(4) == 16
    ensures forall n: nat :: n <= 8 ==> Backoff(n) == Pow2(n) && (n > 0 ==> Pow2(n) == 2 * Pow2(n - 1))
    ensures forall n: nat :: n >= 9 ==> Backoff(n) == 300
  {
    assert Pow2(4) == 16 && Pow2(8) == 256 && Pow2(9) == 512;
    forall n: nat | n >= 9 ensures Backoff(n) == 300 {
      Doubled(n - 9);
    }
    forall n: nat | n <= 8 ensures Backoff(n) == Pow2(n) {
      Grows(n, 8);
    }
  }

  lemma {:induction false} Doubled(n: nat)
    ensures Pow2(n + 9) >= 512
  {
    if n == 0 {
      assert Pow2(8) == 256;
    } else {
      Doubled(n - 1);
    }
  }

  lemma {:induction false} Grows(n: nat, m: nat)
    requires n <= m
    ensures Pow2(n) <= Pow2(m)
    decreases m - n
  {
    if n < m { Grows(n + 1, m); }
  }

  predicate Enabled(d: Delivery, e: Event) {
    match e
    case Claim(_, now) => Claimable(d, now)
    case Exhaust(now) => Exhausted(d, now)
    case Cancel(_) => Open(d)
    case _ => true
  }

  /** Reports by a worker that does not hold the lease are stale and change nothing. */
  function Step(d: Delivery, e: Event): Delivery {
    match e
    case Claim(w, now) => d.(attempts := d.attempts + 1, stage := Leased(w, now + LEASE_SECONDS))
    case Finish(w, now) => if HeldBy(d, w) then d.(stage := Sent(now)) else d
    case Fail(w, permanent, now) =>
      if !HeldBy(d, w) then d
      else if permanent || d.attempts >= MAX_ATTEMPTS then d.(stage := Dropped(now))
      else d.(stage := Waiting, nextAt := now + Backoff(d.attempts))
    case Exhaust(now) => d.(stage := Dropped(now))
    case Cancel(now) => d.(stage := Dropped(now))
  }

  // ---- termination ----

  function Measure(d: Delivery): (m: int) {
    if Open(d) then 2 * (MAX_ATTEMPTS - d.attempts) + (if d.stage.Leased? then 1 else 0) else 0
  }

  /** Every step that is not a stale report lowers the measure, so a row has finitely many. */
  lemma StepDecreases(d: Delivery, e: Event)
    requires Valid(d) && Enabled(d, e)
    ensures Valid(Step(d, e)) && 0 <= Measure(Step(d, e))
    ensures Step(d, e) == d || Measure(Step(d, e)) < Measure(d)
    ensures Step(d, e) == d <==> (e.Finish? || e.Fail?) && !HeldBy(d, e.worker)
    ensures !Open(d) ==> Step(d, e) == d
  {
  }

  ghost predicate ValidRun(d: Delivery, es: seq<Event>)
    decreases |es|
  {
    es == [] || (Enabled(d, es[0]) && ValidRun(Step(d, es[0]), es[1..]))
  }

  function Run(d: Delivery, es: seq<Event>): Delivery
    decreases |es|
  {
    if es == [] then d else Run(Step(d, es[0]), es[1..])
  }

  /** Every send follows its own claim. */
  function Claims(es: seq<Event>): nat {
    if es == [] then 0 else (if es[0].Claim? then 1 else 0) + Claims(es[1..])
  }

  function Effective(d: Delivery, es: seq<Event>): nat
    decreases |es|
  {
    if es == [] then 0 else (if Step(d, es[0]) != d then 1 else 0) + Effective(Step(d, es[0]), es[1..])
  }

  /** Whatever the workers do, a row is claimed, hence sent, at most MAX_ATTEMPTS times, and
      changes at most 2 * MAX_ATTEMPTS times; the attempt counter counts exactly the claims. */
  lemma {:induction false} BoundedSends(d: Delivery, es: seq<Event>)
    requires Valid(d) && ValidRun(d, es)
    ensures Valid(Run(d, es)) && Run(d, es).attempts == d.attempts + Claims(es) <= MAX_ATTEMPTS
    ensures 0 <= Measure(Run(d, es)) && Effective(d, es) + Measure(Run(d, es)) <= Measure(d)
    decreases |es|
  {
    if es == [] {
    } else {
      StepDecreases(d, es[0]);
      BoundedSends(Step(d, es[0]), es[1..]);
    }
  }

  /** An open row never gets stuck: once its retry or lease time has passed it can be claimed or
      its exhausted lease can be closed. */
  lemma NeverStuck(d: Delivery, now: Time)
    requires Valid(d) && Open(d)
    requires now >= (if d.stage.Waiting? then d.nextAt else d.stage.until)
    ensures Claimable(d, now) != Exhausted(d, now)
  {
  }

  // ---- superseded claims ----

  ghost predicate NoClaimBy(es: seq<Event>, w: Worker) {
    forall i :: 0 <= i < |es| && es[i].Claim? ==> es[i].worker != w
  }

  lemma {:induction false} NeverHeldAgain(d: Delivery, es: seq<Event>, w: Worker)
    requires ValidRun(d, es) && NoClaimBy(es, w) && !HeldBy(d, w)
    ensures !HeldBy(Run(d, es), w)
    decreases |es|
  {
    if es == [] {
    } else {
      NeverHeldAgain(Step(d, es[0]), es[1..], w);
    }
  }

  /** A claim that another worker has taken over is dead: whatever its worker still reports, now or
      later, changes nothing, as long as that worker did not claim again under the same id. */
  lemma {:induction false} SupersededClaimIsStale(d: Delivery, es: seq<Event>, w: Worker, permanent: bool, now: Time)
    requires ValidRun(d, es) && NoClaimBy(es, w) && Claims(es) >= 1
    ensures Step(Run(d, es), Finish(w, now)) == Run(d, es)
    ensures Step(Run(d, es), Fail(w, permanent, now)) == Run(d, es)
    decreases |es|
  {
    if es[0].Claim? {
      NeverHeldAgain(Step(d, es[0]), es[1..], w);
    } else {
      SupersededClaimIsStale(Step(d, es[0]), es[1..], w, permanent, now);
    }
  }
}
