/**
 The circuit breaker around the mail provider.  Workers poll for a permit, one of them probes a
 failing provider, and both probes and sends report back later, when the circuit may have moved on;
 a version number and a probe token tell stale reports apart.
 */
module ProviderCircuit {
  import opened Wrappers

  type ProbeToken = nat // a fresh UUID

  const PROBE_LEASE_SECONDS: nat := 15
  const RETRY_SECONDS: nat := 30

  datatype Mode = Closed | Open(retryAt: Time) | Probing(token: ProbeToken, until: Time)
  datatype Circuit = Circuit(mode: Mode, version: nat)

  datatype Event =
    | Poll(token: ProbeToken, bypass: bool, now: Time)   // bypass: the test mail backend is allowed
    | ProbeReport(version: nat, token: ProbeToken, succeeded: bool, now: Time)
    | SendReport(version: nat, transientFailure: bool, now: Time)

  predicate ProbeDue(m: Mode, now: Time) {
    (m.Open? && m.retryAt <= now) || (m.Probing? && m.until <= now)
  }

  function Step(c: Circuit, e: Event): Circuit {
    match e
    case Poll(token, bypass, now) =>
      if bypass && !c.mode.Closed? then Circuit(Closed, c.version + 1)
      else if ProbeDue(c.mode, now) then Circuit(Probing(token, now + PROBE_LEASE_SECONDS), c.version + 1)
      else c
    case ProbeReport(version, token, succeeded, now) =>
      if c.mode.Probing? && c.version == version && c.mode.token == token && now < c.mode.until
      then Circuit(if succeeded then Closed else Open(now + RETRY_SECONDS), c.version + 1)
      else c
    case SendReport(version, transientFailure, now) =>
      if transientFailure && c.mode.Closed? && c.version == version
      then Circuit(Open(now + RETRY_SECONDS), c.version + 1)
      else c
  }

  function Run(c: Circuit, es: seq<Event>): Circuit
    decreases |es|
  {
    if es == [] then c else Run(Step(c, es[0]), es[1..])
  }

  /** Nothing happened: every step of the run left the circuit as it was. */
  predicate Idle(c: Circuit, es: seq<Event>)
    decreases |es|
  {
    es == [] || (Step(c, es[0]) == c && Idle(c, es[1..]))
  }

  function Changes(c: Circuit, es: seq<Event>): nat
    decreases |es|
  {
    if es == [] then 0 else (if Step(c, es[0]) != c then 1 else 0) + Changes(Step(c, es[0]), es[1..])
  }

  /** The version counts the changes: every change of state, deadline or token advances it. */
  lemma {:induction false} VersionCounts(c: Circuit, es: seq<Event>)
    ensures Run(c, es).version == c.version + Changes(c, es)
    decreases |es|
  {
    if es == [] {
    } else {
      VersionCounts(Step(c, es[0]), es[1..]);
    }
  }

  /** ABA-safety: seeing the same version again means that nothing happened in between. */
  lemma {:induction false} SameVersionIdle(c: Circuit, es: seq<Event>)
    ensures Run(c, es).version == c.version <==> Idle(c, es)
    ensures Run(c, es).version == c.version ==> Run(c, es) == c
    decreases |es|
  {
    if es == [] {
    } else {
      VersionCounts(Step(c, es[0]), es[1..]);
      SameVersionIdle(Step(c, es[0]), es[1..]);
    }
  }

  /** A send opens the circuit exactly when it failed transiently and nothing changed since its permit
      was issued. */
  lemma SendOpensIffIdle(c: Circuit, es: seq<Event>, transientFailure: bool, now: Time)
    requires c.mode.Closed?
    ensures var d := Run(c, es);
            var report := SendReport(c.version, transientFailure, now);
            && (Step(d, report) != d <==> transientFailure && Idle(c, es))
            && (Step(d, report) != d ==> Step(d, report) == Circuit(Open(now + 30), c.version + 1))
  {
    SameVersionIdle(c, es);
  }

  /** A probe decides exactly when it is still the latest one and its lease has not run out. */
  lemma ProbeDecidesIffLatest(c: Circuit, es: seq<Event>, succeeded: bool, now: Time)
    requires c.mode.Probing?
    ensures var d := Run(c, es);
            var report := ProbeReport(c.version, c.mode.token, succeeded, now);
            && (Step(d, report) != d <==> Idle(c, es) && now < c.mode.until)
            && (Step(d, report) != d ==>
               Step(d, report).mode == if succeeded then Closed else Open(now + RETRY_SECONDS))
  {
    SameVersionIdle(c, es);
  }

  /** Without the test bypass nothing but the unexpired probe that holds the token closes a circuit
      or ends a probe before its time, and nothing but a send that failed transiently under the
      current version opens a closed one. */
  lemma WhoMayMove(c: Circuit, e: Event)
    requires e.Poll? ==> !e.bypass
    ensures var d := Step(c, e);
            && (d.mode.Closed? && !c.mode.Closed? ==> e.ProbeReport? && e.succeeded)
            && (c.mode.Probing? && d != c ==>
                  || (e.Poll? && c.mode.until <= e.now && d.mode.Probing?)
                  || (e.ProbeReport? && e.version == c.version && e.token == c.mode.token && e.now < c.mode.until
                    && !d.mode.Probing?))
            && (c.mode.Closed? && d != c <==>
                  c.mode.Closed? && e.SendReport? && e.transientFailure && e.version == c.version)
            && (c.mode.Closed? && d != c ==> d == Circuit(Open(e.now + 30), c.version + 1))
            && (c.mode.Open? && d != c <==> c.mode.Open? && e.Poll? && c.mode.retryAt <= e.now)
  {
  }

  // ---- many workers holding the same permit ----

  predicate Quotes(e: Event, version: nat) {
    (e.ProbeReport? || e.SendReport?) && e.version == version
  }

  /** Reports quoting `version` that took effect. */
  function Effective(c: Circuit, es: seq<Event>, version: nat): nat
    decreases |es|
  {
    if es == [] then 0
    else (if Quotes(es[0], version) && Step(c, es[0]) != c then 1 else 0) + Effective(Step(c, es[0]), es[1..], version)
  }

  /** However many workers report under one permit, at most one report takes effect. */
  lemma {:induction false} OneReportPerPermit(c: Circuit, es: seq<Event>, version: nat)
    ensures Effective(c, es, version) <= if c.version <= version then 1 else 0
    decreases |es|
  {
    if es == [] {
    } else {
      OneReportPerPermit(Step(c, es[0]), es[1..], version);
    }
  }

  /** The circuit never stays open for good: after its deadline any poll obtains a probe. */
  lemma AlwaysProbed(c: Circuit, token: ProbeToken, now: Time)
    requires !c.mode.Closed? && now >= (if c.mode.Open? then c.mode.retryAt else c.mode.until)
    ensures Step(c, Poll(token, false, now)) == Circuit(Probing(token, now + PROBE_LEASE_SECONDS), c.version + 1)
  {
  }

  // ---- the runtime-state row and its transactions ----

  datatype ProviderState = StateClosed | StateOpen | StateProbing
  datatype Role = VerificationDelivery | SecurityNotification

  /** What a poll obtains: a permit to send, a permit to probe, or neither. */
  datatype Grant = MaySend(version: nat) | MayProbe(version: nat, token: ProbeToken) | Nothing

  datatype Row = Row(
    state: ProviderState, retryAt: Option<Time>, probeToken: Option<ProbeToken>, probeExpiresAt: Option<Time>,
      version: nat,
    deliveryHeartbeat: Option<Time>, notificationHeartbeat: Option<Time>)
  {
    /** The check constraints of the row. */
    predicate Shape() {
      && version >= 1
      && match state
         case StateClosed => retryAt.None? && probeToken.None? && probeExpiresAt.None?
         case StateOpen => retryAt.Some? && probeToken.None? && probeExpiresAt.None?
         case StateProbing => retryAt.None? && probeToken.Some? && probeExpiresAt.Some?
    }

    function AsCircuit(): Circuit
      requires Shape()
    {
      Circuit(
        match state
        case StateClosed => Closed
        case StateOpen => Open(retryAt.value)
        case StateProbing => Probing(probeToken.value, probeExpiresAt.value),
        version)
    }
  }

  /** The row after a poll, and what the worker may do: send while the circuit is closed or has just
      been bypassed, probe when the deadline of the circuit or of the last probe has passed. */
  ghost predicate Polled(before: Row, after: Row, role: Role, token: ProbeToken, bypass: bool, now: Time,
                         grant: Grant) {
    var seen := if role == VerificationDelivery then before.(deliveryHeartbeat := Some(now))
                else before.(notificationHeartbeat := Some(now));
    if before.state == StateClosed then after == seen && grant == MaySend(before.version)
    else if bypass then
      && after == seen.(state := StateClosed, retryAt := None, probeToken := None, probeExpiresAt := None,
                        version := before.version + 1)
      && grant == MaySend(before.version + 1)
    else if (before.retryAt.Some? && before.retryAt.value <= now)
         || (before.probeExpiresAt.Some? && before.probeExpiresAt.value <= now) then
      && after == seen.(state := StateProbing, retryAt := None, probeToken := Some(token),
                        probeExpiresAt := Some(now + 15), version := before.version + 1)
      && grant == MayProbe(before.version + 1, token)
    else after == seen && grant == Nothing
  }

  class Monitor {
    var row: Option<Row>
    const allowTestBackend: bool

    predicate Valid()
      reads this
    {
      row.Some? ==> row.value.Shape()
    }

    /** The circuit of the row; a missing row is created open and due at once. */
    function CircuitAt(now: Time): Circuit
      requires Valid()
      reads this
    {
      if row.Some? then row.value.AsCircuit() else Circuit(Open(now), 1)
    }

    constructor (allowTestBackend: bool)
      ensures Valid() && row.None? && this.allowTestBackend == allowTestBackend
    {
      row := None;
      this.allowTestBackend := allowTestBackend;
    }

    /** The transaction of a poll: records the heartbeat and grants a permit. */
    method PreparePoll(role: Role, token: ProbeToken, now: Time) returns (grant: Grant)
      requires Valid()
      modifies this
      ensures Valid() && row.Some?
      ensures row.value.AsCircuit() == Step(old(CircuitAt(now)), Poll(token, allowTestBackend, now))
      ensures grant == match row.value.AsCircuit().mode
                       case Closed => MaySend(row.value.version)
                       case Open(_) => Nothing
                       case Probing(_, _) =>
                         if row.value.AsCircuit() == old(CircuitAt(now)) then Nothing
                           else MayProbe(row.value.version, token)
      ensures (if role.VerificationDelivery? then row.value.deliveryHeartbeat else row.value.notificationHeartbeat)
        == Some(now)
      ensures old(row.Some?) ==>
                if role.VerificationDelivery?
                  then row.value.notificationHeartbeat == old(row).value.notificationHeartbeat
                else row.value.deliveryHeartbeat == old(row).value.deliveryHeartbeat
      // the same, read off the row
      ensures Polled(if old(row).Some? then old(row).value else Row(StateOpen, Some(now), None, None, 1, None, None),
                     row.value, role, token, allowTestBackend, now, grant)
    {
      if row.None? {
        row := Some(Row(StateOpen, Some(now), None, None, 1, None, None));
      }
      var state := row.value;
      state := if role.VerificationDelivery? then state.(deliveryHeartbeat := Some(now))
        else state.(notificationHeartbeat := Some(now));
      if allowTestBackend && !state.state.StateClosed? {
        state := state.(state := StateClosed, retryAt := None, probeToken := None, probeExpiresAt := None,
          version := state.version + 1);
      }
      if state.state.StateClosed? {
        row := Some(state);
        return MaySend(state.version);
      }
      grant := Nothing;
      if (state.state.StateOpen? && state.retryAt.Some? && state.retryAt.value <= now)
         || (state.state.StateProbing? && state.probeExpiresAt.Some? && state.probeExpiresAt.value <= now) {
        state := state.(state := StateProbing, retryAt := None, probeToken := Some(token),
                        probeExpiresAt := Some(now + PROBE_LEASE_SECONDS), version := state.version + 1);
        grant := MayProbe(state.version, token);
      }
      row := Some(state);
    }

    /** The transaction after a probe. */
    method FinishProbe(version: nat, token: ProbeToken, succeeded: bool, now: Time) returns (grant: Grant)
      requires Valid() && row.Some?
      modifies this
      ensures Valid() && row.Some?
      ensures row.value.AsCircuit() == Step(old(row.value.AsCircuit()), ProbeReport(version, token, succeeded, now))
      ensures grant == if row.value.AsCircuit() != old(row.value.AsCircuit())
        && succeeded then MaySend(row.value.version) else Nothing
      // the same, read off the row
      ensures var r := old(row).value;
              if r.state == StateProbing && r.version == version && r.probeToken == Some(token)
                && r.probeExpiresAt.Some? && now < r.probeExpiresAt.value
              then
                && row == Some(r.(state := if succeeded then StateClosed else StateOpen,
                                  retryAt := if succeeded then None else Some(now + 30),
                                  probeToken := None, probeExpiresAt := None, version := version + 1))
                && grant == if succeeded then MaySend(version + 1) else Nothing
              else row == old(row) && grant == Nothing
      ensures row.value.deliveryHeartbeat == old(row).value.deliveryHeartbeat
      ensures row.value.notificationHeartbeat == old(row).value.notificationHeartbeat
    {
      var state := row.value;
      if !state.state.StateProbing? || state.version != version || state.probeToken != Some(token)
         || state.probeExpiresAt.None? || state.probeExpiresAt.value <= now {
        return Nothing;
      }
      state := state.(probeToken := None, probeExpiresAt := None, version := state.version + 1);
      state := if succeeded then state.(state := StateClosed, retryAt := None)
               else state.(state := StateOpen, retryAt := Some(now + RETRY_SECONDS));
      row := Some(state);
      grant := if succeeded then MaySend(state.version) else Nothing;
    }

    /** The transaction after a send; only a transient provider failure matters here. */
    method FinishAttempt(version: nat, transientFailure: bool, now: Time)
      requires Valid() && row.Some?
      modifies this
      ensures Valid() && row.Some?
      ensures row.value.AsCircuit() == Step(old(row.value.AsCircuit()), SendReport(version, transientFailure, now))
      // the same, read off the row
      ensures !transientFailure ==> row == old(row)
      ensures row != old(row) <==> transientFailure && old(row).value.state == StateClosed
                                   && old(row).value.version == version
      ensures row != old(row) ==>
        row == Some(old(row).value.(state := StateOpen, retryAt := Some(now + 30), version := version + 1))
      ensures row.value.deliveryHeartbeat == old(row).value.deliveryHeartbeat
      ensures row.value.notificationHeartbeat == old(row).value.notificationHeartbeat
    {
      if !transientFailure {
        return;
      }
      var state := row.value;
      if !state.state.StateClosed? || state.version != version {
        return;
      }
      row := Some(state.(state := StateOpen, retryAt := Some(now + RETRY_SECONDS), probeToken := None,
        probeExpiresAt := None,
                         version := state.version + 1));
    }
  }
}
