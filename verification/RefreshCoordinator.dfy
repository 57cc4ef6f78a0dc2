/**
 The lock holder's part of the browser coordinator, written as the loop it is, and proved to move
 through the phases of `RefreshBrowser` only.
 */
module RefreshCoordinator {
  import opened Wrappers
  import opened RefreshChain
  import opened RefreshBrowser
  import RefreshTabs

  /** What one tab sees of the composed state. */
  datatype Local = Local(slot: Option<Pending>, owner: Option<Phase>)

  datatype Input =
    | Lock
    | Open(newKey: Key, now: Time)
    | Sent(now: Time, request: nat)
    | Reply(reply: RefreshChain.Reply)
    | Unreachable
    | Cleared
    | LoggedOut
    | Unlock

  predicate Allowed(l: Local, i: Input) {
    match i
    case Lock => l.owner.None?
    case Open(_, _) => l.owner == Some(Acquired)
    case Sent(_, _) => l.owner.Some? && l.owner.value.Holding?
    case Reply(_) => l.owner.Some? && l.owner.value.Awaiting?
    case Unreachable => l.owner.Some? && l.owner.value.Awaiting?
    case Cleared => l.owner.Some? && Clears(l.owner.value)
    case LoggedOut => l.owner == Some(LoggingOut)
    case Unlock => l.owner.Some? && (l.owner.value.Done? || (l.owner.value.Failing? && !Clears(l.owner.value)))
  }

  function Follow(l: Local, i: Input): Local
    requires Allowed(l, i)
  {
    match i
    case Lock => l.(owner := Some(Acquired))
    case Open(key, now) =>
      if l.slot.Some? then l.(owner := Some(Holding(l.slot.value)))
        else Local(Some(Pending(key, now)), Some(Holding(Pending(key, now))))
    case Sent(now, request) =>
      var p := l.owner.value.pending;
      l.(owner := Some(if now - p.createdAt > RETRY_WINDOW then Lapsed(p) else Awaiting(p, request)))
    case Reply(reply) =>
      var p := l.owner.value.pending;
      l.(owner := Some(match reply
                       case Refreshed(_, _, _, expiresIn, _) => if expiresIn <= 0 then Expired(p) else Accepted(p)
                       case Refused(code) => Failing(p, Some(code))))
    case Unreachable => l.(owner := Some(Failing(l.owner.value.pending, None)))
    case Cleared => Local(None, Some(ClearedPhase(l.owner.value)))
    case LoggedOut => Local(None, Some(Done))
    case Unlock => l.(owner := None)
  }

  function See(s: State): Local {
    Local(s.slot, s.owner)
  }

  /** Which input an event of the composed system is for the lock holder. */
  function InputOf(s: State, e: Event): Option<Input> {
    match e
    case Acquire => Some(Lock)
    case OpenSlot(key) => Some(Open(key, s.clock))
    case Send => Some(Sent(s.clock, s.nextRequest))
    case Receive(m) => Some(Reply(m.reply))
    case TransportFailure => Some(Unreachable)
    case ClearSlot => Some(Cleared)
    case AttemptLogout => if s.owner == Some(LoggingOut) then Some(LoggedOut) else None
    case Release => Some(Unlock)
    case _ => None
  }

  /** The lock holder's steps in the composed system are exactly the steps of the loop; the server,
      the clock and the account leave the tab alone. */
  lemma LocalSteps(s: State, e: Event)
    requires WellFormed(s.chain) && Enabled(s, e)
    ensures InputOf(s, e).Some? ==>
      Allowed(See(s), InputOf(s, e).value) && See(Step(s, e)) == Follow(See(s), InputOf(s, e).value)
    ensures e.Serve? || e.Tick? || e.Disturb? ==> InputOf(s, e).None? && See(Step(s, e)) == See(s)
  {
  }

  predicate Possible(l: Local, inputs: seq<Input>)
    decreases |inputs|
  {
    inputs == [] || (Allowed(l, inputs[0]) && Possible(Follow(l, inputs[0]), inputs[1..]))
  }

  function After(l: Local, inputs: seq<Input>): Local
    requires Possible(l, inputs)
    decreases |inputs|
  {
    if inputs == [] then l else After(Follow(l, inputs[0]), inputs[1..])
  }

  lemma {:induction false} OneMore(l: Local, inputs: seq<Input>, i: Input)
    requires Possible(l, inputs) && Allowed(After(l, inputs), i)
    ensures Possible(l, inputs + [i]) && After(l, inputs + [i]) == Follow(After(l, inputs), i)
    decreases |inputs|
  {
    if inputs == [] {
      assert inputs + [i] == [i];
    } else {
      assert (inputs + [i])[1..] == inputs[1..] + [i];
      OneMore(Follow(l, inputs[0]), inputs[1..], i);
    }
  }

  // ---- the loop ----

  /** What one turn of the loop meets: the time, a request number, the reply, if one arrives, and a
      fresh key with the time at which a new slot would be filled. */
  datatype Turn = Turn(now: Time, request: nat, reply: Option<RefreshChain.Reply>, newKey: Key, renewedAt: Time)

  datatype Outcome =
    | Completed(reply: RefreshChain.Reply)
    | Failure(code: Option<RefreshError>)
    | TooOld              // the pending key outlived the retry window
    | Interrupted         // the tab ended between two turns

  /** What the coordinator does outside itself. */
  datatype Act =
    | AcceptResult(reply: RefreshChain.Reply)
    | CallLogout
    | PostCompleted(reply: RefreshChain.Reply)
    | PostFailed(code: Option<RefreshError>)

  /** The key the slot holds, or the one it is filled with. */
  function FirstPending(slot: Option<Pending>, key: Key, now: Time): Pending {
    if slot.Some? then slot.value else Pending(key, now)
  }

  /** The pending key that turn i works on: the first one, or the one its predecessor renewed. */
  function PendingAt(first: Pending, turns: seq<Turn>, i: nat): Pending
    requires i <= |turns|
  {
    if i == 0 then first else Pending(turns[i - 1].newKey, turns[i - 1].renewedAt)
  }

  /** How a turn ends the loop; None means that it brought claims that already ran out. */
  function Verdict(pending: Pending, turn: Turn): Option<Outcome> {
    if turn.now - pending.createdAt > RETRY_WINDOW then Some(TooOld)
    else
      match turn.reply
      case None => Some(Failure(None))
      case Some(Refused(code)) => Some(Failure(Some(code)))
      case Some(Refreshed(token, s, a, expiresIn, maxAge)) =>
        if expiresIn <= 0 then None else Some(Completed(Refreshed(token, s, a, expiresIn, maxAge)))
  }

  /** The first `used` turns were met: each but the last renewed the key, the last one decided the
      outcome, and only a tab that ended between two turns has no decision. */
  predicate Decided(first: Pending, turns: seq<Turn>, used: nat, outcome: Outcome) {
    && used <= |turns|
    && (forall i :: 0 <= i < used - 1 ==> Verdict(PendingAt(first, turns, i), turns[i]).None?)
    && if outcome.Interrupted?
       then used == |turns| && (used > 0 ==> Verdict(PendingAt(first, turns, used - 1), turns[used - 1]).None?)
       else used > 0 && Verdict(PendingAt(first, turns, used - 1), turns[used - 1]) == Some(outcome)
  }

  /** What has been called and what the slot holds once the outcome is there, with the key of the
      last turn. */
  predicate LeftBehind(outcome: Outcome, pending: Pending, before: seq<Act>, acts: seq<Act>, slot: Option<Pending>) {
    match outcome
    case Completed(reply) =>
      reply.Refreshed? && reply.expiresIn > 0 && slot.None?
        && acts == before + [AcceptResult(reply), PostCompleted(reply)]
    case Failure(code) =>
      && slot == (if code.Some? && code.value != KeyInvalid then None else Some(pending))
      && acts == before + (if code == Some(IdempotencyConflict) || code == Some(Superseded) then [CallLogout] else [])
         + [PostFailed(code)]
    case TooOld => slot.None? && acts == before + [CallLogout, PostFailed(Some(Unavailable))]
    case Interrupted => slot == Some(pending) && acts == before
  }

  /** One attempt at the lock: granted, or a wait that ended with a message or with none. */
  datatype Attempt =
    | Granted(turns: seq<Turn>, firstKey: Key, start: Time)
    | Waited(message: Option<RefreshTabs.Message>)

  /** What a granted attempt comes to after `met` of its turns. */
  predicate Refreshes(a: Attempt, slot: Option<Pending>, acts: seq<Act>, met: nat, outcome: Outcome,
                      slotAfter: Option<Pending>, actsAfter: seq<Act>)
    requires a.Granted?
  {
    var first := FirstPending(slot, a.firstKey, a.start);
    && Decided(first, a.turns, met, outcome)
    && LeftBehind(outcome, PendingAt(first, a.turns, if outcome.Interrupted? then met else met - 1),
                  acts, actsAfter, slotAfter)
  }

  /** What the first attempt that did not wait in vain comes to. */
  predicate Comes(a: Attempt, slot: Option<Pending>, acts: seq<Act>, met: nat, outcome: Outcome,
                  slotAfter: Option<Pending>, actsAfter: seq<Act>) {
    match a
    case Granted(_, _, _) => Refreshes(a, slot, acts, met, outcome, slotAfter, actsAfter)
    case Waited(None) => false
    case Waited(Some(RefreshCompleted(reply))) =>
      outcome == Completed(reply) && slotAfter == slot && actsAfter == acts + [AcceptResult(reply)]
    case Waited(Some(RefreshFailed(code))) =>
      outcome == Failure(Some(code)) && slotAfter == slot && actsAfter == acts
  }

  /** At most one outcome fits the turns. */
  lemma DecidedOnce(first: Pending, turns: seq<Turn>, m: nat, one: Outcome, n: nat, other: Outcome)
    requires Decided(first, turns, m, one) && Decided(first, turns, n, other)
    ensures m == n && one == other
  {
  }

  /** Whether the key of turn i is at most a day old when its request would be sent. */
  predicate InWindow(first: Pending, turns: seq<Turn>, i: nat)
    requires i < |turns|
  {
    turns[i].now - (if i == 0 then first.createdAt else turns[i - 1].renewedAt) <= 86400
  }

  predicate RanOut(turn: Turn) {
    turn.reply.Some? && turn.reply.value.Refreshed? && turn.reply.value.expiresIn <= 0
  }

  /** What the outcome says about the turns: each one before the last was sent within a day and
      brought claims that had run out; the last one was too old, or went unanswered, or was refused,
      or brought claims that still run. */
  lemma OutcomeMeans(first: Pending, turns: seq<Turn>, used: nat, outcome: Outcome)
    ensures Decided(first, turns, used, outcome)
            <==> && used <= |turns|
                 && (forall i :: 0 <= i < used - 1 ==> InWindow(first, turns, i) && RanOut(turns[i]))
                 && match outcome
                    case Interrupted => used == |turns| && (used > 0 ==> InWindow(first, turns, used - 1)
                                                                         && RanOut(turns[used - 1]))
                    case TooOld => used > 0 && !InWindow(first, turns, used - 1)
                    case Failure(code) =>
                      && used > 0 && InWindow(first, turns, used - 1)
                      && turns[used - 1].reply
                         == (if code.Some? then Some(Refused(code.value)) else None)
                    case Completed(reply) =>
                      && used > 0 && InWindow(first, turns, used - 1)
                      && turns[used - 1].reply == Some(reply) && reply.Refreshed? && reply.expiresIn > 0
  {
    forall i | 0 <= i < |turns|
      ensures Verdict(PendingAt(first, turns, i), turns[i])
              == if !InWindow(first, turns, i) then Some(TooOld)
                 else if turns[i].reply.None? then Some(Failure(None))
                 else if turns[i].reply.value.Refused? then Some(Failure(Some(turns[i].reply.value.code)))
                 else if RanOut(turns[i]) then None else Some(Completed(turns[i].reply.value))
    {
    }
  }

  /** The times and numbers of the requests among the inputs. */
  function Sends(inputs: seq<Input>): seq<(Time, nat)> {
    if inputs == [] then []
    else
      var last := inputs[|inputs| - 1];
      Sends(inputs[..|inputs| - 1]) + if last.Sent? then [(last.now, last.request)] else []
  }

  /** The replies among the inputs. */
  function Replies(inputs: seq<Input>): seq<RefreshChain.Reply> {
    if inputs == [] then []
    else
      var last := inputs[|inputs| - 1];
      Replies(inputs[..|inputs| - 1]) + if last.Reply? then [last.reply] else []
  }

  function SentIn(turns: seq<Turn>): seq<(Time, nat)> {
    seq(|turns|, i requires 0 <= i < |turns| => (turns[i].now, turns[i].request))
  }

  /** The replies of the turns; none is taken by a turn whose key is too old. */
  function RepliesIn(first: Pending, turns: seq<Turn>): seq<RefreshChain.Reply> {
    if turns == [] then []
    else
      var n := |turns| - 1;
      RepliesIn(first, turns[..n])
      + if Verdict(PendingAt(first, turns, n), turns[n]) == Some(TooOld) || turns[n].reply.None? then []
        else [turns[n].reply.value]
  }

  class Owner {
    var slot: Option<Pending>
    var acts: seq<Act>

    constructor ()
      ensures slot.None? && acts == []
    {
      slot, acts := None, [];
    }

    method GetOrCreatePending(newKey: Key, now: Time) returns (pending: Pending)
      modifies this`slot
      ensures slot == Some(pending)
      ensures pending == if old(slot.Some?) then old(slot).value else Pending(newKey, now)
    {
      if slot.None? {
        slot := Some(Pending(newKey, now));
      }
      pending := slot.value;
    }

    /** Refreshes as the lock holder until a turn settles it.  The turns decide the outcome; the
        inputs are a path through the phases that takes exactly the requests and replies of the
        turns used: a result is accepted and posted only with claims that still run, a conflict or a
        superseded request logs out after clearing the slot, and only an invalid key or a missing
        reply leaves the pending key in place. */
    method RefreshAsOwner(turns: seq<Turn>, firstKey: Key, start: Time)
      returns (outcome: Outcome, ghost used: nat, ghost inputs: seq<Input>)
      modifies this
      ensures Decided(FirstPending(old(slot), firstKey, start), turns, used, outcome)
      ensures Possible(Local(old(slot), None), inputs)
      ensures Sends(inputs) == SentIn(turns[..used])
      ensures Replies(inputs) == RepliesIn(FirstPending(old(slot), firstKey, start), turns[..used])
      ensures After(Local(old(slot), None), inputs).slot == slot
      ensures outcome.Interrupted? <==> After(Local(old(slot), None), inputs).owner.Some?
      ensures LeftBehind(outcome, PendingAt(FirstPending(old(slot), firstKey, start), turns,
                                         if outcome.Interrupted? then used else used - 1),
                      old(acts), acts, slot)
    {
      hide Possible, After, Sends, Replies, RepliesIn, SentIn, Verdict, Decided, LeftBehind, PendingAt;
      ghost var l := Local(slot, None);
      ghost var first := FirstPending(slot, firstKey, start);
      inputs := [];
      NothingYet(l);
      NoTurns(first, turns);
      inputs := Took(l, inputs, Lock);
      inputs := Took(l, inputs, Open(firstKey, start));
      var pending := GetOrCreatePending(firstKey, start);
      for i := 0 to |turns|
        invariant Possible(l, inputs) && After(l, inputs) == Local(slot, Some(Holding(pending)))
        invariant slot == Some(pending) && pending == PendingAt(first, turns, i)
        invariant forall k :: 0 <= k < i ==> Verdict(PendingAt(first, turns, k), turns[k]).None?
        invariant Sends(inputs) == SentIn(turns[..i]) && Replies(inputs) == RepliesIn(first, turns[..i])
        invariant acts == old(acts)
      {
        var turn := turns[i];
        used := i + 1;
        OneTurn(first, turns, i);
        DecidedAt(first, turns, i);
        inputs := Took(l, inputs, Sent(turn.now, turn.request));
        if turn.now - pending.createdAt > RETRY_WINDOW {
          outcome := TooOld;
          inputs := Lapse(l, inputs, pending);
          return;
        }
        if turn.reply.None? {
          outcome := Failure(None);
          inputs := Unanswered(l, inputs, pending, turn.request);
          return;
        }
        inputs := Took(l, inputs, Reply(turn.reply.value));
        match turn.reply.value
        case Refused(code) =>
          outcome := Failure(Some(code));
          inputs := FailWith(code, l, inputs, pending);
          return;
        case Refreshed(_, _, _, expiresIn, _) =>
          if expiresIn <= 0 {
            pending, inputs := Renew(turn.newKey, turn.renewedAt, l, inputs, pending);
          } else {
            outcome := Completed(turn.reply.value);
            inputs := Accept(turn.reply.value, l, inputs, pending);
            return;
          }
      }
      outcome, used := Interrupted, |turns|;
      DecidedAt(first, turns, used);
      Untouched(pending, acts);
    }

    /** Refreshes together with the other tabs: as the lock holder, or else waiting for what the
        holder posts.  Only a wait in vain starts over; the first attempt that comes to something
        decides.  A waiting tab hands the posted result to its page and does nothing else. */
    method CoordinatedRefresh(attempts: seq<Attempt>) returns (outcome: Outcome, ghost tried: nat, ghost met: nat)
      modifies this
      ensures tried <= |attempts| && forall i :: 0 <= i < tried ==> attempts[i] == Waited(None)
      ensures tried == |attempts| ==> outcome.Interrupted? && slot == old(slot) && acts == old(acts)
      ensures tried < |attempts| ==> Comes(attempts[tried], old(slot), old(acts), met, outcome, slot, acts)
    {
      met := 0;
      for i := 0 to |attempts|
        invariant forall k :: 0 <= k < i ==> attempts[k] == Waited(None)
        invariant slot == old(slot) && acts == old(acts)
      {
        tried := i;
        match attempts[i]
        case Granted(turns, firstKey, start) =>
          ghost var inputs;
          outcome, met, inputs := RefreshAsOwner(turns, firstKey, start);
          return;
        case Waited(None) =>
        case Waited(Some(RefreshCompleted(reply))) =>
          acts := acts + [AcceptResult(reply)];
          outcome := Completed(reply);
          return;
        case Waited(Some(RefreshFailed(code))) =>
          outcome := Failure(Some(code));
          return;
      }
      outcome, tried := Interrupted, |attempts|;
    }

    /** Without a reply the pending key stays. */
    method Unanswered(ghost l: Local, ghost before: seq<Input>, ghost p: Pending, ghost request: nat)
      returns (ghost inputs: seq<Input>)
      requires Possible(l, before) && After(l, before) == Local(slot, Some(Awaiting(p, request))) && slot == Some(p)
      modifies this`acts
      ensures Possible(l, inputs) && After(l, inputs) == Local(slot, None)
      ensures Sends(inputs) == Sends(before) && Replies(inputs) == Replies(before)
      ensures LeftBehind(Failure(None), p, old(acts), acts, slot)
    {
      hide Possible, After, Sends, Replies;
      inputs := Took(l, before, Unreachable);
      inputs := Took(l, inputs, Unlock);
      acts := acts + [PostFailed(None)];
    }

    /** Claims that already ran out: the key is dropped and a new one takes its place. */
    method Renew(newKey: Key, now: Time, ghost l: Local, ghost before: seq<Input>, ghost p: Pending)
      returns (pending: Pending, ghost inputs: seq<Input>)
      requires Possible(l, before) && After(l, before) == Local(slot, Some(Expired(p)))
      modifies this`slot
      ensures Possible(l, inputs) && After(l, inputs) == Local(slot, Some(Holding(pending)))
      ensures Sends(inputs) == Sends(before) && Replies(inputs) == Replies(before)
      ensures pending == Pending(newKey, now) && slot == Some(pending)
    {
      hide Possible, After, Sends, Replies;
      slot := None;
      inputs := Took(l, before, Cleared);
      inputs := Took(l, inputs, Open(newKey, now));
      pending := GetOrCreatePending(newKey, now);
    }

    /** Claims that still run: the page gets them, the key is dropped, the other tabs are told. */
    method Accept(reply: RefreshChain.Reply, ghost l: Local, ghost before: seq<Input>, ghost p: Pending)
      returns (ghost inputs: seq<Input>)
      requires Possible(l, before) && After(l, before) == Local(slot, Some(Accepted(p)))
      requires reply.Refreshed? && reply.expiresIn > 0
      modifies this
      ensures Possible(l, inputs) && After(l, inputs) == Local(slot, None) && slot.None?
      ensures Sends(inputs) == Sends(before) && Replies(inputs) == Replies(before)
      ensures LeftBehind(Completed(reply), p, old(acts), acts, slot)
    {
      hide Possible, After, Sends, Replies;
      acts := acts + [AcceptResult(reply)];
      slot := None;
      inputs := Took(l, before, Cleared);
      acts := acts + [PostCompleted(reply)];
      inputs := Took(l, inputs, Unlock);
    }

    /** A pending key older than the retry window is dropped and the session logged out. */
    method Lapse(ghost l: Local, ghost before: seq<Input>, ghost p: Pending) returns (ghost inputs: seq<Input>)
      requires Possible(l, before) && After(l, before) == Local(slot, Some(Lapsed(p)))
      modifies this
      ensures Possible(l, inputs) && After(l, inputs) == Local(slot, None) && slot.None?
      ensures Sends(inputs) == Sends(before) && Replies(inputs) == Replies(before)
      ensures LeftBehind(TooOld, p, old(acts), acts, slot)
    {
      hide Possible, After, Sends, Replies;
      slot := None;
      inputs := Took(l, before, Cleared);
      inputs := Took(l, inputs, LoggedOut);
      acts := acts + [CallLogout, PostFailed(Some(Unavailable))];
      inputs := Took(l, inputs, Unlock);
    }

    /** What a stable error code of the server leads to. */
    method FailWith(code: RefreshError, ghost l: Local, ghost before: seq<Input>, ghost p: Pending)
      returns (ghost inputs: seq<Input>)
      requires Possible(l, before) && After(l, before) == Local(slot, Some(Failing(p, Some(code)))) && slot == Some(p)
      modifies this
      ensures Possible(l, inputs) && After(l, inputs) == Local(slot, None)
      ensures Sends(inputs) == Sends(before) && Replies(inputs) == Replies(before)
      ensures LeftBehind(Failure(Some(code)), p, old(acts), acts, slot)
    {
      hide Possible, After, Sends, Replies;
      inputs := before;
      if code == IdempotencyConflict || code == Superseded {
        slot := None;
        inputs := Took(l, inputs, Cleared);
        acts := acts + [CallLogout];
        inputs := Took(l, inputs, LoggedOut);
      } else if code == Unavailable || code == SessionRevoked {
        slot := None;
        inputs := Took(l, inputs, Cleared);
      }
      acts := acts + [PostFailed(Some(code))];
      inputs := Took(l, inputs, Unlock);
    }
  }

  lemma NothingYet(l: Local)
    ensures Possible(l, []) && After(l, []) == l && Sends([]) == [] && Replies([]) == []
  {
  }

  lemma NoTurns(first: Pending, turns: seq<Turn>)
    ensures SentIn(turns[..0]) == [] && RepliesIn(first, turns[..0]) == [] && PendingAt(first, turns, 0) == first
  {
  }

  lemma Untouched(pending: Pending, acts: seq<Act>)
    ensures LeftBehind(Interrupted, pending, acts, acts, Some(pending))
  {
  }

  /** After i turns that all renewed the key, the next one decides if it decides anything. */
  lemma DecidedAt(first: Pending, turns: seq<Turn>, i: nat)
    requires i <= |turns| && forall k :: 0 <= k < i ==> Verdict(PendingAt(first, turns, k), turns[k]).None?
    ensures i == |turns| ==> Decided(first, turns, i, Interrupted)
    ensures i < |turns| && Verdict(PendingAt(first, turns, i), turns[i]).Some? ==>
              Decided(first, turns, i + 1, Verdict(PendingAt(first, turns, i), turns[i]).value)
  {
    hide PendingAt;
  }

  /** One more turn: its request, and its reply unless its key is too old. */
  lemma OneTurn(first: Pending, turns: seq<Turn>, i: nat)
    requires i < |turns|
    ensures turns[..i + 1][..i] == turns[..i]
    ensures SentIn(turns[..i + 1]) == SentIn(turns[..i]) + [(turns[i].now, turns[i].request)]
    ensures var p := PendingAt(first, turns, i); var turn := turns[i];
            && RepliesIn(first, turns[..i + 1])
               == RepliesIn(first, turns[..i])
                  + (if turn.now - p.createdAt > RETRY_WINDOW || turn.reply.None? then [] else [turn.reply.value])
            && PendingAt(first, turns, i + 1) == Pending(turn.newKey, turn.renewedAt)
            && Verdict(p, turn)
               == if turn.now - p.createdAt > RETRY_WINDOW then Some(TooOld)
                  else if turn.reply.None? then Some(Failure(None))
                  else if turn.reply.value.Refused? then Some(Failure(Some(turn.reply.value.code)))
                  else if turn.reply.value.expiresIn <= 0 then None else Some(Completed(turn.reply.value))
  {
    assert turns[..i + 1][..i] == turns[..i];
  }

  lemma Took(l: Local, inputs: seq<Input>, i: Input) returns (more: seq<Input>)
    requires Possible(l, inputs) && Allowed(After(l, inputs), i)
    ensures more == inputs + [i] && Possible(l, more) && After(l, more) == Follow(After(l, inputs), i)
    ensures Sends(more) == Sends(inputs) + if i.Sent? then [(i.now, i.request)] else []
    ensures Replies(more) == Replies(inputs) + if i.Reply? then [i.reply] else []
  {
    more := inputs + [i];
    assert more[..|inputs|] == inputs;
    OneMore(l, inputs, i);
  }
}
