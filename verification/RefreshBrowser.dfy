/**
 Browser and server composed.

 One browser profile shares a refresh cookie, a one-slot store for the pending idempotency key and
 a lock over all its tabs.  The lock holder runs the coordinator's loop; each constructor of `Phase`
 is one of its suspension points, where the tab may crash.  Requests may be lost, delayed and
 duplicated (they stay in `requests` for good); a response reaches the sender that still waits for
 it, or nobody.
 */
module RefreshBrowser {
  import opened Wrappers
  import opened RefreshChain

  const RETRY_WINDOW: nat := 24 * 60 * 60

  datatype Pending = Pending(key: Key, createdAt: Time)

  datatype Phase =
    | Acquired                                            // about to read or create the slot
    | Holding(pending: Pending)                           // at the head of the loop
    | Awaiting(pending: Pending, request: nat)            // the request is out
    | Expired(pending: Pending)                           // got claims that already ran out
    | Accepted(pending: Pending)                          // result handed to the page
    | Failing(pending: Pending, code: Option<RefreshError>)
    | Lapsed(pending: Pending)                            // the key is older than the retry window
    | LoggingOut                                          // slot cleared, logout still to be sent
    | Done                                                // about to post and release the lock

  datatype Request = Request(id: nat, key: Key, credential: Id)
  datatype Response = Response(request: nat, reply: Reply)

  datatype State = State(
    chain: Chain, accountActive: bool, clock: Time, replays: nat,
    cookie: Id, slot: Option<Pending>, owner: Option<Phase>,
    requests: set<Request>, responses: set<Response>, nextRequest: nat,
    keys: set<Key>,          // every key ever created
    refused: nat,            // refusals received
    lapsed: bool,            // a pending key outlived the retry window
    careless: bool,          // a tab crashed between taking its result and clearing the slot
    stranded: bool,          // a tab crashed before its logout, at a dangerous moment
    disturbed: bool)         // a logout was attempted, the account changed, or the password was reset

  datatype Event =
    | Acquire
    | OpenSlot(newKey: Key)
    | Send
    | Serve(r: Request, next: Id)
    | Receive(response: Response)
    | TransportFailure
    | ClearSlot
    | AttemptLogout
    | Release
    | Crash
    | Tick(seconds: nat)
    | Disturb(chain: Chain, accountActive: bool)

  function ClearedPhase(p: Phase): Phase {
    match p
    case Expired(_) => Acquired
    case Accepted(_) => Done
    case Lapsed(_) => LoggingOut
    case Failing(_, code) =>
      if code == Some(IdempotencyConflict) || code == Some(Superseded) then LoggingOut else Done
    case _ => p
  }

  /** The phases that clear the slot next. */
  predicate Clears(p: Phase) {
    || p.Expired? || p.Accepted? || p.Lapsed?
    || (p.Failing? && p.code.Some? && p.code.value != KeyInvalid)
  }

  /** With its slot cleared, the browser holds a used credential or will hold one as soon as a
      request in flight is served. */
  ghost predicate Dangerous(s: State)
    requires |s.chain.ids| >= 1
  {
    s.cookie != Last(s.chain) || exists r :: r in s.requests && r.key !in s.chain.settled
  }

  /** The page has its result, the slot still holds the key. */
  predicate Delivered(p: Phase) {
    p.Accepted? || p.Expired?
  }

  ghost predicate Enabled(s: State, e: Event) {
    match e
    case Acquire => s.owner.None?
    case OpenSlot(key) => s.owner == Some(Acquired) && key !in s.keys
    case Send => s.owner.Some? && s.owner.value.Holding?
    case Serve(r, next) => r in s.requests && r.credential in s.chain.ids && next !in s.chain.ids
    case Receive(m) =>
      && m in s.responses
      && s.owner.Some? && s.owner.value.Awaiting? && s.owner.value.request == m.request
    case TransportFailure => s.owner.Some? && s.owner.value.Awaiting?
    case ClearSlot => s.owner.Some? && Clears(s.owner.value)
    case AttemptLogout => true
    case Release =>
      s.owner.Some? && (s.owner.value.Done? || (s.owner.value.Failing? && !Clears(s.owner.value)))
    case Crash => s.owner.Some?
    case Tick(_) => true
    case Disturb(c, _) => WellFormed(c)
  }

  ghost function Step(s: State, e: Event): State
    requires WellFormed(s.chain) && Enabled(s, e)
  {
    match e
    case Acquire => s.(owner := Some(Acquired))
    case OpenSlot(key) =>
      if s.slot.Some? then s.(owner := Some(Holding(s.slot.value)))
      else
        var p := Pending(key, s.clock);
        s.(slot := Some(p), owner := Some(Holding(p)), keys := s.keys + {key})
    case Send =>
      var p := s.owner.value.pending;
      if s.clock - p.createdAt > RETRY_WINDOW then s.(owner := Some(Lapsed(p)), lapsed := true)
      else s.(
        owner := Some(Awaiting(p, s.nextRequest)), nextRequest := s.nextRequest + 1,
        requests := s.requests + {Request(s.nextRequest, p.key, s.cookie)})
    case Serve(r, next) =>
      var c := CaseOf(s.chain, r.credential, r.key, s.accountActive, s.clock);
      var reply := Answer(s.chain, r.credential, r.key, s.accountActive, s.clock, next, s.clock);
      s.(chain := Refresh(s.chain, r.credential, r.key, s.accountActive, s.clock, next),
         responses := s.responses + {Response(r.id, reply)},
         replays := s.replays + if c.Replayed? then 1 else 0)
    case Receive(m) =>
      var p := s.owner.value.pending;
      (match m.reply
       case Refreshed(token, _, _, expiresIn, _) =>
         s.(cookie := token.credential, owner := Some(if expiresIn <= 0 then Expired(p) else Accepted(p)))
       case Refused(code) => s.(owner := Some(Failing(p, Some(code))), refused := s.refused + 1))
    case TransportFailure => s.(owner := Some(Failing(s.owner.value.pending, None)))
    case ClearSlot => s.(slot := None, owner := Some(ClearedPhase(s.owner.value)))
    case AttemptLogout =>
      s.(slot := None, owner := if s.owner == Some(LoggingOut) then Some(Done) else s.owner, disturbed := true)
    case Release => s.(owner := None)
    case Crash => s.(
      owner := None,
      careless := s.careless || Delivered(s.owner.value),
      stranded := s.stranded || (s.owner.value.LoggingOut? && Dangerous(s)))
    case Tick(n) => s.(clock := s.clock + n)
    case Disturb(c, active) => s.(chain := c, accountActive := active, disturbed := true)
  }

  // ---- the invariant ----

  /** No logout attempted, no account change, no tab stranded, family not expired. */
  predicate Quiet(s: State) {
    !s.disturbed && !s.stranded && s.clock < s.chain.expiresAt
  }

  ghost predicate KeysKnown(s: State) {
    && (s.slot.Some? ==> s.slot.value.key in s.keys)
    && (forall r :: r in s.requests ==> r.key in s.keys && r.id < s.nextRequest)
    && (forall a, b :: a in s.requests && b in s.requests && a.id == b.id ==> a == b)
    && (forall m :: m in s.responses ==> m.request < s.nextRequest)
  }

  /** The pending key won the last generation. */
  ghost predicate SlotWonLast(s: State)
    requires |s.chain.ids| >= 1
  {
    && s.slot.Some? && s.slot.value.key in s.chain.settled && s.chain.settled[s.slot.value.key].Won?
    && s.chain.settled[s.slot.value.key].predecessor == |s.chain.ids| - 1
  }

  /** The cookie is current, or one behind: then the pending key already won its replacement, or
      the slot is cleared and a logout is due. */
  ghost predicate CookieTracks(s: State)
    requires |s.chain.ids| >= 1
  {
    var n := |s.chain.ids|;
    || s.cookie == Last(s.chain)
    || (n >= 2 && s.cookie == s.chain.ids[n - 2] && (s.owner == Some(LoggingOut) || SlotWonLast(s)))
  }

  /** A request in flight is settled, or carries the pending key and the current credential. */
  ghost predicate RequestSafe(s: State, r: Request)
    requires |s.chain.ids| >= 1
  {
    || r.key in s.chain.settled
    || (r.credential == Last(s.chain) && s.cookie == Last(s.chain)
        && if s.slot.Some? then s.slot.value.key == r.key else s.owner == Some(LoggingOut))
  }

  ghost predicate UnsettledAgree(s: State) {
    forall a, b :: a in s.requests && b in s.requests && a.key !in s.chain.settled && b.key !in s.chain.settled
      ==> a.key == b.key
  }

  ghost predicate ReplySafe(s: State, p: Pending, reply: Reply)
    requires |s.chain.ids| >= 1
  {
    && p.key in s.chain.settled
    && match reply
       case Refreshed(token, _, _, _, _) => token.credential == Last(s.chain)
       case Refused(code) => code == IdempotencyConflict && s.cookie == Last(s.chain)
  }

  ghost predicate OwnerSafe(s: State)
    requires |s.chain.ids| >= 1
  {
    s.owner.Some? ==>
      match s.owner.value
      case Holding(p) => s.slot == Some(p)
      case Awaiting(p, id) =>
        && s.slot == Some(p)
        && Request(id, p.key, s.cookie) in s.requests
        && (forall m :: m in s.responses && m.request == id ==> ReplySafe(s, p, m.reply))
      case Expired(p) => s.slot == Some(p) && p.key in s.chain.settled && s.cookie == Last(s.chain)
      case Accepted(p) => s.slot == Some(p) && p.key in s.chain.settled && s.cookie == Last(s.chain)
      case Failing(p, code) =>
        && s.slot == Some(p)
        && (code.Some? ==>
            && code.value == IdempotencyConflict && p.key in s.chain.settled && s.cookie == Last(s.chain))
      case Lapsed(p) => s.slot == Some(p)
      case LoggingOut => s.slot.None?
      case _ => true
  }

  ghost predicate QuietInv(s: State)
    requires |s.chain.ids| >= 1
  {
    && s.chain.ended.None? && s.accountActive && s.replays == 0
    && KeysKnown(s) && CookieTracks(s) && OwnerSafe(s) && UnsettledAgree(s)
    && (forall k :: k in s.chain.settled ==> k in s.keys && s.chain.settled[k].Won?)
    && (forall r :: r in s.requests ==> r.credential in s.chain.ids && RequestSafe(s, r))
  }

  ghost predicate Inv(s: State) {
    WellFormed(s.chain) && (Quiet(s) ==> QuietInv(s))
  }

  ghost predicate Init(s: State)
    ensures Init(s) ==> Inv(s)
  {
    && WellFormed(s.chain) && |s.chain.ids| == 1 && s.chain.ended.None? && s.chain.settled == map[]
    && s.accountActive && s.replays == 0 && s.cookie == s.chain.ids[0]
    && s.slot.None? && s.owner.None? && s.requests == {} && s.responses == {}
    && s.refused == 0 && !s.lapsed && !s.careless && !s.stranded && !s.disturbed
  }

  // ---- preservation, server side ----

  lemma ServeRotates(s: State, r: Request, next: Id)
    requires WellFormed(s.chain) && Quiet(s) && QuietInv(s)
    requires Enabled(s, Serve(r, next)) && r.key !in s.chain.settled
    ensures QuietInv(Step(s, Serve(r, next)))
  {
    var t := Step(s, Serve(r, next));
    assert RequestSafe(s, r);
    assert t.chain.ids == s.chain.ids + [next];
    forall q | q in t.requests ensures RequestSafe(t, q) {
      assert RequestSafe(s, q);
    }
  }

  lemma ServeRepeats(s: State, r: Request, next: Id)
    requires WellFormed(s.chain) && Quiet(s) && QuietInv(s)
    requires Enabled(s, Serve(r, next)) && r.key in s.chain.settled
    ensures QuietInv(Step(s, Serve(r, next)))
  {
    var t := Step(s, Serve(r, next));
    forall q | q in t.requests ensures RequestSafe(t, q) {
      assert RequestSafe(s, q);
    }
  }

  // ---- preservation, browser side ----

  /** Sending is safe: either the pending key is settled, or the cookie is current. */
  lemma SendKeeps(s: State)
    requires WellFormed(s.chain) && Quiet(s) && QuietInv(s) && Enabled(s, Send)
    ensures QuietInv(Step(s, Send))
  {
    var t := Step(s, Send);
    SendKeepsRequests(s);
    assert KeysKnown(t);
    assert CookieTracks(t) && OwnerSafe(t) by {
      hide UnsettledAgree, RequestSafe;
    }
  }

  lemma SendKeepsRequests(s: State)
    requires WellFormed(s.chain) && Quiet(s) && QuietInv(s) && Enabled(s, Send)
    ensures var t := Step(s, Send);
            && UnsettledAgree(t)
            && forall r :: r in t.requests ==> r.credential in t.chain.ids && RequestSafe(t, r)
  {
    hide KeysKnown;
    var t := Step(s, Send);
    forall q | q in t.requests ensures q.credential in t.chain.ids && RequestSafe(t, q) {
      assert q in s.requests ==> RequestSafe(s, q);
    }
    assert forall q :: q in t.requests && q.key !in t.chain.settled ==> q.key == t.slot.value.key;
  }

  /** Clearing the slot is safe: its key is settled and the cookie is current, or a logout is due. */
  lemma ClearKeeps(s: State)
    requires WellFormed(s.chain) && Quiet(s) && QuietInv(s) && Enabled(s, ClearSlot)
    ensures QuietInv(Step(s, ClearSlot))
  {
    var t := Step(s, ClearSlot);
    forall q | q in t.requests ensures RequestSafe(t, q) {
      assert RequestSafe(s, q);
    }
  }

  /** Events that leave the server, the requests and the slot alone. */
  predicate Moves(e: Event) {
    e.Acquire? || e.Receive? || e.TransportFailure? || e.Release? || e.Crash? || e.Tick?
  }

  lemma MovesKeepRequests(s: State, e: Event)
    requires WellFormed(s.chain) && Quiet(s) && QuietInv(s) && Enabled(s, e) && Moves(e)
    requires Quiet(Step(s, e))
    ensures var t := Step(s, e);
            && UnsettledAgree(t) && CookieTracks(t)
            && forall r :: r in t.requests ==> RequestSafe(t, r)
  {
    hide KeysKnown;
    var t := Step(s, e);
    forall r | r in t.requests ensures RequestSafe(t, r) {
      assert RequestSafe(s, r);
    }
  }

  lemma MovesKeep(s: State, e: Event)
    requires WellFormed(s.chain) && Quiet(s) && QuietInv(s) && Enabled(s, e) && Moves(e)
    requires Quiet(Step(s, e))
    ensures QuietInv(Step(s, e))
  {
    hide UnsettledAgree, RequestSafe, CookieTracks;
    MovesKeepRequests(s, e);
  }

  lemma OpenKeeps(s: State, key: Key)
    requires WellFormed(s.chain) && Quiet(s) && QuietInv(s) && Enabled(s, OpenSlot(key))
    ensures QuietInv(Step(s, OpenSlot(key)))
  {
    var t := Step(s, OpenSlot(key));
    forall r | r in t.requests ensures RequestSafe(t, r) {
      assert RequestSafe(s, r);
    }
  }

  lemma QuietBefore(s: State, e: Event)
    requires WellFormed(s.chain) && Enabled(s, e) && Quiet(Step(s, e))
    ensures Quiet(s) && !e.Disturb? && !e.AttemptLogout?
  {
    hide WellFormed, Answer;
  }

  lemma StepKeeps(s: State, e: Event)
    requires Inv(s) && Enabled(s, e)
    ensures Inv(Step(s, e))
  {
    hide QuietInv, WellFormed, Refresh, Answer, CaseOf, Quiet;
    var t := Step(s, e);
    if e.Serve? {
      RefreshKeeps(s.chain, e.r.credential, e.r.key, s.accountActive, s.clock, e.next);
    }
    if Quiet(t) {
      QuietBefore(s, e);
      match e
      case Serve(r, next) =>
        if r.key in s.chain.settled { ServeRepeats(s, r, next); } else { ServeRotates(s, r, next); }
      case Send => SendKeeps(s);
      case ClearSlot => ClearKeeps(s);
      case OpenSlot(key) => OpenKeeps(s, key);
      case _ => MovesKeep(s, e);
    }
  }

  // ---- whole runs ----

  ghost predicate ValidRun(s: State, es: seq<Event>)
    requires Inv(s)
    decreases |es|
  {
    es == [] || (Enabled(s, es[0]) && (StepKeeps(s, es[0]); ValidRun(Step(s, es[0]), es[1..])))
  }

  ghost function Run(s: State, es: seq<Event>): State
    requires Inv(s) && ValidRun(s, es)
    decreases |es|
  {
    if es == [] then s else
      StepKeeps(s, es[0]);
      Run(Step(s, es[0]), es[1..])
  }

  lemma {:induction false} RunInv(s: State, es: seq<Event>)
    requires Inv(s) && ValidRun(s, es)
    ensures Inv(Run(s, es))
    decreases |es|
  {
    if es == [] {
    } else {
      StepKeeps(s, es[0]);
      RunInv(Step(s, es[0]), es[1..]);
    }
  }

  /** However requests are lost, delayed or duplicated, whichever tabs crash and however long a key
      stays pending, until the first logout attempt, account change, expiry of the family or
      stranding of a tab: the server never takes a request for a replay, the family stays alive,
      and the generation advanced exactly once per key that won. */
  lemma ReplayNeverFires(s: State, es: seq<Event>)
    requires Init(s) && ValidRun(s, es) && Quiet(Run(s, es))
    ensures var t := Run(s, es);
            && t.replays == 0 && t.chain.ended.None?
            && |t.chain.ids| == 1 + |Wins(t.chain)|
            && Wins(t.chain) <= t.keys
  {
    RunInv(s, es);
  }

  /** Whenever a page has been handed a result, the browser holds the current credential. */
  lemma AcceptedIsCurrent(s: State, es: seq<Event>)
    requires Init(s) && ValidRun(s, es) && Quiet(Run(s, es))
    requires Run(s, es).owner.Some? && Run(s, es).owner.value.Accepted?
    ensures |Run(s, es).chain.ids| >= 1 && Run(s, es).cookie == Last(Run(s, es).chain)
  {
    RunInv(s, es);
  }

  // ---- refusals ----

  /** A request sent now and served next is refused if and only if its key is already settled
      while the cookie is current: somebody took the result without clearing the slot. */
  lemma RefusedIff(s: State, next: Id, m: Response)
    requires Inv(s) && Quiet(s) && s.owner.Some? && s.owner.value.Holding?
    requires s.clock - s.owner.value.pending.createdAt <= RETRY_WINDOW && next !in s.chain.ids
    ensures var p := s.owner.value.pending; var r := Request(s.nextRequest, p.key, s.cookie); var t := Step(s, Send);
            && Enabled(t, Serve(r, next))
            && (m in Step(t, Serve(r, next)).responses && m.request == r.id ==>
                (m.reply.Refused? <==> p.key in s.chain.settled && s.cookie == Last(s.chain)))
  {
    hide UnsettledAgree, RequestSafe;
  }

  /** Unless a tab crashed between its result and the clearing of the slot, a settled pending key
      under a current cookie is about to be cleared, and no reply on its way is a refusal. */
  ghost predicate Careful(s: State)
    requires |s.chain.ids| >= 1
  {
    && s.refused == 0
    && (s.slot.Some? && s.slot.value.key in s.chain.settled && s.cookie == Last(s.chain) ==>
        s.owner.Some? && Delivered(s.owner.value))
    && (s.owner.Some? && s.owner.value.Awaiting? ==>
        forall m :: m in s.responses && m.request == s.owner.value.request ==> m.reply.Refreshed?)
    && (s.owner.Some? && s.owner.value.Failing? ==> s.owner.value.code.None?)
    && (s.owner == Some(LoggingOut) || (s.owner.Some? && s.owner.value.Lapsed?) ==> s.lapsed)
  }

  ghost predicate CarefulInv(s: State)
    requires |s.chain.ids| >= 1
  {
    Quiet(s) && !s.careless ==> Careful(s)
  }

  lemma ServeStaysCareful(s: State, r: Request, next: Id)
    requires WellFormed(s.chain) && Quiet(s) && QuietInv(s) && Careful(s) && Enabled(s, Serve(r, next))
    ensures Careful(Step(s, Serve(r, next)))
  {
    hide UnsettledAgree;
    assert RequestSafe(s, r);
  }

  lemma BrowserStaysCareful(s: State, e: Event)
    requires WellFormed(s.chain) && Quiet(s) && QuietInv(s) && Careful(s) && Enabled(s, e)
    requires !e.Serve? && !e.Disturb? && !e.AttemptLogout?
    requires Quiet(Step(s, e)) && !Step(s, e).careless
    ensures Careful(Step(s, e))
  {
    hide UnsettledAgree, RequestSafe, WellFormed;
  }

  lemma StaysCareful(s: State, e: Event)
    requires Inv(s) && CarefulInv(s) && Enabled(s, e)
    ensures Inv(Step(s, e)) && CarefulInv(Step(s, e))
  {
    hide QuietInv, Careful, Quiet, Refresh, Answer, CaseOf;
    StepKeeps(s, e);
    var t := Step(s, e);
    if Quiet(t) && !t.careless {
      QuietBefore(s, e);
      match e
      case Serve(r, next) => ServeStaysCareful(s, r, next);
      case _ => BrowserStaysCareful(s, e);
    }
  }

  lemma {:induction false} RunStaysCareful(s: State, es: seq<Event>)
    requires Inv(s) && CarefulInv(s) && ValidRun(s, es)
    ensures Inv(Run(s, es)) && CarefulInv(Run(s, es))
    decreases |es|
  {
    hide QuietInv, CarefulInv;
    if es == [] {
    } else {
      StaysCareful(s, es[0]);
      RunStaysCareful(Step(s, es[0]), es[1..]);
    }
  }

  /** Only a tab that crashed between its result and the clearing of the slot brings about a
      refusal, and nothing but a refusal or a lapsed key makes the browser log itself out. */
  lemma RefusedOnlyIfCareless(s: State, es: seq<Event>)
    requires Init(s) && ValidRun(s, es) && Quiet(Run(s, es)) && !Run(s, es).careless
    ensures var t := Run(s, es); t.refused == 0 && (t.owner == Some(LoggingOut) ==> t.lapsed)
  {
    RunStaysCareful(s, es);
  }

  // ---- runs continued from a given state ----

  lemma {:induction false} Then(s: State, es: seq<Event>, t: State, e: Event)
    requires Inv(s) && ValidRun(s, es) && Run(s, es) == t && Inv(t) && Enabled(t, e)
    ensures Inv(Step(t, e)) && WellFormed(Step(t, e).chain)
    ensures ValidRun(s, es + [e]) && Run(s, es + [e]) == Step(t, e)
    decreases |es|
  {
    hide QuietInv, WellFormed;
    StepKeeps(t, e);
    if es == [] {
      assert es + [e] == [e];
    } else {
      StepKeeps(s, es[0]);
      Then(Step(s, es[0]), es[1..], t, e);
      assert (es + [e])[1..] == es[1..] + [e];
    }
  }

  /** With no tab holding the lock, the next one opens the slot and sends its key. */
  lemma NextTabSends(s: State, es0: seq<Event>, t0: State, key: Key) returns (es: seq<Event>, t: State)
    requires Inv(s) && ValidRun(s, es0) && Run(s, es0) == t0 && Inv(t0) && WellFormed(t0.chain)
    requires t0.owner.None? && key !in t0.keys
    ensures es == es0 + [Acquire, OpenSlot(key), Send]
    ensures ValidRun(s, es) && Run(s, es) == t && Inv(t) && WellFormed(t.chain)
    ensures var p := if t0.slot.Some? then t0.slot.value else Pending(key, t0.clock);
            var keys := if t0.slot.Some? then t0.keys else t0.keys + {key};
            t == Step(t0.(owner := Some(Holding(p)), slot := Some(p), keys := keys), Send)
  {
    hide Inv, QuietInv, WellFormed, Run, ValidRun, Dangerous;
    Then(s, es0, t0, Acquire);
    es, t := es0 + [Acquire], Step(t0, Acquire);
    Then(s, es, t, OpenSlot(key));
    es, t := es + [OpenSlot(key)], Step(t, OpenSlot(key));
    Then(s, es, t, Send);
    es, t := es + [Send], Step(t, Send);
  }

  lemma Nothing(s: State)
    requires Inv(s)
    ensures WellFormed(s.chain) && ValidRun(s, []) && Run(s, []) == s
  {
  }

  /** What a tab at Accepted or Expired leaves behind. */
  lemma ResultTaken(s: State)
    requires Inv(s) && Quiet(s) && s.owner.Some? && Delivered(s.owner.value)
    ensures |s.chain.ids| >= 1 && s.slot == Some(s.owner.value.pending) && s.cookie == Last(s.chain)
    ensures s.cookie in s.chain.ids && s.accountActive
    ensures var key := s.owner.value.pending.key;
            && Sound(s.chain, key) && s.chain.settled[key].Won?
            && s.chain.ids[s.chain.settled[key].predecessor - 1] != s.cookie
  {
    var p := s.chain.settled[s.owner.value.pending.key].predecessor;
    assert s.chain.ids[p - 1] != s.chain.ids[|s.chain.ids| - 1];
  }

  lemma ServeConflict(s: State, r: Request, next: Id)
    requires WellFormed(s.chain) && Enabled(s, Serve(r, next))
    requires Sound(s.chain, r.key) && s.chain.settled[r.key].Won?
    requires s.chain.ids[s.chain.settled[r.key].predecessor - 1] != r.credential
    ensures Step(s, Serve(r, next)) == s.(responses := s.responses + {Response(r.id, Refused(IdempotencyConflict))})
  {
    hide WellFormed;
  }

  /** A refusal comes back and the browser clears its slot. */
  lemma ConflictLogsOut(s: State, es0: seq<Event>, t0: State, r: Request, next: Id) returns (es: seq<Event>, t: State)
    requires Inv(s) && ValidRun(s, es0) && Run(s, es0) == t0 && Inv(t0) && WellFormed(t0.chain)
    requires t0.owner.Some? && t0.owner.value.Awaiting? && t0.owner.value.request == r.id
    requires Enabled(t0, Serve(r, next)) && Sound(t0.chain, r.key) && t0.chain.settled[r.key].Won?
    requires t0.chain.ids[t0.chain.settled[r.key].predecessor - 1] != r.credential
    ensures es == es0 + [Serve(r, next), Receive(Response(r.id, Refused(IdempotencyConflict))), ClearSlot]
    ensures ValidRun(s, es) && Run(s, es) == t && Inv(t) && t.owner == Some(LoggingOut)
    ensures t.refused == t0.refused + 1 && (Quiet(t0) ==> Quiet(t))
  {
    hide Inv, QuietInv, WellFormed, Run, ValidRun, Dangerous, Refresh, Answer, CaseOf;
    ServeConflict(t0, r, next);
    Then(s, es0, t0, Serve(r, next));
    es, t := es0 + [Serve(r, next)], Step(t0, Serve(r, next));
    var m := Response(r.id, Refused(IdempotencyConflict));
    Then(s, es, t, Receive(m));
    es, t := es + [Receive(m)], Step(t, Receive(m));
    Then(s, es, t, ClearSlot);
    es, t := es + [ClearSlot], Step(t, ClearSlot);
  }

  /** Wherever the server and the browser stand: when a tab crashes between its result and the
      clearing of the slot, the next tab logs the browser out although nothing went wrong.  Within
      the retry window it does so because it is told IDEMPOTENCY_CONFLICT. */
  lemma CrashBeforeClearLogsOut(s: State, key: Key, next: Id)
    requires Inv(s) && Quiet(s) && s.owner.Some? && Delivered(s.owner.value)
    requires key !in s.keys && next !in s.chain.ids
    ensures exists es :: es != [] && es[0] == Crash && ValidRun(s, es)
              && var t := Run(s, es);
              && Quiet(t) && t.owner == Some(LoggingOut)
              && (s.clock - s.owner.value.pending.createdAt <= RETRY_WINDOW ==> t.refused == s.refused + 1)
  {
    hide Inv, QuietInv, WellFormed, Run, ValidRun, Dangerous, Refresh, Answer, CaseOf;
    ResultTaken(s);
    Nothing(s);
    var p := s.owner.value.pending;
    Then(s, [], s, Crash);
    var es, t := NextTabSends(s, [] + [Crash], Step(s, Crash), key);
    if s.clock - p.createdAt <= RETRY_WINDOW {
      var r := Request(s.nextRequest, p.key, s.cookie);
      assert r in t.requests;
      es, t := ConflictLogsOut(s, es, t, r, next);
    } else {
      Then(s, es, t, ClearSlot);
      es, t := es + [ClearSlot], Step(t, ClearSlot);
    }
    assert es[0] == Crash;
  }

  /** A settled key in the slot behind a current cookie, and no tab that has a result for it. */
  ghost predicate Stuck(s: State)
    requires |s.chain.ids| >= 1
  {
    && s.slot.Some? && Sound(s.chain, s.slot.value.key) && s.chain.settled[s.slot.value.key].Won?
    && s.cookie == Last(s.chain) && s.chain.ids[s.chain.settled[s.slot.value.key].predecessor - 1] != s.cookie
    && (s.owner.Some? ==>
          match s.owner.value
          case Acquired => true
          case Holding(_) => true
          case Awaiting(_, id) =>
            forall m :: m in s.responses && m.request == id ==> m.reply == Refused(IdempotencyConflict)
          case Failing(_, code) => code == None || code == Some(IdempotencyConflict)
          case Lapsed(_) => true
          case _ => false)
  }

  lemma StuckServes(s: State, r: Request, next: Id)
    requires WellFormed(s.chain) && Quiet(s) && QuietInv(s) && Stuck(s) && Enabled(s, Serve(r, next))
    ensures Stuck(Step(s, Serve(r, next)))
  {
    hide UnsettledAgree, CookieTracks;
    assert RequestSafe(s, r);
  }

  lemma StuckMoves(s: State, e: Event)
    requires WellFormed(s.chain) && Quiet(s) && QuietInv(s) && Stuck(s) && Enabled(s, e)
    requires !e.Serve? && !e.Disturb? && !e.AttemptLogout?
    ensures Stuck(Step(s, e)) || Step(s, e).owner == Some(LoggingOut)
  {
    hide UnsettledAgree, CookieTracks, RequestSafe, WellFormed;
  }

  /** The browser reaches its logout in the course of the run. */
  ghost predicate LogsOut(s: State, es: seq<Event>)
    requires Inv(s) && ValidRun(s, es)
    decreases |es|
  {
    es != [] && (
      StepKeeps(s, es[0]);
      Step(s, es[0]).owner == Some(LoggingOut) || LogsOut(Step(s, es[0]), es[1..]))
  }

  lemma {:induction false} StuckUntilLogout(s: State, es: seq<Event>)
    requires Inv(s) && Stuck(s) && ValidRun(s, es) && Quiet(Run(s, es))
    ensures Inv(Run(s, es)) && (LogsOut(s, es) || Stuck(Run(s, es)))
    decreases |es|
  {
    hide QuietInv, Stuck, Quiet;
    RunInv(s, es);
    if es != [] {
      StepKeeps(s, es[0]);
      QuietAlong(Step(s, es[0]), es[1..]);
      QuietBefore(s, es[0]);
      if es[0].Serve? {
        StuckServes(s, es[0].r, es[0].next);
      } else {
        StuckMoves(s, es[0]);
      }
      if Stuck(Step(s, es[0])) {
        StuckUntilLogout(Step(s, es[0]), es[1..]);
      }
    }
  }

  lemma {:induction false} QuietAlong(s: State, es: seq<Event>)
    requires Inv(s) && ValidRun(s, es) && Quiet(Run(s, es))
    ensures Quiet(s)
    decreases |es|
  {
    hide QuietInv, Quiet;
    if es != [] {
      StepKeeps(s, es[0]);
      QuietAlong(Step(s, es[0]), es[1..]);
      QuietBefore(s, es[0]);
    }
  }

  /** After such a crash no page gets a result any more before the browser logs itself out, however
      many tabs try and whatever else happens. */
  lemma NoResultBeforeLogout(s: State, es: seq<Event>)
    requires Inv(s) && Quiet(s) && s.owner.Some? && Delivered(s.owner.value)
    requires ValidRun(s, [Crash] + es) && Quiet(Run(s, [Crash] + es))
    ensures LogsOut(s, [Crash] + es)
            || (Run(s, [Crash] + es).owner.Some? ==> !Delivered(Run(s, [Crash] + es).owner.value))
  {
    hide QuietInv;
    ResultTaken(s);
    StepKeeps(s, Crash);
    assert ([Crash] + es)[1..] == es;
    StuckUntilLogout(Step(s, Crash), es);
  }

  // ---- stranded tabs ----

  /** Nothing in `es` crashes, logs out or touches the account. */
  predicate Undisturbed(es: seq<Event>) {
    forall e :: e in es ==> !e.Crash? && !e.AttemptLogout? && !e.Disturb?
  }

  lemma {:induction false} StaysQuiet(s: State, es: seq<Event>)
    requires Inv(s) && !s.disturbed && !s.stranded && ValidRun(s, es) && Undisturbed(es)
    ensures !Run(s, es).disturbed && !Run(s, es).stranded
    decreases |es|
  {
    hide QuietInv, WellFormed;
    if es == [] {
    } else {
      StepKeeps(s, es[0]);
      StaysQuiet(Step(s, es[0]), es[1..]);
    }
  }

  /** The run `es` crashes a tab, is undisturbed from then on, and has a request taken for a replay. */
  ghost predicate ReplaysAfterCrash(s: State, es: seq<Event>)
    requires Inv(s)
  {
    && es != [] && es[0] == Crash && Undisturbed(es[1..]) && ValidRun(s, es)
    && var t := Run(s, es); t.clock < t.chain.expiresAt && t.replays > 0
  }

  /** A browser with an empty slot and a used credential: the next key is taken for a replay. */
  lemma StaleReplays(s: State, es0: seq<Event>, t0: State, key: Key, next: Id) returns (es: seq<Event>, t: State)
    requires Inv(s) && ValidRun(s, es0) && Run(s, es0) == t0 && Inv(t0) && WellFormed(t0.chain)
    requires t0.owner.None? && t0.slot.None? && key !in t0.keys && key !in t0.chain.settled
    requires t0.cookie in t0.chain.ids && t0.cookie != Last(t0.chain) && next !in t0.chain.ids
    ensures es == es0 + [Acquire, OpenSlot(key), Send, Serve(Request(t0.nextRequest, key, t0.cookie), next)]
    ensures ValidRun(s, es) && Run(s, es) == t
    ensures t.replays == t0.replays + 1 && t.clock == t0.clock && t.chain.expiresAt == t0.chain.expiresAt
  {
    hide Inv, QuietInv, WellFormed, Run, ValidRun, Dangerous;
    es, t := NextTabSends(s, es0, t0, key);
    var r := Request(t0.nextRequest, key, t0.cookie);
    assert r in t.requests;
    Then(s, es, t, Serve(r, next));
    es, t := es + [Serve(r, next)], Step(t, Serve(r, next));
  }

  lemma ServeRotatesTo(s: State, r: Request, next: Id)
    requires WellFormed(s.chain) && Enabled(s, Serve(r, next))
    requires r.key !in s.chain.settled && r.credential == Last(s.chain) && Usable(s.chain, s.accountActive, s.clock)
    ensures var t := Step(s, Serve(r, next));
            && t == s.(chain := t.chain, responses := t.responses)
            && t.chain.ids == s.chain.ids + [next] && t.chain.expiresAt == s.chain.expiresAt
            && t.chain.settled.Keys == s.chain.settled.Keys + {r.key}
  {
    hide WellFormed, Answer;
  }

  /** What a tab about to log out stands on. */
  lemma LogoutDue(s: State)
    requires Inv(s) && Quiet(s) && s.owner == Some(LoggingOut)
    ensures WellFormed(s.chain) && |s.chain.ids| >= 1 && s.replays == 0 && s.slot.None?
    ensures s.cookie in s.chain.ids && Usable(s.chain, s.accountActive, s.clock)
    ensures s.chain.settled.Keys <= s.keys
    ensures forall r :: r in s.requests ==> r.key in s.keys && r.credential in s.chain.ids
    ensures forall r :: r in s.requests && r.key !in s.chain.settled ==>
              r.credential == Last(s.chain) && s.cookie == Last(s.chain)
  {
    forall r | r in s.requests ensures RequestSafe(s, r) {
    }
  }

  lemma DangerReplays(s: State, key: Key, next: Id, later: Id) returns (es: seq<Event>)
    requires Inv(s) && Quiet(s) && s.owner == Some(LoggingOut) && Dangerous(s)
    requires key !in s.keys && next !in s.chain.ids && later !in s.chain.ids && next != later
    ensures ReplaysAfterCrash(s, es)
  {
    hide Inv, QuietInv, WellFormed, Run, ValidRun, Refresh, Answer, CaseOf;
    LogoutDue(s);
    Nothing(s);
    Then(s, [], s, Crash);
    var t: State;
    es, t := [] + [Crash], Step(s, Crash);
    if s.cookie == Last(s.chain) {
      var r :| r in s.requests && r.key !in s.chain.settled;
      ServeRotatesTo(t, r, next);
      Then(s, es, t, Serve(r, next));
      es, t := es + [Serve(r, next)], Step(t, Serve(r, next));
    }
    es, t := StaleReplays(s, es, t, key, later);
  }

  /** Exactly when a crash before the logout ends the guarantee: when the credential the browser
      keeps is used already, or a request still in flight will use it. */
  lemma StrandedIff(s: State, key: Key, next: Id, later: Id)
    requires Inv(s) && Quiet(s) && s.owner == Some(LoggingOut)
    requires key !in s.keys && next !in s.chain.ids && later !in s.chain.ids && next != later
    ensures Dangerous(s) <==> exists es :: ReplaysAfterCrash(s, es)
  {
    hide QuietInv;
    if Dangerous(s) {
      var es := DangerReplays(s, key, next, later);
    } else {
      forall es | ReplaysAfterCrash(s, es) ensures false {
        StepKeeps(s, Crash);
        var t := Step(s, Crash);
        StaysQuiet(t, es[1..]);
        RunInv(t, es[1..]);
        QuietMeans(Run(t, es[1..]));
      }
    }
  }

  lemma QuietMeans(s: State)
    requires Inv(s) && Quiet(s)
    ensures s.replays == 0
  {
  }

  /** Such moments come about: a lapsed key whose reply never arrived leads to one. */
  lemma LapseIsDangerous(s: State, first: Key, second: Key, next: Id)
    requires Init(s) && s.clock + RETRY_WINDOW + 1 < s.chain.expiresAt
    requires first !in s.keys && second !in s.keys && first != second && next !in s.chain.ids
    ensures exists es :: ValidRun(s, es)
              && var t := Run(s, es); Inv(t) && Quiet(t) && t.owner == Some(LoggingOut) && Dangerous(t)
  {
    hide Inv, QuietInv, WellFormed, Run, ValidRun, Refresh, Answer, CaseOf;
    Nothing(s);
    var es, t := NextTabSends(s, [], s, first);
    var r := Request(s.nextRequest, first, s.cookie);
    assert r in t.requests;
    ServeRotatesTo(t, r, next);
    Then(s, es, t, Serve(r, next));
    es, t := es + [Serve(r, next)], Step(t, Serve(r, next));
    Then(s, es, t, Crash);
    es, t := es + [Crash], Step(t, Crash);
    Then(s, es, t, Tick(RETRY_WINDOW + 1));
    es, t := es + [Tick(RETRY_WINDOW + 1)], Step(t, Tick(RETRY_WINDOW + 1));
    es, t := NextTabSends(s, es, t, second);
    Then(s, es, t, ClearSlot);
    es, t := es + [ClearSlot], Step(t, ClearSlot);
    assert t.cookie != Last(t.chain);
  }
}
