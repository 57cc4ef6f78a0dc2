/**
 All tabs of one browser profile.  One of them holds the lock and refreshes as in `RefreshBrowser`;
 the others listen for what it posts, for ten seconds at most, and then try the lock again.
 */
module RefreshTabs {
  import opened Wrappers
  import opened RefreshChain
  import B = RefreshBrowser

  type Tab = nat

  const OWNER_WAIT: nat := 10

  /** What the lock holder posts at the end. */
  datatype Message = RefreshCompleted(reply: Reply) | RefreshFailed(code: RefreshError)

  datatype TabState =
    | Idle
    | Waiting(until: Time, inbox: Option<Message>)       // the first message that came
    | Owning(end: Option<Message>, posted: bool)         // what its attempt has come to, if anything
    | Ended(message: Message)

  datatype Group = Group(browser: B.State, lock: Option<Tab>, tabs: map<Tab, TabState>, posts: seq<Message>)

  datatype Event =
    | World(e: B.Event)         // the server, the clock, the account, a logout on request
    | TryLock(tab: Tab)
    | Act(tab: Tab, e: B.Event) // a step of the lock holder's loop
    | Post(tab: Tab)
    | Leave(tab: Tab)           // the lock holder returns or throws
    | Deliver(tab: Tab)
    | TimeOut(tab: Tab)
    | Die(tab: Tab)

  predicate OfWorld(e: B.Event) {
    e.Serve? || e.Tick? || e.Disturb? || e.AttemptLogout?
  }

  predicate OfOwner(s: B.State, e: B.Event) {
    || e.OpenSlot? || e.Send? || e.Receive? || e.TransportFailure? || e.ClearSlot?
    || (e.AttemptLogout? && s.owner == Some(B.LoggingOut))
  }

  /** What the attempt of the lock holder has come to after its step. */
  function EndAfter(s: B.State, e: B.Event, end: Option<Message>): Option<Message>
    requires e.Send? ==> s.owner.Some? && s.owner.value.Holding?
  {
    match e
    case Send => if s.clock - s.owner.value.pending.createdAt > B.RETRY_WINDOW then Some(RefreshFailed(Unavailable))
      else end
    case TransportFailure => Some(RefreshFailed(Unavailable))
    case Receive(m) =>
      (match m.reply
       case Refused(code) => Some(RefreshFailed(code))
       case Refreshed(_, _, _, expiresIn, _) => if expiresIn <= 0 then end else Some(RefreshCompleted(m.reply)))
    case _ => end
  }

  ghost predicate Enabled(g: Group, e: Event) {
    match e
    case World(b) => OfWorld(b) && B.Enabled(g.browser, b)
    case TryLock(t) => t in g.tabs && (g.tabs[t].Idle? || g.tabs[t].Ended?)
    case Act(t, b) => t in g.tabs && g.tabs[t].Owning? && OfOwner(g.browser, b) && B.Enabled(g.browser, b)
    case Post(t) =>
      t in g.tabs && g.tabs[t].Owning? && !g.tabs[t].posted && g.tabs[t].end.Some? && B.Enabled(g.browser, B.Release)
    case Leave(t) => t in g.tabs && g.tabs[t].Owning? && g.tabs[t].posted && B.Enabled(g.browser, B.Release)
    case Deliver(t) => t in g.tabs && g.tabs[t].Waiting? && g.tabs[t].inbox.Some?
    case TimeOut(t) => t in g.tabs && g.tabs[t].Waiting? && g.tabs[t].until <= g.browser.clock
    case Die(t) => t in g.tabs
  }

  /** A posted message reaches every channel that is open; the first one decides. */
  function Broadcast(tabs: map<Tab, TabState>, m: Message): map<Tab, TabState> {
    map t | t in tabs ::
      if tabs[t].Waiting? && tabs[t].inbox.None? then tabs[t].(inbox := Some(m)) else tabs[t]
  }

  // ---- the invariant ----

  /** Exactly the lock holder runs the loop, and what it posted is its end. */
  ghost predicate Locked(g: Group) {
    && (g.lock.Some? <==> g.browser.owner.Some?)
    && (g.lock.Some? ==> g.lock.value in g.tabs)
    && (forall t :: t in g.tabs ==> (g.tabs[t].Owning? <==> g.lock == Some(t)))
    && (forall t :: t in g.tabs && g.tabs[t].Owning? && g.tabs[t].posted ==> g.tabs[t].end.Some?)
  }

  /** The lock holder has come to an end exactly when its phase says so. */
  ghost predicate EndFits(g: Group, t: Tab)
    requires t in g.tabs && g.tabs[t].Owning? && g.browser.owner.Some?
  {
    Fits(g.browser.owner.value, g.tabs[t].end)
  }

  predicate Fits(p: B.Phase, end: Option<Message>) {
    match p
    case Acquired => end.None?
    case Holding(_) => end.None?
    case Awaiting(_, _) => end.None?
    case Expired(_) => end.None?
    case Accepted(_) => end.Some? && end.value.RefreshCompleted?
    case Failing(_, code) => end == Some(RefreshFailed(if code.Some? then code.value else Unavailable))
    case Lapsed(_) => end == Some(RefreshFailed(Unavailable))
    case LoggingOut => end.Some? && end.value.RefreshFailed?
    case Done => end.Some?
  }

  /** The message says what the server answered: a reply with claims that still ran, or a refusal; or
      that there was no answer. */
  ghost predicate Genuine(s: B.State, m: Message) {
    match m
    case RefreshCompleted(reply) =>
      reply.Refreshed? && reply.expiresIn > 0 && exists r :: r in s.responses && r.reply == reply
    case RefreshFailed(code) => code == Unavailable || exists r :: r in s.responses && r.reply == Refused(code)
  }

  ghost predicate TabFine(g: Group, t: Tab)
    requires t in g.tabs
  {
    match g.tabs[t]
    case Idle => true
    case Waiting(_, inbox) => inbox.Some? ==> inbox.value in g.posts
    case Owning(end, posted) =>
      && (end.Some? ==> Genuine(g.browser, end.value))
      && (g.browser.owner.Some? ==> EndFits(g, t))
      && (posted ==> end.Some? && end.value in g.posts && B.Enabled(g.browser, B.Release))
    case Ended(m) => m in g.posts
  }

  ghost predicate Inv(g: Group) {
    && B.Inv(g.browser) && Locked(g)
    && (forall t :: t in g.tabs ==> TabFine(g, t))
    && (forall m :: m in g.posts ==> Genuine(g.browser, m))
  }

  ghost predicate Init(g: Group)
    ensures Init(g) ==> Inv(g)
  {
    B.Init(g.browser) && g.lock.None? && g.posts == [] && forall t :: t in g.tabs ==> g.tabs[t].Idle?
  }

  // ---- steps ----

  ghost function Step(g: Group, e: Event): Group
    requires Inv(g) && Enabled(g, e)
  {
    match e
    case World(b) => g.(browser := B.Step(g.browser, b))
    case TryLock(t) =>
      if g.lock.None?
      then g.(browser := B.Step(g.browser, B.Acquire), lock := Some(t), tabs := g.tabs[t := Owning(None, false)])
      else g.(tabs := g.tabs[t := Waiting(g.browser.clock + OWNER_WAIT, None)])
    case Act(t, b) =>
      g.(browser := B.Step(g.browser, b), tabs := g.tabs[t := g.tabs[t].(end := EndAfter(g.browser, b, g.tabs[t].end))])
    case Post(t) =>
      g.(tabs := Broadcast(g.tabs, g.tabs[t].end.value)[t := g.tabs[t].(posted := true)],
        posts := g.posts + [g.tabs[t].end.value])
    case Leave(t) =>
      g.(browser := B.Step(g.browser, B.Release), lock := None, tabs := g.tabs[t := Ended(g.tabs[t].end.value)])
    case Deliver(t) => g.(tabs := g.tabs[t := Ended(g.tabs[t].inbox.value)])
    case TimeOut(t) => g.(tabs := g.tabs[t := Idle])
    case Die(t) =>
      if g.tabs[t].Owning?
      then g.(browser := B.Step(g.browser, B.Crash), lock := None, tabs := g.tabs[t := Idle])
      else g.(tabs := g.tabs[t := Idle])
  }

  /** What an event of the group is for the browser as a whole. */
  ghost function Project(g: Group, e: Event): seq<B.Event>
    requires Enabled(g, e)
  {
    match e
    case World(b) => [b]
    case TryLock(_) => if g.lock.None? then [B.Acquire] else []
    case Act(_, b) => [b]
    case Leave(_) => [B.Release]
    case Die(t) => if g.tabs[t].Owning? then [B.Crash] else []
    case _ => []
  }

  /** The group moves the browser only along the steps of `RefreshBrowser`. */
  lemma StepProjects(g: Group, e: Event)
    requires Inv(g) && Enabled(g, e)
    ensures |Project(g, e)| <= 1
    ensures Project(g, e) == [] ==> Step(g, e).browser == g.browser
    ensures |Project(g, e)| == 1 ==>
              B.Enabled(g.browser, Project(g, e)[0]) && Step(g, e).browser == B.Step(g.browser, Project(g, e)[0])
  {
    hide B.Inv, WellFormed;
  }

  // ---- preservation ----

  lemma ResponsesStay(s: B.State, e: B.Event, m: Message)
    requires WellFormed(s.chain) && B.Enabled(s, e) && Genuine(s, m)
    ensures Genuine(B.Step(s, e), m)
  {
    hide WellFormed;
    assert s.responses <= B.Step(s, e).responses;
  }

  lemma AllStay(g: Group, e: B.Event)
    requires WellFormed(g.browser.chain) && B.Enabled(g.browser, e) && forall t :: t in g.tabs ==> TabFine(g, t)
    requires forall m :: m in g.posts ==> Genuine(g.browser, m)
    ensures forall m :: m in g.posts ==> Genuine(B.Step(g.browser, e), m)
    ensures forall t :: t in g.tabs && g.tabs[t].Owning? && g.tabs[t].end.Some? ==>
              Genuine(B.Step(g.browser, e), g.tabs[t].end.value)
  {
    hide WellFormed, Genuine, B.Step, B.Enabled;
    forall m | Genuine(g.browser, m) ensures Genuine(B.Step(g.browser, e), m) {
      ResponsesStay(g.browser, e, m);
    }
  }

  lemma WorldKeeps(g: Group, e: B.Event)
    requires Inv(g) && Enabled(g, World(e))
    ensures Inv(Step(g, World(e)))
  {
    hide B.QuietInv, WellFormed, Genuine, Refresh, Answer, CaseOf;
    B.StepKeeps(g.browser, e);
    AllStay(g, e);
  }

  /** The phase of the holder after its slot is opened or cleared, its request sent or its logout. */
  lemma PhaseAfter(s: B.State, e: B.Event)
    requires WellFormed(s.chain) && B.Enabled(s, e) && OfOwner(s, e) && s.owner.Some?
    requires e.OpenSlot? || e.Send? || e.ClearSlot? || e.AttemptLogout?
    ensures B.Step(s, e).owner.Some?
    ensures var p, q := s.owner.value, B.Step(s, e).owner.value;
            && (e.OpenSlot? ==> p.Acquired? && q.Holding?)
            && (e.Send? ==>
               p.Holding? && if s.clock - p.pending.createdAt > B.RETRY_WINDOW then q.Lapsed? else q.Awaiting?)
            && (e.ClearSlot? ==> B.Clears(p) && q == B.ClearedPhase(p))
            && (e.AttemptLogout? ==> p.LoggingOut? && q.Done?)
  {
    hide WellFormed, B.Clears, B.ClearedPhase;
  }

  /** The phase of the holder after the reply, or without one. */
  lemma PhaseAfterReply(s: B.State, e: B.Event)
    requires WellFormed(s.chain) && B.Enabled(s, e) && s.owner.Some? && (e.Receive? || e.TransportFailure?)
    ensures s.owner.value.Awaiting? && B.Step(s, e).owner.Some?
    ensures var q := B.Step(s, e).owner.value;
            && (e.TransportFailure? ==> q.Failing? && q.code.None?)
            && (e.Receive? && e.response.reply.Refused? ==> q.Failing? && q.code == Some(e.response.reply.code))
            && (e.Receive? && e.response.reply.Refreshed? ==>
               if e.response.reply.expiresIn <= 0 then q.Expired? else q.Accepted?)
  {
    hide WellFormed;
  }

  /** A step of the loop keeps what the holder has come to in step with its phase. */
  lemma PhaseFits(s: B.State, e: B.Event, end: Option<Message>)
    requires WellFormed(s.chain) && B.Enabled(s, e) && OfOwner(s, e)
    requires s.owner.Some? && Fits(s.owner.value, end)
    ensures B.Step(s, e).owner.Some? && Fits(B.Step(s, e).owner.value, EndAfter(s, e, end))
  {
    hide WellFormed, B.Step, B.Enabled;
    if e.Receive? || e.TransportFailure? { PhaseAfterReply(s, e); } else { PhaseAfter(s, e); }
  }

  /** A step of the loop leaves the holder in the lock. */
  lemma ActFits(g: Group, t: Tab, e: B.Event)
    requires Inv(g) && Enabled(g, Act(t, e))
    ensures var h := Step(g, Act(t, e));
            h.browser.owner.Some? && !h.tabs[t].posted && EndFits(h, t)
  {
    hide B.Inv, B.Step, B.QuietInv, WellFormed, Genuine, Fits, EndAfter;
    assert TabFine(g, t);
    Formed(g);
    PhaseFits(g.browser, e, g.tabs[t].end);
  }

  lemma Formed(g: Group)
    requires Inv(g)
    ensures WellFormed(g.browser.chain)
  {
    hide B.QuietInv, WellFormed;
  }

  lemma ActGenuine(g: Group, t: Tab, e: B.Event)
    requires Inv(g) && Enabled(g, Act(t, e))
    ensures var h := Step(g, Act(t, e));
            h.tabs[t].end.Some? && h.tabs[t].end != g.tabs[t].end ==> Genuine(h.browser, h.tabs[t].end.value)
  {
    hide B.Inv, WellFormed, Refresh, Answer, CaseOf, B.Dangerous, EndFits;
    assert TabFine(g, t);
  }

  lemma ActKeeps(g: Group, t: Tab, e: B.Event)
    requires Inv(g) && Enabled(g, Act(t, e))
    ensures Inv(Step(g, Act(t, e)))
  {
    hide B.Inv, WellFormed, Genuine, B.Step, B.Enabled, EndFits, EndAfter, OfOwner;
    BrowserKeeps(g, e);
    ActFits(g, t, e);
    ActGenuine(g, t, e);
    AllStay(g, e);
    assert TabFine(g, t);
  }

  lemma BrowserKeeps(g: Group, e: B.Event)
    requires Inv(g) && B.Enabled(g.browser, e)
    ensures WellFormed(g.browser.chain) && B.Inv(B.Step(g.browser, e))
  {
    hide B.QuietInv;
    B.StepKeeps(g.browser, e);
  }

  lemma PostKeeps(g: Group, t: Tab)
    requires Inv(g) && Enabled(g, Post(t))
    ensures Inv(Step(g, Post(t)))
  {
    hide B.Inv, WellFormed, Genuine;
  }

  lemma LockKeeps(g: Group, e: Event)
    requires Inv(g) && Enabled(g, e) && (e.TryLock? || e.Leave? || e.Die?)
    ensures Inv(Step(g, e))
  {
    hide B.QuietInv, WellFormed, Genuine;
    StepProjects(g, e);
    if Project(g, e) != [] {
      B.StepKeeps(g.browser, Project(g, e)[0]);
      AllStay(g, Project(g, e)[0]);
    }
  }

  lemma StepKeeps(g: Group, e: Event)
    requires Inv(g) && Enabled(g, e)
    ensures Inv(Step(g, e))
  {
    match e
    case World(b) => WorldKeeps(g, b);
    case Act(t, b) => ActKeeps(g, t, b);
    case Post(t) => PostKeeps(g, t);
    case Deliver(_) =>
    case TimeOut(_) =>
    case _ => LockKeeps(g, e);
  }

  // ---- whole runs ----

  ghost predicate ValidRun(g: Group, es: seq<Event>)
    requires Inv(g)
    decreases |es|
  {
    es == [] || (Enabled(g, es[0]) && (StepKeeps(g, es[0]); ValidRun(Step(g, es[0]), es[1..])))
  }

  ghost function Run(g: Group, es: seq<Event>): Group
    requires Inv(g) && ValidRun(g, es)
    decreases |es|
  {
    if es == [] then g else
      StepKeeps(g, es[0]);
      Run(Step(g, es[0]), es[1..])
  }

  lemma {:induction false} RunInv(g: Group, es: seq<Event>)
    requires Inv(g) && ValidRun(g, es)
    ensures Inv(Run(g, es))
    decreases |es|
  {
    hide Inv;
    if es == [] {
    } else {
      StepKeeps(g, es[0]);
      RunInv(Step(g, es[0]), es[1..]);
    }
  }

  /** The run of the browser inside a run of the group. */
  ghost function Trace(g: Group, es: seq<Event>): seq<B.Event>
    requires Inv(g) && ValidRun(g, es)
    decreases |es|
  {
    if es == [] then [] else
      StepKeeps(g, es[0]);
      Project(g, es[0]) + Trace(Step(g, es[0]), es[1..])
  }

  /** However many tabs there are, the browser runs as `RefreshBrowser` says. */
  lemma {:induction false} RunProjects(g: Group, es: seq<Event>)
    requires Inv(g) && ValidRun(g, es)
    ensures B.ValidRun(g.browser, Trace(g, es)) && B.Run(g.browser, Trace(g, es)) == Run(g, es).browser
    decreases |es|
  {
    hide B.Inv, Locked, TabFine, Step, Enabled, Project, B.Step, B.Enabled;
    if es == [] {
    } else {
      StepKeeps(g, es[0]);
      StepProjects(g, es[0]);
      RunProjects(Step(g, es[0]), es[1..]);
      var first, rest := Project(g, es[0]), Trace(Step(g, es[0]), es[1..]);
      if first == [] {
        assert first + rest == rest;
      } else {
        assert (first + rest)[0] == first[0] && (first + rest)[1..] == rest;
      }
    }
  }

  /** The guarantees for one browser hold for any number of tabs that refresh, wait, time out, take
      over, close and come back. */
  lemma ReplayNeverFires(g: Group, es: seq<Event>)
    requires Init(g) && ValidRun(g, es) && B.Quiet(Run(g, es).browser)
    ensures var s := Run(g, es).browser; s.replays == 0 && s.chain.ended.None? && |s.chain.ids| == 1 + |Wins(s.chain)|
  {
    hide B.Inv, B.Init;
    RunProjects(g, es);
    B.ReplayNeverFires(g.browser, Trace(g, es));
  }

  /** In every reachable state at most one tab refreshes, and whatever a tab ended with, as lock
      holder or while waiting, was posted and is what the server answered. */
  lemma EveryEndIsGenuine(g: Group, es: seq<Event>, a: Tab, b: Tab)
    requires Init(g) && ValidRun(g, es)
    requires a in Run(g, es).tabs && b in Run(g, es).tabs
    ensures var h := Run(g, es);
            && (h.tabs[a].Owning? && h.tabs[b].Owning? ==> a == b)
            && (h.tabs[a].Ended? ==> h.tabs[a].message in h.posts && Genuine(h.browser, h.tabs[a].message))
  {
    hide Genuine, B.Inv;
    RunInv(g, es);
    assert TabFine(Run(g, es), a);
  }

  // ---- waiting ----

  /** The tab neither takes its message nor times out nor closes. */
  predicate Waits(es: seq<Event>, t: Tab) {
    forall e :: e in es ==> e != Deliver(t) && e != TimeOut(t) && e != Die(t)
  }

  lemma WaitStep(g: Group, e: Event, t: Tab)
    requires Inv(g) && Enabled(g, e) && t in g.tabs && g.tabs[t].Waiting?
    requires e != Deliver(t) && e != TimeOut(t) && e != Die(t)
    ensures var h := Step(g, e);
            && t in h.tabs && h.tabs[t].Waiting? && h.tabs[t].until == g.tabs[t].until && g.posts <= h.posts
            && h.tabs[t].inbox == if g.tabs[t].inbox.None? && |g.posts| < |h.posts| then Some(h.posts[|g.posts|])
                                  else g.tabs[t].inbox
  {
    hide B.Inv, WellFormed, TabFine, B.Step, B.Enabled;
  }

  /** A waiting tab has got exactly the first message posted since it began to wait. */
  lemma {:induction false} FirstPostDecides(g: Group, es: seq<Event>, t: Tab)
    requires Inv(g) && ValidRun(g, es) && Waits(es, t) && t in g.tabs && g.tabs[t].Waiting?
    ensures var h := Run(g, es);
            && t in h.tabs && h.tabs[t].Waiting? && h.tabs[t].until == g.tabs[t].until && g.posts <= h.posts
            && h.tabs[t].inbox == if g.tabs[t].inbox.None? && |g.posts| < |h.posts| then Some(h.posts[|g.posts|])
                                  else g.tabs[t].inbox
    decreases |es|
  {
    hide Inv, Step, Enabled;
    if es == [] {
    } else {
      assert es[0] in es && forall e :: e in es[1..] ==> e in es;
      StepKeeps(g, es[0]);
      WaitStep(g, es[0], t);
      FirstPostDecides(Step(g, es[0]), es[1..], t);
    }
  }

  /** A waiting tab is handed the owner's result or takes over.  If anything was posted since it
      began to wait, it ends with the first such message; if nothing was and the lock is free,
      because the holder closed or had posted before, then once its ten seconds are over it becomes
      the holder. */
  lemma HandedOrTakesOver(g: Group, es: seq<Event>, t: Tab)
    requires Inv(g) && ValidRun(g, es) && Waits(es, t) && t in g.tabs && g.tabs[t].Waiting? && g.tabs[t].inbox.None?
    ensures var h := Run(g, es);
            && Inv(h) && t in h.tabs && g.posts <= h.posts
            && (|g.posts| < |h.posts| ==>
                  Enabled(h, Deliver(t)) && Step(h, Deliver(t)).tabs[t] == Ended(h.posts[|g.posts|]))
            && (|g.posts| == |h.posts| && h.lock.None? ==>
                  exists n: nat :: TakesOver(h, t, n) && h.browser.clock + n <= Max(h.browser.clock, g.tabs[t].until))
  {
    hide B.QuietInv, WellFormed;
    RunInv(g, es);
    FirstPostDecides(g, es, t);
    var h := Run(g, es);
    if |g.posts| == |h.posts| && h.lock.None? {
      var n := Max(h.browser.clock, h.tabs[t].until) - h.browser.clock;
      LockIsFree(h, t, n);
    }
  }

  function Max(a: int, b: int): int {
    if a < b then b else a
  }

  /** After n more seconds the tab stops waiting, tries the lock and gets it. */
  ghost predicate TakesOver(g: Group, t: Tab, n: nat)
    requires Inv(g)
  {
    var es := [World(B.Tick(n)), TimeOut(t), TryLock(t)];
    ValidRun(g, es) && Run(g, es).lock == Some(t)
  }

  lemma LockIsFree(g: Group, t: Tab, n: nat)
    requires Inv(g) && t in g.tabs && g.tabs[t].Waiting? && g.lock.None? && g.tabs[t].until <= g.browser.clock + n
    ensures TakesOver(g, t, n)
  {
    hide B.Inv, WellFormed, TabFine;
    var tick, out, try := World(B.Tick(n)), TimeOut(t), TryLock(t);
    StepKeeps(g, tick);
    var later := Step(g, tick);
    StepKeeps(later, out);
    var idle := Step(later, out);
    StepKeeps(idle, try);
    assert [try][1..] == [] && [out, try][1..] == [try] && [tick, out, try][1..] == [out, try];
    assert ValidRun(idle, [try]) && Run(idle, [try]) == Step(idle, try);
    assert ValidRun(later, [out, try]) && Run(later, [out, try]) == Step(idle, try);
  }

  /** The lock holder ends with the very message it posted. */
  lemma HolderEndsAsPosted(g: Group, t: Tab)
    requires Inv(g) && Enabled(g, Post(t))
    ensures var h := Step(g, Post(t));
            && h.posts == g.posts + [g.tabs[t].end.value]
            && Enabled(h, Leave(t)) && Step(h, Leave(t)).tabs[t] == Ended(h.posts[|g.posts|])
            && Step(h, Leave(t)).lock.None?
  {
    hide B.Inv, WellFormed;
  }
}
