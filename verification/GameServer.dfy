/**
 The server side of one game connection: request admission, a write-once cache of terminal answers
 keyed by request id, and one gapless sequence number over everything it sends.

 `Conn` and `Step` say what the connection promises; `GameConsumer` is the consumer as written,
 proved to take exactly those steps.
 */
module GameServer {
  import opened Wrappers
  import opened RateLimits

  type RequestId = string // matches the request-id pattern

  const TERMINAL_LIMIT: nat := 4096
  const RATE: Policy := Policy(60, 120, false)
  const SUPPORTED_VERSION: string := "1"

  datatype Value = Null | Text(text: string) | Object(fields: map<string, Value>) | Other(literal: string)

  /** A decoded request frame.  An absent field is None; `canonical` says whether the frame has a
      canonical form. */
  datatype Message = Message(
    id: RequestId, version: Option<Value>, kind: Option<Value>, payload: Option<Value>,
    extra: set<string>, canonical: bool)

  function Get(v: Option<Value>): Value {
    if v.Some? then v.value else Null
  }

  /** SHA-256 of the canonical request, or of the whole frame when it has no canonical form. */
  datatype Digest = Canonical(version: Value, kind: Value, payload: Value) | Invalid(frame: Message)

  function DigestOf(m: Message): Digest {
    if m.canonical then Canonical(Get(m.version), Get(m.kind), Get(m.payload)) else Invalid(m)
  }

  function KindOf(m: Message): string {
    if Get(m.kind).Text? then Get(m.kind).text else ""
  }

  datatype ErrorCode =
    | InvalidEnvelope | UnsupportedVersion | PayloadInvalid | RequestIdConflict | RateLimited
    | AuthRequired | AlreadyAuthenticated | SessionRevoked | TokenRejected(reason: string)
    | PresenceRequired | RequestTypeUnsupported

  datatype Session = Session(id: nat, accountId: nat, userId: nat)

  datatype Body =
    | Failed(requestType: string, code: ErrorCode)
    | Authenticated(session: Session)
    | Pong(nonce: Value, serverTime: Time)
    | Ready(session: Session)   // the only event, without a request id

  datatype Envelope = Envelope(seq_: nat, requestId: Option<RequestId>, body: Body)

  datatype Terminal = Terminal(digest: Digest, envelope: Envelope, requiresBinding: bool)

  /** What the world answers while one request is served. */
  datatype World = World(
    now: Time, resolved: Result<Session, string>,   // the presented access token
    bindingActive: bool,                            // the bound session, if there is one, is active
    stillActive: bool)                              // the new session is active after joining its group

  datatype State = Active | Closing | Closed

  datatype Conn = Conn(
    state: State, sent: seq<Envelope>, terminals: map<RequestId, Terminal>, window: Window,
    auth: Option<Session>, closes: seq<nat>)

  // ---- what a request that was never answered gets ----

  predicate WellFormed(m: Message) {
    m.version.Some? && m.kind.Some? && m.payload.Some? && m.extra == {} && m.canonical
  }

  const PRESENCE_KINDS: set<string> := {"state.sync", "action.invoke", "ui.actions.resolve", "presence.leave"}

  function Authenticate(fields: map<string, Value>, auth: Option<Session>, w: World): Body {
    if fields.Keys != {"access_token"}
      || !fields["access_token"].Text? then Failed("session.authenticate", PayloadInvalid)
    else if auth.Some?
      then Failed("session.authenticate", if w.bindingActive then AlreadyAuthenticated else SessionRevoked)
    else match w.resolved
      case Err(reason) => Failed("session.authenticate", TokenRejected(reason))
      case Ok(session) => if w.stillActive then Authenticated(session)
        else Failed("session.authenticate", SessionRevoked)
  }

  function Ping(fields: map<string, Value>, w: World): Body {
    if fields.Keys - {"nonce"} != {}
      || ("nonce" in fields && !fields["nonce"].Text?) then Failed("session.ping", PayloadInvalid)
    else Pong(if "nonce" in fields then fields["nonce"] else Null, w.now)
  }

  function FirstAnswer(m: Message, auth: Option<Session>, w: World): Body {
    if !WellFormed(m) then Failed(KindOf(m), InvalidEnvelope)
    else if m.version.value != Text(SUPPORTED_VERSION) then Failed(KindOf(m), UnsupportedVersion)
    else match (m.kind.value, m.payload.value)
      case (Text(kind), Object(fields)) =>
        if kind == "session.authenticate" then Authenticate(fields, auth, w)
        else if kind == "session.ping" then Ping(fields, w)
        else if auth.None? then Failed(kind, AuthRequired)
        else if !w.bindingActive then Failed(kind, SessionRevoked)
        else Failed(kind, if kind in PRESENCE_KINDS then PresenceRequired else RequestTypeUnsupported)
      case (Text(kind), _) => Failed(kind, PayloadInvalid)
      case _ => Failed("", InvalidEnvelope)
  }

  /** What a request whose id was answered before gets. */
  function RepeatedAnswer(t: Terminal, m: Message, auth: Option<Session>, w: World): Body {
    if t.digest != DigestOf(m) then Failed(KindOf(m), RequestIdConflict)
    else if t.requiresBinding && !(auth.Some? && w.bindingActive) then Failed(KindOf(m), SessionRevoked)
    else t.envelope.body
  }

  // ---- steps ----

  datatype Event =
    | Receive(m: Message, w: World)
    | BadFrame               // not an object, no valid request id, binary or not JSON
    | Invalidate             // the bound session was revoked
    | Disconnect

  function Send(c: Conn, id: Option<RequestId>, body: Body): Conn {
    c.(sent := c.sent + [Envelope(|c.sent| + 1, id, body)])
  }

  function Close(c: Conn, code: nat): Conn {
    c.(state := if c.state.Closed? then Closed else Closing, closes := c.closes + [code])
  }

  function Store(c: Conn, m: Message, body: Body): Conn {
    c.(terminals :=
      c.terminals[m.id := Terminal(DigestOf(m), Envelope(|c.sent| + 1, Some(m.id), body), body.Authenticated?)])
  }

  function Reject(c: Conn, m: Message): Conn {
    var body := Failed(KindOf(m), RateLimited);
    var answered := Send(if |c.terminals| < TERMINAL_LIMIT then Store(c, m, body) else c, Some(m.id), body);
    answered.(state := Closing, closes := c.closes + [1008])
  }

  function Answer(c: Conn, m: Message, w: World): Conn {
    var body := FirstAnswer(m, c.auth, w);
    var answered := Send(Store(c, m, body), Some(m.id), body);
    if body.Authenticated? then Send(answered.(auth := Some(body.session)), None, Ready(body.session)) else answered
  }

  function Step(c: Conn, e: Event): Conn {
    match e
    case Receive(m, w) =>
      var d := c.(window := Take(RATE, Some(c.window), w.now));
      if !Admits(RATE, Some(c.window), w.now) then
        if m.id in c.terminals then d.(state := Closing, closes := d.closes + [1008]) else Reject(d, m)
      else if m.id in c.terminals then Send(d, Some(m.id), RepeatedAnswer(c.terminals[m.id], m, c.auth, w))
      else if |c.terminals| >= TERMINAL_LIMIT then Reject(d, m)
      else Answer(d, m, w)
    case BadFrame => Close(c, 4400)
    case Invalidate => Close(c.(auth := None, terminals := map[]), 1000)
    case Disconnect => c.(state := Closed, auth := None, terminals := map[])
  }

  function Run(c: Conn, es: seq<Event>): Conn
    decreases |es|
  {
    if es == [] then c else Run(Step(c, es[0]), es[1..])
  }

  function Connected(now: Time): Conn {
    Conn(Active, [], map[], Window(now, 0), None, [])
  }

  // ---- every reachable state ----

  /** The envelopes sent carry exactly 1, 2, 3, ... */
  predicate Gapless(sent: seq<Envelope>) {
    forall i :: 0 <= i < |sent| ==> sent[i].seq_ == i + 1
  }

  predicate Recorded(sent: seq<Envelope>, id: RequestId, t: Terminal) {
    && 1 <= t.envelope.seq_ <= |sent| && sent[t.envelope.seq_ - 1] == t.envelope
    && t.envelope.requestId == Some(id) && !t.envelope.body.Ready?
    && (t.requiresBinding <==> t.envelope.body.Authenticated?)
  }

  ghost predicate Inv(c: Conn) {
    && Gapless(c.sent) && |c.terminals| <= TERMINAL_LIMIT
    && (forall id :: id in c.terminals ==> Recorded(c.sent, id, c.terminals[id]))
  }

  lemma SendKeeps(c: Conn, id: Option<RequestId>, body: Body)
    requires Inv(c)
    ensures Inv(Send(c, id, body)) && c.sent <= Send(c, id, body).sent
  {
  }

  lemma StoredSendKeeps(c: Conn, m: Message, body: Body)
    requires Inv(c) && m.id !in c.terminals && |c.terminals| < TERMINAL_LIMIT && !body.Ready?
    ensures Inv(Send(Store(c, m, body), Some(m.id), body)) && c.sent <= Send(Store(c, m, body), Some(m.id), body).sent
  {
    hide Recorded, DigestOf;
    var d := Store(c, m, body);
    assert d.terminals.Keys == c.terminals.Keys + {m.id};
    var e := Send(d, Some(m.id), body);
    forall id | id in e.terminals ensures Recorded(e.sent, id, e.terminals[id]) {
      if id == m.id { RecordedNow(c.sent, id, e.terminals[id]); } else { RecordedStill(c, e, id); }
    }
  }

  lemma RecordedNow(sent: seq<Envelope>, id: RequestId, t: Terminal)
    requires t.envelope.seq_ == |sent| + 1 && t.envelope.requestId == Some(id) && !t.envelope.body.Ready?
    requires t.requiresBinding == t.envelope.body.Authenticated?
    ensures Recorded(sent + [t.envelope], id, t)
  {
  }

  lemma RecordedStill(c: Conn, d: Conn, id: RequestId)
    requires id in c.terminals && Recorded(c.sent, id, c.terminals[id]) && c.sent <= d.sent
    requires id in d.terminals && d.terminals[id] == c.terminals[id]
    ensures Recorded(d.sent, id, d.terminals[id])
  {
  }

  lemma AnswerKeeps(c: Conn, m: Message, w: World)
    requires Inv(c) && m.id !in c.terminals && |c.terminals| < TERMINAL_LIMIT
    ensures Inv(Answer(c, m, w)) && c.sent <= Answer(c, m, w).sent
  {
    hide Inv, Store, Send, FirstAnswer;
    var body := FirstAnswer(m, c.auth, w);
    AnswerIsTerminal(m, c.auth, w);
    StoredSendKeeps(c, m, body);
    if body.Authenticated? {
      var answered := Send(Store(c, m, body), Some(m.id), body).(auth := Some(body.session));
      SameInv(Send(Store(c, m, body), Some(m.id), body), answered);
      SendKeeps(answered, None, Ready(body.session));
    }
  }

  lemma AnswerIsTerminal(m: Message, auth: Option<Session>, w: World)
    ensures !FirstAnswer(m, auth, w).Ready?
    ensures FirstAnswer(m, auth, w).Authenticated? ==> auth.None?
  {
  }

  /** The invariant only speaks of what was sent and what is cached. */
  lemma SameInv(c: Conn, d: Conn)
    requires Inv(c) && d.sent == c.sent && d.terminals == c.terminals
    ensures Inv(d)
  {
  }

  lemma ClearedKeeps(c: Conn, d: Conn)
    requires Inv(c) && d.sent == c.sent && d.terminals == map[]
    ensures Inv(d)
  {
  }

  lemma RejectKeeps(c: Conn, m: Message)
    requires Inv(c) && m.id !in c.terminals
    ensures Inv(Reject(c, m)) && c.sent <= Reject(c, m).sent
  {
    hide Inv, Store, Send;
    var body := Failed(KindOf(m), RateLimited);
    var answered := Send(if |c.terminals| < TERMINAL_LIMIT then Store(c, m, body) else c, Some(m.id), body);
    if |c.terminals| < TERMINAL_LIMIT { StoredSendKeeps(c, m, body); } else { SendKeeps(c, Some(m.id), body); }
    SameInv(answered, Reject(c, m));
  }

  lemma StepKeeps(c: Conn, e: Event)
    requires Inv(c)
    ensures Inv(Step(c, e)) && c.sent <= Step(c, e).sent
  {
    hide Inv, Answer, Send, Store;
    match e
    case Receive(m, w) =>
      var d := c.(window := Take(RATE, Some(c.window), w.now));
      SameInv(c, d);
      if Admits(RATE, Some(c.window), w.now) && m.id in c.terminals {
        SendKeeps(d, Some(m.id), RepeatedAnswer(c.terminals[m.id], m, c.auth, w));
      } else if m.id in c.terminals {
        SameInv(d, Step(c, e));
      } else if !Admits(RATE, Some(c.window), w.now) || |c.terminals| >= TERMINAL_LIMIT {
        RejectKeeps(d, m);
      } else {
        AnswerKeeps(d, m, w);
      }
    case BadFrame => SameInv(c, Step(c, e));
    case _ => ClearedKeeps(c, Step(c, e));
  }

  /** Over replays, failures and events the connection sends exactly 1, 2, 3, ..., every cached
      terminal is one of the envelopes sent, and the cache never exceeds its limit. */
  lemma {:induction false} RunKeeps(c: Conn, es: seq<Event>)
    requires Inv(c)
    ensures Inv(Run(c, es)) && c.sent <= Run(c, es).sent
    decreases |es|
  {
    if es == [] {
    } else {
      StepKeeps(c, es[0]);
      RunKeeps(Step(c, es[0]), es[1..]);
    }
  }

  // ---- what a request gets, code by code ----

  /** The answer to a first request, code by code. */
  ghost predicate AnswerTable(m: Message, auth: Option<Session>, w: World, body: Body) {
    var formed := m.version.Some? && m.kind.Some? && m.payload.Some? && m.extra == {} && m.canonical;
    var kind := if m.kind.Some? && m.kind.value.Text? then m.kind.value.text else "";
    var current := formed && m.version.value == Text("1");
    var addressed := current && m.kind.value.Text? && m.payload.value.Object?;
    var fields := if addressed then m.payload.value.fields else map[];
    var login, ping := addressed && kind == "session.authenticate", addressed && kind == "session.ping";
    var other := addressed && !login && !ping;
    var token := fields.Keys == {"access_token"} && fields["access_token"].Text?;
    var nonce := fields.Keys <= {"nonce"} && ("nonce" in fields ==> fields["nonce"].Text?);
    && !body.Ready?
    && (body.Authenticated? <==> login && token && auth.None? && w.resolved.Ok? && w.stillActive)
    && (body.Authenticated? ==> body.session == w.resolved.value)
    && (body.Pong? <==> ping && nonce)
    && (body.Pong? ==> body.nonce == (if "nonce" in fields then fields["nonce"] else Null) && body.serverTime == w.now)
    && (body.Failed? ==>
       && body.requestType == kind
       && body.code != RateLimited && body.code != RequestIdConflict
       && (body.code == InvalidEnvelope <==> !formed || (current && !m.kind.value.Text?))
       && (body.code == UnsupportedVersion <==> formed && !current)
       && (body.code == PayloadInvalid <==>
          || (current && m.kind.value.Text? && !m.payload.value.Object?)
          || (login && !token)
          || (ping && !nonce))
       && (body.code == AlreadyAuthenticated <==> login && token && auth.Some? && w.bindingActive)
       && (body.code.TokenRejected? <==> login && token && auth.None? && w.resolved.Err?)
       && (body.code.TokenRejected? ==> body.code.reason == w.resolved.error)
       && (body.code == SessionRevoked <==>
          || (login && token && auth.Some? && !w.bindingActive)
          || (login && token && auth.None? && w.resolved.Ok? && !w.stillActive)
          || (other && auth.Some? && !w.bindingActive))
       && (body.code == AuthRequired <==> other && auth.None?)
       && (body.code == PresenceRequired <==>
          && other && auth.Some? && w.bindingActive
          && kind in {"state.sync", "action.invoke", "ui.actions.resolve", "presence.leave"})
       && (body.code == RequestTypeUnsupported <==>
          && other && auth.Some? && w.bindingActive
          && kind !in {"state.sync", "action.invoke", "ui.actions.resolve", "presence.leave"}))
  }

  lemma AnsweredByTable(m: Message, auth: Option<Session>, w: World)
    ensures AnswerTable(m, auth, w, FirstAnswer(m, auth, w))
  {
  }

  /** Two requests are the same exactly when both are canonical and agree in version, type and
      payload, an absent one being null, or neither is and the frames are equal. */
  lemma SameRequestIff(m: Message, n: Message)
    ensures DigestOf(m) == DigestOf(n)
            <==> || (m.canonical && n.canonical
                     && (if m.version.Some? then m.version.value else Null)
                        == (if n.version.Some? then n.version.value else Null)
                     && (if m.kind.Some? then m.kind.value else Null) == (if n.kind.Some? then n.kind.value else Null)
                     && (if m.payload.Some? then m.payload.value else Null)
                        == (if n.payload.Some? then n.payload.value else Null))
                 || (!m.canonical && m == n)
  {
  }

  /** The counted window: a minute that began at the first request after the last one ended. */
  ghost predicate CountedIn(before: Window, after: Window, now: Time, admitted: bool) {
    var over := now - before.start >= 60;
    && (admitted <==> over || before.count < 120)
    && after.start == (if over then now else before.start)
    && after.count == (if over then 1 else if admitted then before.count + 1 else before.count)
  }

  /** A request that is turned away is answered and cached once, while there is room, and closes. */
  ghost predicate TurnedAway(c: Conn, d: Conn, m: Message) {
    var kind := if m.kind.Some? && m.kind.value.Text? then m.kind.value.text else "";
    var e := Envelope(|c.sent| + 1, Some(m.id), Failed(kind, RateLimited));
    && d.sent == c.sent + [e] && d.state == Closing && d.closes == c.closes + [1008] && d.auth == c.auth
    && d.terminals == if |c.terminals| < 4096 then c.terminals[m.id := Terminal(DigestOf(m), e, false)] else c.terminals
  }

  /** A first request is answered by the table and cached; a new session is announced next. */
  ghost predicate AnsweredFirst(c: Conn, d: Conn, m: Message, w: World) {
    && |d.sent| > |c.sent|
    && var body := d.sent[|c.sent|].body;
    var e := Envelope(|c.sent| + 1, Some(m.id), body);
    && AnswerTable(m, c.auth, w, body)
    && d.sent == c.sent + [e]
                 + (if body.Authenticated? then [Envelope(|c.sent| + 2, None, Ready(body.session))] else [])
    && d.terminals == c.terminals[m.id := Terminal(DigestOf(m), e, body.Authenticated?)]
    && d.auth == (if body.Authenticated? then Some(body.session) else c.auth)
    && d.state == c.state && d.closes == c.closes
  }

  /** A repeated id is answered as the first time, with a conflict if the request differs, or as
      revoked if the answer rested on a session that is gone; nothing else changes. */
  ghost predicate AnsweredAgain(c: Conn, d: Conn, m: Message, w: World)
    requires m.id in c.terminals
  {
    var kind := if m.kind.Some? && m.kind.value.Text? then m.kind.value.text else "";
    var t := c.terminals[m.id];
    && |d.sent| > |c.sent|
    && var body := d.sent[|c.sent|].body;
    && d.sent == c.sent + [Envelope(|c.sent| + 1, Some(m.id), body)]
    && d.terminals == c.terminals && d.auth == c.auth && d.state == c.state && d.closes == c.closes
    && (DigestOf(m) != t.digest ==> body == Failed(kind, RequestIdConflict))
    && (DigestOf(m) == t.digest && t.requiresBinding && (c.auth.None? || !w.bindingActive) ==>
          body == Failed(kind, SessionRevoked))
    && (DigestOf(m) == t.digest && !(t.requiresBinding && (c.auth.None? || !w.bindingActive)) ==>
          body == t.envelope.body)
  }

  /** One request frame, case by case. */
  lemma RequestServed(c: Conn, m: Message, w: World)
    ensures var d := Step(c, Receive(m, w));
            var admitted := w.now - c.window.start >= 60 || c.window.count < 120;
            && CountedIn(c.window, d.window, w.now, admitted)
            && (!admitted && m.id in c.terminals ==>
                  d == c.(window := d.window, state := Closing, closes := c.closes + [1008]))
            && ((!admitted || |c.terminals| >= 4096) && m.id !in c.terminals ==> TurnedAway(c, d, m))
            && (admitted && m.id in c.terminals ==> AnsweredAgain(c, d, m, w))
            && (admitted && m.id !in c.terminals && |c.terminals| < 4096 ==> AnsweredFirst(c, d, m, w))
  {
    hide FirstAnswer, AnswerTable, DigestOf;
    AnsweredByTable(m, c.auth, w);
  }

  /** The other events, field by field. */
  lemma OtherEvents(c: Conn)
    ensures var closing := if c.state == Active then Closing else c.state;
            && Step(c, BadFrame) == c.(state := closing, closes := c.closes + [4400])
            && Step(c, Invalidate)
               == c.(state := closing, auth := None, terminals := map[], closes := c.closes + [1000])
            && Step(c, Disconnect) == c.(state := Closed, auth := None, terminals := map[])
  {
  }

  // ---- the cache is write-once ----

  predicate Clears(e: Event) {
    e.Invalidate? || e.Disconnect?
  }

  predicate NoClear(es: seq<Event>) {
    forall i :: 0 <= i < |es| ==> !Clears(es[i])
  }

  /** Until the cache is cleared a stored terminal stays what it is. */
  lemma {:induction false} WriteOnce(c: Conn, es: seq<Event>, id: RequestId)
    requires NoClear(es) && id in c.terminals
    ensures id in Run(c, es).terminals && Run(c, es).terminals[id] == c.terminals[id]
    decreases |es|
  {
    if es == [] {
    } else {
      WriteOnce(Step(c, es[0]), es[1..], id);
    }
  }

  predicate MayFollow(t: Terminal, body: Body) {
    || body == t.envelope.body
    || (body.Failed? && (body.code == RequestIdConflict || (body.code == SessionRevoked && t.requiresBinding)))
  }

  /** Every answer to an answered request id carries the payload of the first one, or reports a
      conflict or a lost session. */
  lemma {:induction false} ReplaysAgree(c: Conn, es: seq<Event>, id: RequestId, i: nat)
    requires NoClear(es) && id in c.terminals
    requires |c.sent| <= i < |Run(c, es).sent| && Run(c, es).sent[i].requestId == Some(id)
    ensures MayFollow(c.terminals[id], Run(c, es).sent[i].body)
    decreases |es|
  {
    var next := Step(c, es[0]);
    if i < |next.sent| {
      Extends(next, es[1..]);
    } else {
      ReplaysAgree(next, es[1..], id, i);
    }
  }

  lemma {:induction false} Extends(c: Conn, es: seq<Event>)
    ensures c.sent <= Run(c, es).sent
    decreases |es|
  {
    if es == [] {
    } else {
      Extends(Step(c, es[0]), es[1..]);
    }
  }

  /** The same request sent again is answered with the same payload, as long as the rate limit
      admits it and a session that the answer rests on is still active. */
  lemma RepeatIsAnswered(c: Conn, es: seq<Event>, m: Message, w: World)
    requires Inv(c) && NoClear(es) && m.id in c.terminals && c.terminals[m.id].digest == DigestOf(m)
    requires var d := Run(c, es); Admits(RATE, Some(d.window), w.now)
    ensures var d := Run(c, es);
            var t := c.terminals[m.id];
            Step(d, Receive(m, w)).sent == d.sent + [Envelope(|d.sent| + 1, Some(m.id),
              if t.requiresBinding && !(d.auth.Some? && w.bindingActive) then Failed(KindOf(m), SessionRevoked)
                else t.envelope.body)]
  {
    WriteOnce(c, es, m.id);
  }

  // ---- one session per connection ----

  function Readies(sent: seq<Envelope>): nat {
    if sent == [] then 0 else Readies(sent[..|sent| - 1]) + if sent[|sent| - 1].body.Ready? then 1 else 0
  }

  lemma ReadiesSnoc(sent: seq<Envelope>, e: Envelope)
    ensures Readies(sent + [e]) == Readies(sent) + if e.body.Ready? then 1 else 0
  {
    assert (sent + [e])[..|sent|] == sent;
  }

  /** The ready announcements, balanced against the bound session. */
  function Balance(c: Conn): int {
    Readies(c.sent) - if c.auth.Some? then 1 else 0
  }

  lemma SendBalance(c: Conn, id: Option<RequestId>, body: Body)
    ensures Balance(Send(c, id, body)) == Balance(c) + if body.Ready? then 1 else 0
  {
    ReadiesSnoc(c.sent, Envelope(|c.sent| + 1, id, body));
  }

  lemma AnswerBalance(c: Conn, m: Message, w: World)
    ensures Balance(Answer(c, m, w)) == Balance(c)
    ensures c.auth.Some? ==> Answer(c, m, w).auth == c.auth
  {
    hide Readies, FirstAnswer;
    var body := FirstAnswer(m, c.auth, w);
    AnswerIsTerminal(m, c.auth, w);
    SendBalance(Store(c, m, body), Some(m.id), body);
    if body.Authenticated? {
      SendBalance(Send(Store(c, m, body), Some(m.id), body).(auth := Some(body.session)), None, Ready(body.session));
    }
  }

  lemma StepBalance(c: Conn, e: Event)
    requires Inv(c) && !Clears(e)
    ensures Balance(Step(c, e)) == Balance(c)
    ensures c.auth.Some? ==> Step(c, e).auth == c.auth
  {
    hide Readies, FirstAnswer, Answer;
    match e
    case Receive(m, w) =>
      var d := c.(window := Take(RATE, Some(c.window), w.now));
      if m.id in c.terminals {
        assert Recorded(c.sent, m.id, c.terminals[m.id]);
        SendBalance(d, Some(m.id), RepeatedAnswer(c.terminals[m.id], m, c.auth, w));
      } else {
        AnswerBalance(d, m, w);
        var body := Failed(KindOf(m), RateLimited);
        SendBalance(if |c.terminals| < TERMINAL_LIMIT then Store(d, m, body) else d, Some(m.id), body);
      }
    case _ =>
  }

  /** Until it is invalidated or closed a connection binds at most one session, announces it once,
      and never changes it. */
  lemma {:induction false} ReadyOnce(c: Conn, es: seq<Event>)
    requires Inv(c) && NoClear(es)
    ensures Balance(Run(c, es)) == Balance(c)
    ensures c.auth.Some? ==> Run(c, es).auth == c.auth
    decreases |es|
  {
    if es == [] {
    } else {
      StepKeeps(c, es[0]);
      StepBalance(c, es[0]);
      ReadyOnce(Step(c, es[0]), es[1..]);
    }
  }

  // ---- the request rate ----

  /** The times at which requests arrive. */
  function Arrivals(es: seq<Event>): seq<Time> {
    if es == [] then [] else (if es[0].Receive? then [es[0].w.now] else []) + Arrivals(es[1..])
  }

  /** The requests that are processed between lo and hi rather than closed as too many. */
  function Processed(c: Conn, es: seq<Event>, lo: Time, hi: Time): nat
    decreases |es|
  {
    if es == [] then 0
    else (if es[0].Receive? && Admits(RATE, Some(c.window), es[0].w.now) && lo <= es[0].w.now <= hi then 1 else 0)
         + Processed(Step(c, es[0]), es[1..], lo, hi)
  }

  lemma {:induction false} ProcessedAreAdmitted(c: Conn, es: seq<Event>, lo: Time, hi: Time)
    ensures Processed(c, es, lo, hi) == Admitted(RATE, Some(c.window), Arrivals(es), lo, hi)
    decreases |es|
  {
    if es != [] {
      ProcessedAreAdmitted(Step(c, es[0]), es[1..], lo, hi);
      assert Step(c, es[0]).window == if es[0].Receive? then Take(RATE, Some(c.window), es[0].w.now) else c.window;
      if es[0].Receive? {
        assert Arrivals(es)[0] == es[0].w.now && Arrivals(es)[1..] == Arrivals(es[1..]);
      } else {
        assert Arrivals(es) == Arrivals(es[1..]);
      }
    }
  }

  /** However requests arrive, no interval of one window length processes more than twice the limit. */
  lemma ConnectionTwice(c: Conn, es: seq<Event>, lo: Time)
    requires NonDecreasing(Arrivals(es))
    ensures Processed(c, es, lo, lo + RATE.seconds) <= 2 * RATE.limit
  {
    ProcessedAreAdmitted(c, es, lo, lo + RATE.seconds);
    TwiceTheLimit(RATE, Some(c.window), Arrivals(es), lo);
  }

  // ---- the consumer ----

  class GameConsumer {
    var seqNo: nat
    var terminals: map<RequestId, Terminal>
    var rateWindowStartedAt: Time
    var requestsInWindow: nat
    var authSession: Option<Session>
    var connectionState: State
    var sent: seq<Envelope>   // every envelope handed to the socket
    var closes: seq<nat>      // every close code handed to the socket

    predicate Valid()
      reads this
    {
      seqNo == |sent|
    }

    function View(): Conn
      reads this
    {
      Conn(connectionState, sent, terminals, Window(rateWindowStartedAt, requestsInWindow), authSession, closes)
    }

    constructor (now: Time)
      ensures Valid() && View() == Connected(now)
    {
      seqNo, terminals, rateWindowStartedAt, requestsInWindow := 0, map[], now, 0;
      authSession, connectionState, sent, closes := None, Active, [], [];
    }

    method RequestAllowed(now: Time) returns (allowed: bool)
      modifies this`rateWindowStartedAt, this`requestsInWindow
      ensures allowed == Admits(RATE, Some(old(View().window)), now)
      ensures View() == old(View()).(window := Take(RATE, Some(old(View().window)), now))
    {
      if now - rateWindowStartedAt >= RATE.seconds {
        rateWindowStartedAt, requestsInWindow := now, 0;
      }
      if requestsInWindow >= RATE.limit {
        return false;
      }
      requestsInWindow := requestsInWindow + 1;
      allowed := true;
    }

    /** Numbers and sends one envelope. */
    method Emit(id: Option<RequestId>, body: Body) returns (envelope: Envelope)
      requires Valid()
      modifies this`seqNo, this`sent
      ensures Valid() && View() == Send(old(View()), id, body)
      ensures envelope == Envelope(|old(sent)| + 1, id, body)
    {
      seqNo := seqNo + 1;
      envelope := Envelope(seqNo, id, body);
      sent := sent + [envelope];
    }

    method RejectRateLimited(m: Message)
      requires Valid()
      modifies this
      ensures Valid() && View() == Reject(old(View()), m)
    {
      var envelope := Emit(Some(m.id), Failed(KindOf(m), RateLimited));
      if |terminals| < TERMINAL_LIMIT {
        terminals := terminals[m.id := Terminal(DigestOf(m), envelope, false)];
      }
      connectionState := Closing;
      closes := closes + [1008];
    }

    method CloseProtocolError()
      requires Valid()
      modifies this
      ensures Valid() && View() == Step(old(View()), BadFrame)
    {
      if connectionState.Active? {
        connectionState := Closing;
      }
      closes := closes + [4400];
    }

    method AuthSessionInvalidated()
      requires Valid()
      modifies this
      ensures Valid() && View() == Step(old(View()), Invalidate)
    {
      if connectionState.Active? {
        connectionState := Closing;
      }
      authSession, terminals := None, map[];
      closes := closes + [1000];
    }

    method SocketDisconnected()
      requires Valid()
      modifies this
      ensures Valid() && View() == Step(old(View()), Disconnect)
    {
      authSession, terminals := None, map[];
      connectionState := Closed;
    }

    /** Fails a request and caches the failure. */
    method FailTerminal(m: Message, kind: string, code: ErrorCode)
      requires Valid()
      modifies this
      ensures Valid() && View() == Send(Store(old(View()), m, Failed(kind, code)), Some(m.id), Failed(kind, code))
    {
      var envelope := Emit(Some(m.id), Failed(kind, code));
      terminals := terminals[m.id := Terminal(DigestOf(m), envelope, false)];
    }

    method AuthenticateRequest(m: Message, fields: map<string, Value>, w: World)
      requires Valid() && WellFormed(m) && m.version == Some(Text(SUPPORTED_VERSION))
      requires m.kind == Some(Text("session.authenticate")) && m.payload == Some(Object(fields))
      modifies this
      ensures Valid() && View() == Answer(old(View()), m, w)
    {
      if fields.Keys != {"access_token"} || !fields["access_token"].Text? {
        FailTerminal(m, "session.authenticate", PayloadInvalid);
        return;
      }
      if authSession.Some? {
        FailTerminal(m, "session.authenticate", if w.bindingActive then AlreadyAuthenticated else SessionRevoked);
        return;
      }
      if w.resolved.Err? {
        FailTerminal(m, "session.authenticate", TokenRejected(w.resolved.error));
        return;
      }
      authSession := Some(w.resolved.value);
      if !w.stillActive {
        authSession := None;
        FailTerminal(m, "session.authenticate", SessionRevoked);
        return;
      }
      terminals := terminals[m.id :=
        Terminal(DigestOf(m), Envelope(seqNo + 1, Some(m.id), Authenticated(w.resolved.value)), true)];
      var _ := Emit(Some(m.id), Authenticated(w.resolved.value));
      var _ := Emit(None, Ready(w.resolved.value));
    }

    method PingRequest(m: Message, fields: map<string, Value>, w: World)
      requires Valid() && WellFormed(m) && m.version == Some(Text(SUPPORTED_VERSION))
      requires m.kind == Some(Text("session.ping")) && m.payload == Some(Object(fields))
      modifies this
      ensures Valid() && View() == Answer(old(View()), m, w)
    {
      if fields.Keys - {"nonce"} != {} || ("nonce" in fields && !fields["nonce"].Text?) {
        FailTerminal(m, "session.ping", PayloadInvalid);
        return;
      }
      var envelope := Emit(Some(m.id), Pong(if "nonce" in fields then fields["nonce"] else Null, w.now));
      terminals := terminals[m.id := Terminal(DigestOf(m), envelope, false)];
    }

    method AnswerFirst(m: Message, w: World)
      requires Valid()
      modifies this
      ensures Valid() && View() == Answer(old(View()), m, w)
    {
      var kind := KindOf(m);
      if m.version.None? || m.kind.None? || m.payload.None? || m.extra != {} {
        FailTerminal(m, kind, InvalidEnvelope);
      } else if !m.canonical {
        FailTerminal(m, kind, InvalidEnvelope);
      } else if m.version.value != Text(SUPPORTED_VERSION) {
        FailTerminal(m, kind, UnsupportedVersion);
      } else if !m.kind.value.Text? {
        FailTerminal(m, "", InvalidEnvelope);
      } else if !m.payload.value.Object? {
        FailTerminal(m, kind, PayloadInvalid);
      } else if kind == "session.authenticate" {
        AuthenticateRequest(m, m.payload.value.fields, w);
      } else if kind == "session.ping" {
        PingRequest(m, m.payload.value.fields, w);
      } else if authSession.Some? && !w.bindingActive {
        FailTerminal(m, kind, SessionRevoked);
      } else if authSession.None? {
        FailTerminal(m, kind, AuthRequired);
      } else {
        FailTerminal(m, kind, if kind in PRESENCE_KINDS then PresenceRequired else RequestTypeUnsupported);
      }
    }

    /** One request frame with a valid request id. */
    method ReceiveJson(m: Message, w: World)
      requires Valid()
      modifies this
      ensures Valid() && View() == Step(old(View()), Receive(m, w))
    {
      hide Answer, Reject;
      var allowed := RequestAllowed(w.now);
      if !allowed {
        if m.id in terminals {
          connectionState := Closing;
          closes := closes + [1008];
        } else {
          RejectRateLimited(m);
        }
        return;
      }
      if m.id in terminals {
        var terminal := terminals[m.id];
        if terminal.digest != DigestOf(m) {
          var _ := Emit(Some(m.id), Failed(KindOf(m), RequestIdConflict));
        } else if terminal.requiresBinding && !(authSession.Some? && w.bindingActive) {
          var _ := Emit(Some(m.id), Failed(KindOf(m), SessionRevoked));
        } else {
          var _ := Emit(Some(m.id), terminal.envelope.body);
        }
        return;
      }
      if |terminals| >= TERMINAL_LIMIT {
        RejectRateLimited(m);
        return;
      }
      AnswerFirst(m, w);
    }
  }
}
