/**
 The browser side of the game connection: it opens one socket at a time, expects every socket's
 envelopes numbered 1, 2, 3, ..., and reconnects when they are not.
 */
module GameClient {
  import opened Wrappers
  import GameServer

  type SocketId = nat

  datatype Summary = Summary(authSessionId: nat, gameAccountId: nat)

  /** What the client reads out of a valid envelope; a malformed error or result is None. */
  datatype Content = Failure(code: Option<GameServer.ErrorCode>) | Success(summary: Option<Summary>) | Event

  datatype Frame =
    | Malformed
    | Envelope(seqNo: nat, requestId: Option<string>, requestType: string, content: Content)

  datatype FailureCode =
    | InvalidServerEnvelope
    | SequenceGap
    | ConnectionFailed
    | ServerError(code: GameServer.ErrorCode)

  /** The calls on the connection-state port. */
  datatype Report =
    | Connecting
    | Connected
    | Authenticating
    | Authenticated(summary: Summary)
    | Failed(code: FailureCode)
    | Disconnected

  /** What a frame in sequence makes the client report, `own` being the request id of the
      authentication of this socket. */
  function Told(frame: Frame, own: Option<string>): seq<Report>
    requires frame.Envelope?
  {
    if frame.requestId.None? || frame.requestId != own then []
    else if frame.requestType != "session.authenticate" then [Failed(InvalidServerEnvelope)]
    else
      match frame.content
      case Failure(Some(code)) => [Failed(ServerError(code))]
      case Success(Some(summary)) => [Authenticated(summary)]
      case Event => []
      case _ => [Failed(InvalidServerEnvelope)]
  }

  /** An answer to the authentication, success or failure, ends its repetition; a malformed success
      does not. */
  predicate EndsRetry(frame: Frame, own: Option<string>)
    requires frame.Envelope?
  {
    && frame.requestId.Some? && frame.requestId == own && frame.requestType == "session.authenticate"
    && (frame.content.Failure? || (frame.content.Success? && frame.content.summary.Some?))
  }

  /** What a frame in sequence makes the client report, case by case: nothing unless it answers the
      client's own authentication, then the session, the server's error code, or that the envelope
      is invalid; and exactly a readable answer ends the repetition. */
  lemma ToldTable(frame: Frame, own: Option<string>)
    requires frame.Envelope?
    ensures var mine := frame.requestId.Some? && frame.requestId == own;
            var answer := mine && frame.requestType == "session.authenticate";
            && |Told(frame, own)| <= 1
            && (Told(frame, own) == [] <==> !mine || (answer && frame.content.Event?))
            && (forall s :: Told(frame, own) == [Authenticated(s)] <==>
                  answer && frame.content.Success? && frame.content.summary == Some(s))
            && (forall code :: Told(frame, own) == [Failed(ServerError(code))] <==>
                  answer && frame.content.Failure? && frame.content.code == Some(code))
            && (Told(frame, own) == [Failed(InvalidServerEnvelope)] <==>
                  || (mine && !answer)
                  || (answer && frame.content.Success? && frame.content.summary.None?)
                  || (answer && frame.content.Failure? && frame.content.code.None?))
            && (EndsRetry(frame, own) <==>
                  || (answer && frame.content.Failure?)
                  || (answer && frame.content.Success? && frame.content.summary.Some?))
  {
  }

  datatype Authentication = Authentication(socket: SocketId, requestId: string, token: string)

  predicate InOrder(seqs: seq<nat>) {
    forall i :: 0 <= i < |seqs| ==> seqs[i] == i + 1
  }

  class GameConnection {
    var socket: Option<SocketId>
    var accessToken: Option<string>
    var authenticationRequestId: Option<string>
    var retryTimer: Option<SocketId>          // the socket the pending retry will use
    var expectedSequence: nat
    var reconnectAfterClose: bool
    var closeFailureCode: Option<FailureCode>

    var nextSocket: SocketId
    var closing: set<SocketId>                // sockets asked to close
    var reports: seq<Report>
    var requests: seq<Authentication>
    ghost var since: nat                      // reports made before the current socket was opened
    ghost var received: seq<nat>              // sequence numbers received on the current socket
    ghost var blamed: Option<SocketId>        // the socket whose frame caused the recorded failure

    ghost predicate Valid()
      reads this
    {
      && since <= |reports|
      && (retryTimer.Some? ==> retryTimer == socket)
      && (socket.Some? ==> accessToken.Some? && socket.value < nextSocket)
      && (socket.None? ==> !reconnectAfterClose)
      && (closeFailureCode.Some? <==> blamed.Some?)
      && (socket.Some? ==> (GapSeen() <==> !InOrder(received)))
      && (socket.Some? && InOrder(received) ==> expectedSequence == |received| + 1)
      && (socket.Some? && GapSeen() ==> reconnectAfterClose && socket.value in closing)
    }

    /** A sequence gap was reported on the current socket. */
    ghost predicate GapSeen()
      requires since <= |reports|
      reads this
    {
      Failed(SequenceGap) in reports[since..]
    }

    constructor ()
      ensures Valid() && socket.None?
    {
      socket, accessToken, authenticationRequestId, retryTimer := None, None, None, None;
      expectedSequence, reconnectAfterClose, closeFailureCode := 1, false, None;
      nextSocket, closing, reports, requests, since, received, blamed := 0, {}, [], [], 0, [], None;
    }

    method OpenSocket()
      requires accessToken.Some? && retryTimer.None? && !reconnectAfterClose
      modifies this
      ensures Valid() && socket == Some(old(nextSocket)) && nextSocket == old(nextSocket) + 1
      ensures received == [] && expectedSequence == 1 && accessToken == old(accessToken)
      ensures reports == old(reports) + [Connecting] && closeFailureCode.None? && requests == old(requests)
      ensures authenticationRequestId.None? && retryTimer.None? && closing == old(closing)
    {
      authenticationRequestId, expectedSequence, closeFailureCode := None, 1, None;
      since, received, blamed := |reports|, [], None;
      reports := reports + [Connecting];
      socket := Some(nextSocket);
      nextSocket := nextSocket + 1;
      assert reports[since..] == [Connecting];
    }

    method Connect(token: string)
      requires Valid()
      modifies this
      ensures Valid() && accessToken == Some(token) && socket.Some?
      ensures old(socket.None?) ==> socket == Some(old(nextSocket)) && received == []
      ensures old(socket.Some?) ==> socket == old(socket) && received == old(received) && reports == old(reports)
      ensures old(socket.Some? && accessToken != Some(token)) ==> reconnectAfterClose && socket.value in closing
    {
      if socket.Some? {
        if accessToken != Some(token) {
          accessToken, reconnectAfterClose, retryTimer := Some(token), true, None;
          closing := closing + {socket.value};
        }
        return;
      }
      accessToken, reconnectAfterClose := Some(token), false;
      OpenSocket();
    }

    method Disconnect()
      requires Valid()
      modifies this
      ensures Valid() && socket.None? && accessToken.None? && retryTimer.None?
      ensures old(socket.Some?) ==> old(socket).value in closing
      ensures reports == old(reports) + [Disconnected]
    {
      if socket.Some? { closing := closing + {socket.value}; }
      socket, accessToken, authenticationRequestId, reconnectAfterClose, closeFailureCode, retryTimer :=
        None, None, None, false, None, None;
      blamed := None;
      reports := reports + [Disconnected];
    }

    method Say(report: Report)
      requires Valid() && report != Failed(SequenceGap)
      modifies this`reports
      ensures Valid() && reports == old(reports) + [report] && (GapSeen() <==> old(GapSeen()))
    {
      reports := reports + [report];
      assert reports[since..] == old(reports[since..]) + [report];
    }

    /** Only the current socket authenticates when it opens, and it does so once. */
    method OnOpen(s: SocketId, newId: string)
      requires Valid()
      modifies this`reports, this`authenticationRequestId, this`requests, this`retryTimer
      ensures Valid()
      ensures socket != Some(s) ==>
        && reports == old(reports) && requests == old(requests) && retryTimer == old(retryTimer)
        && authenticationRequestId == old(authenticationRequestId)
      ensures socket == Some(s) ==>
        && reports == old(reports) + [Connected, Authenticating]
        && authenticationRequestId
           == Some(if old(authenticationRequestId.Some?) then old(authenticationRequestId).value else newId)
        && requests == old(requests) + [Authentication(s, authenticationRequestId.value, accessToken.value)]
        && retryTimer == Some(s)
    {
      if socket != Some(s) || accessToken.None? {
        return;
      }
      Say(Connected);
      Say(Authenticating);
      SendAuthentication(s, newId);
    }

    /** Sends, or sends again, the authentication of the current socket under one request id. */
    method SendAuthentication(s: SocketId, newId: string)
      requires Valid()
      modifies this`authenticationRequestId, this`requests, this`retryTimer
      ensures Valid()
      ensures socket != Some(s) ==>
        && requests == old(requests) && authenticationRequestId == old(authenticationRequestId)
        && retryTimer == old(retryTimer)
      ensures socket == Some(s) ==>
                && authenticationRequestId
                   == Some(if old(authenticationRequestId.Some?) then old(authenticationRequestId).value else newId)
                && requests == old(requests) + [Authentication(s, authenticationRequestId.value, accessToken.value)]
                && retryTimer == Some(s)
    {
      if socket != Some(s) || accessToken.None? {
        return;
      }
      if authenticationRequestId.None? {
        authenticationRequestId := Some(newId);
      }
      requests := requests + [Authentication(s, authenticationRequestId.value, accessToken.value)];
      retryTimer := Some(s);
    }

    /** Records a failure for the next close and closes the socket the frame came from. */
    method CloseWithFailure(s: SocketId, code: FailureCode)
      requires Valid() && code != SequenceGap
      modifies this`closeFailureCode, this`reports, this`closing, this`blamed
      ensures Valid() && (GapSeen() <==> old(GapSeen()))
      ensures reports == old(reports) + [Failed(code)] && closing == old(closing) + {s}
      ensures closeFailureCode == Some(code) && blamed == Some(s)
    {
      closeFailureCode, blamed := Some(code), Some(s);
      closing := closing + {s};
      Say(Failed(code));
    }

    /** The content of an envelope that came in sequence: only the answer to the authentication
        of this socket matters.  A valid success is reported as authenticated and a valid failure
        with its code, both ending the repetition; anything malformed closes the socket. */
    method OnSequenced(s: SocketId, frame: Frame)
      requires Valid() && socket == Some(s) && frame.Envelope?
      modifies this`reports, this`closing, this`closeFailureCode, this`blamed, this`retryTimer
      ensures Valid() && (GapSeen() <==> old(GapSeen()))
      ensures reports == old(reports) + Told(frame, authenticationRequestId)
      ensures retryTimer == if EndsRetry(frame, authenticationRequestId) then None else old(retryTimer)
      ensures if Failed(InvalidServerEnvelope) in Told(frame, authenticationRequestId)
              then closing == old(closing) + {s} && closeFailureCode == Some(InvalidServerEnvelope) && blamed == Some(s)
              else closing == old(closing) && closeFailureCode == old(closeFailureCode) && blamed == old(blamed)
    {
      if frame.requestId != authenticationRequestId || frame.requestId.None? {
        return;
      }
      if frame.requestType != "session.authenticate" {
        CloseWithFailure(s, InvalidServerEnvelope);
        return;
      }
      match frame.content
      case Failure(code) =>
        retryTimer := None;
        if code.None? {
          CloseWithFailure(s, InvalidServerEnvelope);
        } else {
          Say(Failed(ServerError(code.value)));
        }
      case Event =>
      case Success(summary) =>
        if summary.None? {
          CloseWithFailure(s, InvalidServerEnvelope);
        } else {
          retryTimer := None;
          Say(Authenticated(summary.value));
        }
    }

    /** One text frame of socket s.  An envelope with the expected number is taken in, any other one
        is reported as a gap.  A gap is reported exactly when the envelopes received on the
        current socket are not 1, 2, 3, ...; text frames of earlier sockets change nothing. */
    method OnMessage(s: SocketId, frame: Frame)
      requires Valid()
      modifies this
      ensures Valid() && socket == old(socket) && authenticationRequestId == old(authenticationRequestId)
      ensures socket != Some(s) ==>
        && reports == old(reports) && received == old(received) && closing == old(closing)
        && closeFailureCode == old(closeFailureCode) && blamed == old(blamed) && retryTimer == old(retryTimer)
      ensures socket == Some(s) && frame.Malformed? ==>
        && reports == old(reports) + [Failed(InvalidServerEnvelope)] && closing == old(closing) + {s}
        && blamed == Some(s) && received == old(received)
      ensures socket == Some(s) && frame.Envelope? ==>
        && received == old(received) + [frame.seqNo]
        && (if frame.seqNo == old(expectedSequence)
            then reports == old(reports) + Told(frame, authenticationRequestId)
            else reports == old(reports) + [Failed(SequenceGap)] && retryTimer.None?)
      ensures socket == Some(s) && frame.Envelope? && InOrder(received) ==>
        !GapSeen() && expectedSequence == frame.seqNo + 1
      ensures socket == Some(s) && frame.Envelope? && !InOrder(received) ==>
        GapSeen() && reconnectAfterClose && s in closing
    {
      if socket != Some(s) {
        return;
      }
      if frame.Malformed? {
        CloseWithFailure(s, InvalidServerEnvelope);
        return;
      }
      ghost var before := received;
      OrderGrows(before, frame.seqNo);
      if frame.seqNo != expectedSequence {
        retryTimer, reconnectAfterClose := None, true;
        received := received + [frame.seqNo];
        reports := reports + [Failed(SequenceGap)];
        closing := closing + {s};
        assert reports[since..] == old(reports[since..]) + [Failed(SequenceGap)];
        return;
      }
      received := received + [frame.seqNo];
      expectedSequence := expectedSequence + 1;
      OnSequenced(s, frame);
    }

    /** Whatever arrives on a socket.  A frame that is not text is a failure even on an earlier socket:
        it is recorded although the current socket did nothing wrong. */
    method OnFrame(s: SocketId, data: Option<Frame>)
      requires Valid()
      modifies this
      ensures Valid() && socket == old(socket) && authenticationRequestId == old(authenticationRequestId)
      ensures data.None? ==>
        && reports == old(reports) + [Failed(InvalidServerEnvelope)] && closing == old(closing) + {s}
        && closeFailureCode == Some(InvalidServerEnvelope) && blamed == Some(s)
        && received == old(received) && retryTimer == old(retryTimer) && reconnectAfterClose == old(reconnectAfterClose)
      ensures data.Some? && socket != Some(s) ==>
        && reports == old(reports) && received == old(received) && closing == old(closing)
        && closeFailureCode == old(closeFailureCode) && blamed == old(blamed) && retryTimer == old(retryTimer)
      ensures data.Some? && socket == Some(s) && data.value.Malformed? ==>
        && reports == old(reports) + [Failed(InvalidServerEnvelope)] && closing == old(closing) + {s}
        && blamed == Some(s) && received == old(received)
      ensures data.Some? && socket == Some(s) && data.value.Envelope? ==>
        && received == old(received) + [data.value.seqNo]
        && (if data.value.seqNo == old(expectedSequence)
            then reports == old(reports) + Told(data.value, authenticationRequestId)
            else reports == old(reports) + [Failed(SequenceGap)] && retryTimer.None?)
      ensures data.Some? && socket == Some(s) && data.value.Envelope? && InOrder(received) ==>
        !GapSeen() && expectedSequence == data.value.seqNo + 1
      ensures data.Some? && socket == Some(s) && data.value.Envelope? && !InOrder(received) ==>
        GapSeen() && reconnectAfterClose && s in closing
    {
      if data.None? {
        CloseWithFailure(s, InvalidServerEnvelope);
        return;
      }
      OnMessage(s, data.value);
    }

    /** The close of a socket; a gap or a new token reconnects and starts counting from 1 again. */
    method OnClose(s: SocketId)
      requires Valid()
      modifies this
      ensures Valid()
      ensures old(socket) != Some(s) ==> socket == old(socket) && received == old(received) && reports == old(reports)
      ensures old(socket) == Some(s) && old(reconnectAfterClose) ==>
        socket == Some(old(nextSocket)) && received == [] && expectedSequence == 1
      ensures old(socket) == Some(s) && !old(reconnectAfterClose) ==>
                && socket.None?
                && reports == old(reports) + [Disconnected] + if old(closeFailureCode.Some?)
                   then [Failed(old(closeFailureCode).value)] else []
      ensures old(socket) == Some(s) ==> closeFailureCode.None? && blamed.None?
    {
      if socket != Some(s) {
        return;
      }
      var failure := closeFailureCode;
      socket, closeFailureCode, retryTimer, blamed := None, None, None, None;
      if reconnectAfterClose && accessToken.Some? {
        reconnectAfterClose := false;
        OpenSocket();
      } else {
        reports := reports + [Disconnected];
        if failure.Some? { reports := reports + [Failed(failure.value)]; }
      }
    }

    /** A non-text frame of an earlier socket and then an ordinary close: the failure is reported
        twice, whatever the closed socket received. */
    method StaleFrameThenClose(stale: SocketId, current: SocketId)
      requires Valid() && socket == Some(current) && stale != current && !reconnectAfterClose
      modifies this
      ensures Valid() && socket.None?
      ensures reports == old(reports) + [Failed(InvalidServerEnvelope), Disconnected, Failed(InvalidServerEnvelope)]
    {
      OnFrame(stale, None);
      OnClose(current);
    }

    method OnError()
      requires Valid()
      modifies this
      ensures Valid() && reports == old(reports) + [Failed(ConnectionFailed)] && socket == old(socket)
        && received == old(received)
    {
      Say(Failed(ConnectionFailed));
    }
  }

  lemma OrderGrows(seqs: seq<nat>, n: nat)
    ensures InOrder(seqs + [n]) <==> InOrder(seqs) && n == |seqs| + 1
  {
    assert (seqs + [n])[|seqs|] == n;
    if InOrder(seqs + [n]) {
      forall i | 0 <= i < |seqs| ensures seqs[i] == i + 1 {
        assert seqs[i] == (seqs + [n])[i];
      }
    }
  }

  // ---- composed with the server ----

  /** What the client reads of an envelope the server sent. */
  function Read(e: GameServer.Envelope): Frame {
    match e.body
    case Failed(kind, code) => Envelope(e.seq_, e.requestId, kind, Failure(Some(code)))
    case Authenticated(s) =>
      Envelope(e.seq_, e.requestId, "session.authenticate", Success(Some(Summary(s.id, s.accountId))))
    case Pong(_, _) => Envelope(e.seq_, e.requestId, "session.ping", Success(None))
    case Ready(_) => Envelope(e.seq_, e.requestId, "", Event)
  }

  function SeqsOf(sent: seq<GameServer.Envelope>): (seqs: seq<nat>)
    ensures |seqs| == |sent| && forall i :: 0 <= i < |sent| ==> seqs[i] == sent[i].seq_
  {
    seq(|sent|, i requires 0 <= i < |sent| => sent[i].seq_)
  }

  /** Whatever requests, repetitions, failures and events made the server send, the envelopes of a
      connection delivered in order, up to any point, are what the client expects: they contain no
      gap, and none of them is malformed. */
  lemma InOrderDeliveryHasNoGap(now: int, es: seq<GameServer.Event>, k: nat)
    requires k <= |GameServer.Run(GameServer.Connected(now), es).sent|
    ensures InOrder(SeqsOf(GameServer.Run(GameServer.Connected(now), es).sent[..k]))
    ensures forall e :: e in GameServer.Run(GameServer.Connected(now), es).sent ==> Read(e).Envelope?
  {
    GameServer.RunKeeps(GameServer.Connected(now), es);
  }

  /** Any envelope lost, repeated or swapped before the last one received shows as a gap. */
  lemma DamagedDeliveryHasGap(now: int, es: seq<GameServer.Event>, picks: seq<nat>)
    requires forall i :: 0 <= i < |picks| ==> picks[i] < |GameServer.Run(GameServer.Connected(now), es).sent|
    ensures var sent := GameServer.Run(GameServer.Connected(now), es).sent;
            InOrder(SeqsOf(seq(|picks|, i requires 0 <= i < |picks| => sent[picks[i]])))
            <==> forall i :: 0 <= i < |picks| ==> picks[i] == i
  {
    GameServer.RunKeeps(GameServer.Connected(now), es);
    var sent := GameServer.Run(GameServer.Connected(now), es).sent;
    var seqs := SeqsOf(seq(|picks|, i requires 0 <= i < |picks| => sent[picks[i]]));
    assert forall i :: 0 <= i < |picks| ==> seqs[i] == picks[i] + 1;
  }
}
