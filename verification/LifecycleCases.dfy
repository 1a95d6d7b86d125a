/**
  The connection worker turn by turn: where each event leads from each state, field by field.
 */
module LifecycleCases {
  import opened Wrappers
  import opened Bytes
  import opened ConnectionLifecycle

  /** Not connected, nothing left of a connection; only the count of calls of the reset callback stays. */
  ghost predicate IsIdle(t: Worker, w: Worker) {
    t == Worker(Disconnected, None, None, Unknown, 0, false, false, 0, false, w.stateResets)
  }

  /** Connected through this socket, with nothing left of earlier tries. */
  ghost predicate IsConnected(t: Worker, socket: Socket, address: Option<Address>, connType: ConnectionType) {
    && t.state == Connected && t.socket == Some(socket) && t.address == address && t.connType == connType
    && t.reconnectAttempt == 0 && !t.tryStateless && t.tries == 0 && !t.refused && !t.disconnectReq
  }

  // ---------------------------------------------------------------- connecting

  ghost predicate IsFirstWorking(cs: seq<Candidate>, i: nat) {
    i < |cs| && cs[i].result.Ok? && forall j :: 0 <= j < i ==> cs[j].result.Err?
  }

  ghost predicate NoneWorks(cs: seq<Candidate>) {
    forall j :: 0 <= j < |cs| ==> cs[j].result.Err?
  }

  /**
    A connection request: the worker is connected exactly if one of the candidates works, and
    then through the first that does; else it is as if nothing had been tried.
   */
  lemma RequestConnects(w: Worker, cs: seq<Candidate>, shouldReconnect: bool)
    requires Enabled(w, Connect(Tried(cs), shouldReconnect))
    ensures var t := Turn(w, Connect(Tried(cs), shouldReconnect));
            && (NoneWorks(cs) ==> IsIdle(t, w))
            && (forall i: nat :: IsFirstWorking(cs, i) ==>
                  IsConnected(t, cs[i].result.value, Some(cs[i].address), cs[i].connType) && t.stateResets == w.stateResets)
            && (NoneWorks(cs) || exists i: nat :: IsFirstWorking(cs, i))
  {
    var k := FirstWorking(cs);
    if k < |cs| {
      assert IsFirstWorking(cs, k);
      forall i: nat | IsFirstWorking(cs, i)
        ensures i == k
      {
      }
    }
  }

  /** A request with a bad address, without addresses, or interrupted at any point leaves nothing behind. */
  lemma RequestEndsIdle(w: Worker, result: ConnectResult, shouldReconnect: bool)
    requires Enabled(w, Connect(result, shouldReconnect)) && !result.Tried?
    ensures IsIdle(Turn(w, Connect(result, shouldReconnect)), w)
  {
  }

  // ---------------------------------------------------------------- connected

  /** A disconnect request, noticed or notified, starts closing; nothing else changes. */
  lemma DisconnectCloses(w: Worker, e: Event)
    requires w.state == Connected && Enabled(w, e) && !e.UserDisconnect? && (w.disconnectReq || e.DisconnectNotified?)
    ensures Turn(w, e) == w.(state := Closing)
  {
  }

  predicate EndsConnection(e: ConnectionError) {
    || e in {ServerClosed, TransportTimedOut, TooUnreliable, TimedOut, TransportClosed, Cancelled}
    || (e.SocketError? && !e.success) || (e.Code? && !e.success)
  }

  /** Errors of these kinds end the connection, or suspend it if the callback wants to reconnect; others change nothing. */
  lemma ErrorEndsOrSuspends(w: Worker, error: ConnectionError, shouldReconnect: bool)
    requires w.state == Connected && !w.disconnectReq
    ensures var t := Turn(w, Error(error, shouldReconnect));
            if !EndsConnection(error) then t == w
            else if shouldReconnect then t == w.(state := Reconnecting)
            else IsIdle(t, w)
  {
  }

  lemma NothingChangesNothing(w: Worker)
    requires w.state == Connected && !w.disconnectReq
    ensures Turn(w, Event.Nothing) == w
  {
  }

  // ---------------------------------------------------------------- reconnecting

  /** A disconnect request, before or during a try, cancels reconnecting; and so does the seventh try. */
  lemma ReconnectingIsCancelled(w: Worker, outcome: TryResult)
    requires w.state == Reconnecting
    requires w.disconnectReq || outcome.Disconnect? || 6 <= w.reconnectAttempt < 0xFFFF
    ensures IsIdle(Turn(w, Try(outcome)), w)
  {
  }

  /**
    One of the first six tries. A success connects through the new socket with the address and
    type of before, and calls the callback exactly if the try was stateless. The refusal of a
    stateful try makes the next one stateless; any other failure only counts.
   */
  lemma TryLeadsTo(w: Worker, outcome: TryResult)
    requires w.state == Reconnecting && !w.disconnectReq && w.reconnectAttempt < 6 && !outcome.Disconnect?
    ensures var t := Turn(w, Try(outcome));
            match outcome
            case Success(socket) =>
              && IsConnected(t, socket, w.address, w.connType)
              && t.stateResets == w.stateResets + if w.tryStateless then 1 else 0
            case Failure(error) =>
              var counted := w.(reconnectAttempt := w.reconnectAttempt + 1, tries := w.tries + 1);
              t == if error == ReconnectFailed && !w.tryStateless then counted.(tryStateless := true, refused := true)
                   else counted
            case Disconnect => true
  {
  }

  /** So after the refusal of a stateful try the next try is stateless, and its success calls the callback. */
  lemma RefusalMakesStateless(w: Worker, socket: Socket)
    requires w.state == Reconnecting && !w.disconnectReq && w.reconnectAttempt < 5 && !w.tryStateless
    ensures var t := Turn(w, Try(Failure(ReconnectFailed)));
            && t.state == Reconnecting && MakesStatelessTry(t, Try(Success(socket)))
            && IsConnected(Turn(t, Try(Success(socket))), socket, w.address, w.connType)
            && Turn(t, Try(Success(socket))).stateResets == w.stateResets + 1
  {
    TryLeadsTo(w, Failure(ReconnectFailed));
    TryLeadsTo(Turn(w, Try(Failure(ReconnectFailed))), Success(socket));
  }

  // ---------------------------------------------------------------- closing

  /** Closing ends idle, whether the socket closes cleanly or not. */
  lemma ClosingEndsIdle(w: Worker, closeError: Option<ConnectionError>, shouldReconnect: bool)
    requires w.state == Closing && w.socket.Some?
    ensures IsIdle(Turn(w, SocketClosed(closeError, shouldReconnect)), w)
  {
  }

  /** The user's request only leaves its mark. */
  lemma RequestIsMarked(w: Worker)
    ensures Turn(w, UserDisconnect) == w.(disconnectReq := true)
  {
  }

  /**
    A disconnect request is honoured from wherever a run leads: a connected worker closes with
    its next turn and is idle after the one that follows, a reconnecting one is idle at once.
   */
  lemma DisconnectIsHonoured(es: seq<Event>, next: Event, closeError: Option<ConnectionError>, shouldReconnect: bool)
    requires IsRun(Initial, es) && !next.UserDisconnect?
    requires Enabled(After(Initial, es).(disconnectReq := true), next)
    ensures var w := After(Initial, es);
            var t := Turn(Turn(w, UserDisconnect), next);
            && (w.state == Reconnecting ==> IsIdle(t, w))
            && (w.state == Connected ==>
                  && Enabled(t, SocketClosed(closeError, shouldReconnect))
                  && IsIdle(Turn(t, SocketClosed(closeError, shouldReconnect)), w))
  {
    hide IsRun, After;
    RunKeepsInv(Initial, es);
    var w := After(Initial, es);
    RequestIsMarked(w);
    var u := Turn(w, UserDisconnect);
    if w.state == Reconnecting {
      ReconnectingIsCancelled(u, next.outcome);
    } else if w.state == Connected {
      DisconnectCloses(u, next);
      ClosingEndsIdle(Turn(u, next), closeError, shouldReconnect);
    }
  }
}
