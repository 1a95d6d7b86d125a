/** The connection worker: connecting, staying connected, reconnecting and closing. */
module ConnectionLifecycle {
  import opened Wrappers
  import opened Bytes

  const MAX_RECONNECT_TRIES := 6

  datatype ConnectionState = Disconnected | DnsResolving | Pinging | Connecting | Connected | Closing | Reconnecting

  datatype ConnectionType = Unknown | Udp | Tcp | Quic | WebSocket | WebSocketTls

  type Address = nat
  type Socket = nat

  datatype ConnectionError =
    | ServerClosed
    | SocketError(success: bool)
    | TransportTimedOut
    | TooUnreliable
    | TimedOut
    | TransportClosed
    | Cancelled
    | ReconnectFailed
    | OtherTransportError
    | AllAddressesFailed
    | Code(success: bool)

  predicate IsFatal(e: ConnectionError) {
    match e
    case ServerClosed => true
    case SocketError(success) => !success
    case TransportTimedOut => true
    case TooUnreliable => true
    case TimedOut => true
    case TransportClosed => true
    case Cancelled => true
    case Code(success) => !success
    case ReconnectFailed => false
    case OtherTransportError => false
    case AllAddressesFailed => false
  }

  /** The worker's fields, and below them the history that the promises are about. */
  datatype Worker = Worker(
    state: ConnectionState,
    socket: Option<Socket>,
    address: Option<Address>,
    connType: ConnectionType,
    reconnectAttempt: u16,
    tryStateless: bool,
    disconnectReq: bool,
    tries: nat,               // reconnect tries since the last Connected or Disconnected
    refused: bool,            // a stateful try was refused since then
    stateResets: nat)         // calls of the state-reset callback

  const Initial := Worker(Disconnected, None, None, Unknown, 0, false, false, 0, false, 0)

  function SetState(w: Worker, state: ConnectionState): Worker {
    var w1 := if state == Connected || state == Disconnected then w.(tries := 0, refused := false) else w;
    if w.state != state && state == Connected then w1.(state := state, reconnectAttempt := 0, tryStateless := false)
    else w1.(state := state)
  }

  function Reset(w: Worker): Worker {
    w.(socket := None, address := None, connType := Unknown, reconnectAttempt := 0, tryStateless := false, disconnectReq := false)
  }

  function Cancel(w: Worker): Worker {
    SetState(Reset(w), Disconnected)
  }

  function FatalError(w: Worker, shouldReconnect: bool): Worker {
    if w.state == Connected && shouldReconnect then SetState(w, Reconnecting) else Cancel(w)
  }

  function AnyError(w: Worker, e: ConnectionError, shouldReconnect: bool): Worker {
    if IsFatal(e) then FatalError(w, shouldReconnect) else w
  }

  /** One address to connect to, and how trying it will turn out. */
  datatype Candidate = Candidate(address: Address, connType: ConnectionType, result: Result<Socket, ConnectionError>)

  /** The first candidate that works is used; only if none does is the connection attempt failed. */
  function FirstWorking(cs: seq<Candidate>): (i: nat)
    ensures i <= |cs|
    ensures i < |cs| ==> cs[i].result.Ok?
    ensures forall j :: 0 <= j < i ==> cs[j].result.Err?
  {
    if cs == [] || cs[0].result.Ok? then 0
    else
      assert forall j :: 1 <= j < FirstWorking(cs[1..]) + 1 ==> cs[j] == cs[1..][j - 1];
      FirstWorking(cs[1..]) + 1
  }

  function Establish(w: Worker, cs: seq<Candidate>): Worker {
    var i := FirstWorking(cs);
    var w1 := SetState(w, Connecting);
    if i == |cs| then w1
    else w1.(socket := Some(cs[i].result.value), address := Some(cs[i].address), connType := cs[i].connType)
  }

  /** How a connection request ends. */
  datatype ConnectResult =
    | BadUrl
    | NoAddresses                       // name resolution or pinging left nothing to try
    | Interrupted(cs: seq<Candidate>)   // a disconnect request came first, at any point
    | Tried(cs: seq<Candidate>)

  /** How one reconnect try ends. */
  datatype TryResult = Success(socket: Socket) | Failure(error: ConnectionError) | Disconnect

  /** What the environment decides in one turn of the worker loop. */
  datatype Event =
    | Connect(result: ConnectResult, shouldReconnect: bool)
    | Nothing
    | Error(error: ConnectionError, shouldReconnect: bool)
    | DisconnectNotified
    | Try(outcome: TryResult)
    | SocketClosed(closeError: Option<ConnectionError>, shouldReconnect: bool)
    | UserDisconnect // from another thread, at any time

  predicate Enabled(w: Worker, e: Event) {
    match e
    case Connect(result, _) =>
      w.state == Disconnected
      && (result.Tried? || result.Interrupted? ==> forall i :: 0 <= i < |result.cs| ==> result.cs[i].connType != Unknown)
    case Nothing =>
      || w.state in {Connected, DnsResolving, Pinging, Connecting}
      || (w.state == Closing && w.socket == None)
    case Error(_, _) => w.state == Connected
    case DisconnectNotified => w.state == Connected
    case Try(_) => w.state == Reconnecting
    case SocketClosed(_, _) => w.state == Closing && w.socket.Some?
    case UserDisconnect => true
  }

  function AfterConnect(w: Worker, result: ConnectResult, shouldReconnect: bool): Worker {
    match result
    case BadUrl => FatalError(w, shouldReconnect)
    case NoAddresses => FatalError(SetState(Reset(w), DnsResolving), shouldReconnect)
    case Interrupted(cs) => Cancel(Establish(Reset(w), cs))
    case Tried(cs) =>
      var t := Establish(Reset(w), cs);
      if FirstWorking(cs) < |cs| then SetState(t, Connected) else FatalError(t, shouldReconnect)
  }

  /** A reconnect try: stateful with the old connection id, or stateless, which resets the state. */
  function AfterTry(w: Worker, stateless: bool, result: TryResult): Worker {
    var t := w.(tries := w.tries + 1);
    match result
    case Disconnect => Cancel(t)
    case Success(socket) =>
      var u := t.(socket := Some(socket),
                  stateResets := if stateless then t.stateResets + 1 else t.stateResets);
      SetState(u, Connected)
    case Failure(e) =>
      if e == ReconnectFailed && !stateless then t.(tryStateless := true, refused := true) else t
  }

  /** The number of the next reconnect attempt: the increment of a 16-bit counter. */
  function NextAttempt(w: Worker): u16 {
    (w.reconnectAttempt + 1) % 0x1_0000
  }

  /** One turn of the worker loop. */
  function Turn(w: Worker, e: Event): Worker
    requires Enabled(w, e)
  {
    if e.UserDisconnect? then w.(disconnectReq := true)
    else
      match w.state
      case Disconnected => AfterConnect(w, e.result, e.shouldReconnect)
      case DnsResolving => SetState(w, Disconnected)
      case Pinging => SetState(w, Disconnected)
      case Connecting => SetState(w, Disconnected)
      case Connected =>
        if w.disconnectReq then SetState(w, Closing)
        else if e.DisconnectNotified? then SetState(w, Closing)
        else if e.Error? then AnyError(w, e.error, e.shouldReconnect)
        else w
      case Reconnecting =>
        if w.disconnectReq then Cancel(w)
        else
          var attempt := NextAttempt(w);
          var t := w.(reconnectAttempt := attempt);
          if attempt >= 7 then Cancel(t) else AfterTry(t, w.tryStateless, e.outcome)
      case Closing =>
        if w.socket == None then w
        else if e.closeError.Some? then FatalError(w, e.shouldReconnect)
        else Cancel(w)
  }

  /** Whether this turn makes a reconnect try, and whether a stateless one. */
  predicate MakesTry(w: Worker, e: Event) {
    e.Try? && w.state == Reconnecting && !w.disconnectReq && NextAttempt(w) < 7
  }

  predicate MakesStatelessTry(w: Worker, e: Event) {
    MakesTry(w, e) && w.tryStateless
  }

  // ---------------------------------------------------------------- the class

  class Connection {
    var state: ConnectionState
    var socket: Option<Socket>
    var address: Option<Address>
    var connType: ConnectionType
    var reconnectAttempt: u16
    var tryStateless: bool
    var disconnectReq: bool
    var stateResets: nat
    ghost var tries: nat
    ghost var refused: bool

    ghost function Value(): Worker
      reads this
    {
      Worker(state, socket, address, connType, reconnectAttempt, tryStateless, disconnectReq, tries, refused, stateResets)
    }

    constructor ()
      ensures Value() == Initial
    {
      state, socket, address, connType := Disconnected, None, None, Unknown;
      reconnectAttempt, tryStateless, disconnectReq, stateResets := 0, false, false, 0;
      tries, refused := 0, false;
    }

    method ChangeState(s: ConnectionState)
      modifies this
      ensures Value() == SetState(old(Value()), s)
    {
      var prev := state;
      state := s;
      if prev != s && s == Connected {
        reconnectAttempt, tryStateless := 0, false;
      }
      if s == Connected || s == Disconnected {
        tries, refused := 0, false;
      }
    }

    method ResetConnectionState()
      modifies this
      ensures Value() == Reset(old(Value()))
    {
      address, connType, reconnectAttempt, tryStateless := None, Unknown, 0, false;
      disconnectReq := false;
      socket := None;
    }

    method OnFatalError(shouldReconnect: bool)
      modifies this
      ensures Value() == FatalError(old(Value()), shouldReconnect)
    {
      if state == Connected && shouldReconnect {
        ChangeState(Reconnecting);
      } else {
        ThreadCancelConnection();
      }
    }

    method OnConnectionError(e: ConnectionError, shouldReconnect: bool)
      modifies this
      ensures Value() == AnyError(old(Value()), e, shouldReconnect)
    {
      if IsFatal(e) {
        OnFatalError(shouldReconnect);
      }
    }

    method ThreadCancelConnection()
      modifies this
      ensures Value() == Cancel(old(Value()))
    {
      ResetConnectionState();
      ChangeState(Disconnected);
    }

    /** Tries the candidates in order; on failure the error list has one entry for each. */
    method ThreadFinalConnect(cs: seq<Candidate>) returns (connected: bool, errors: seq<(Address, ConnectionType,
                              ConnectionError)>)
      modifies this
      ensures Value() == Establish(old(Value()), cs)
      ensures connected <==> FirstWorking(cs) < |cs|
      ensures |errors| == FirstWorking(cs)
      ensures forall i :: 0 <= i < |errors| ==> errors[i] == (cs[i].address, cs[i].connType, cs[i].result.error)
    {
      ChangeState(Connecting);
      connected, errors := false, [];
      for i := 0 to |cs|
        invariant !connected && Value() == SetState(old(Value()), Connecting)
        invariant |errors| == i && forall j :: 0 <= j < i ==> cs[j].result.Err?
        invariant forall j :: 0 <= j < i ==> errors[j] == (cs[j].address, cs[j].connType, cs[j].result.error)
      {
        if cs[i].result.Err? {
          errors := errors + [(cs[i].address, cs[i].connType, cs[i].result.error)];
          continue;
        }
        connected := true;
        socket := Some(cs[i].result.value);
        address, connType := Some(cs[i].address), cs[i].connType;
        return;
      }
    }

    method ThreadTryReconnect(stateless: bool, result: TryResult) returns (r: Result<(), ConnectionError>)
      requires !result.Disconnect?
      modifies this
      ensures var w := old(Value()).(tries := old(tries) + 1);
              Value() == (if result.Failure? then w
                          else w.(socket := Some(result.socket),
                                  stateResets := if stateless then w.stateResets + 1 else w.stateResets))
      ensures r == if result.Failure? then Err(result.error) else Ok(())
    {
      tries := tries + 1;
      if result.Failure? {
        return Err(result.error);
      }
      socket := Some(result.socket);
      if stateless {
        stateResets := stateResets + 1;
      }
      r := Ok(());
    }

    method WorkerThreadLoop(e: Event)
      requires Enabled(Value(), e) && !e.UserDisconnect?
      modifies this
      ensures Value() == Turn(old(Value()), e)
    {
      match state
      case Disconnected =>
        match e.result {
        case BadUrl => OnFatalError(e.shouldReconnect);
        case NoAddresses =>
          ResetConnectionState();
          ChangeState(DnsResolving);
          OnFatalError(e.shouldReconnect);
        case Interrupted(cs) =>
          ResetConnectionState();
          var connected, errors := ThreadFinalConnect(cs);
          ThreadCancelConnection();
        case Tried(cs) =>
          ResetConnectionState();
          var connected, errors := ThreadFinalConnect(cs);
          if connected {
            ChangeState(Connected);
          } else {
            OnFatalError(e.shouldReconnect);
          }
        }
      case DnsResolving => ChangeState(Disconnected);
      case Pinging => ChangeState(Disconnected);
      case Connecting => ChangeState(Disconnected);
      case Connected =>
        if disconnectReq || e.DisconnectNotified? {
          ChangeState(Closing);
        } else if e.Error? {
          OnConnectionError(e.error, e.shouldReconnect);
        }
      case Reconnecting =>
        if disconnectReq {
          ThreadCancelConnection();
          return;
        }
        reconnectAttempt := (reconnectAttempt + 1) % 0x1_0000;
        var stateless := tryStateless;
        if reconnectAttempt >= 7 {
          ThreadCancelConnection();
          return;
        }
        if e.outcome.Disconnect? {
          tries := tries + 1;
          ThreadCancelConnection();
          return;
        }
        var r := ThreadTryReconnect(stateless, e.outcome);
        if r.Ok? {
          ChangeState(Connected);
        } else if r.error == ReconnectFailed && !stateless {
          tryStateless := true;
          refused := true;
        }
      case Closing =>
        if socket == None {
          return;
        }
        if e.closeError.Some? {
          OnFatalError(e.shouldReconnect);
        } else {
          ThreadCancelConnection();
        }
    }
  }

  // ---------------------------------------------------------------- promises

  predicate HasPeer(w: Worker) {
    w.socket.Some? && w.address.Some? && w.connType != Unknown
  }

  ghost predicate WorkerInv(w: Worker) {
    && (w.state == Connected || w.state == Reconnecting || w.state == Closing ==> HasPeer(w))
    && (w.state == Disconnected || w.state == Connected || w.state == Reconnecting || w.state == Closing)
    && (w.state == Connected ==> w.reconnectAttempt == 0 && !w.tryStateless)
    && (w.state == Reconnecting ==> w.tries == w.reconnectAttempt)
    && (w.state != Reconnecting ==> w.tries == 0)
    && w.tries <= MAX_RECONNECT_TRIES
    && (w.tryStateless ==> w.refused)
  }

  lemma TurnKeepsInv(w: Worker, e: Event)
    requires WorkerInv(w) && Enabled(w, e)
    ensures WorkerInv(Turn(w, e))
  {
    if !e.UserDisconnect? {
      if w.state == Disconnected {
        ConnectKeepsInv(w, e.result, e.shouldReconnect);
      } else if w.state == Reconnecting {
        TryKeepsInv(w, e.outcome);
      }
    }
  }

  lemma ConnectKeepsInv(w: Worker, result: ConnectResult, shouldReconnect: bool)
    requires WorkerInv(w) && Enabled(w, Connect(result, shouldReconnect))
    ensures WorkerInv(AfterConnect(w, result, shouldReconnect))
  {
  }

  lemma TryKeepsInv(w: Worker, outcome: TryResult)
    requires WorkerInv(w) && w.state == Reconnecting
    ensures WorkerInv(Turn(w, Try(outcome)))
  {
  }

  predicate IsRun(w: Worker, es: seq<Event>)
    decreases |es|
  {
    es == [] || (Enabled(w, es[0]) && IsRun(Turn(w, es[0]), es[1..]))
  }

  function After(w: Worker, es: seq<Event>): Worker
    requires IsRun(w, es)
    decreases |es|
  {
    if es == [] then w else After(Turn(w, es[0]), es[1..])
  }

  lemma {:induction false} RunKeepsInv(w: Worker, es: seq<Event>)
    requires WorkerInv(w) && IsRun(w, es)
    ensures WorkerInv(After(w, es))
    decreases |es|
  {
    if es != [] {
      TurnKeepsInv(w, es[0]);
      RunKeepsInv(Turn(w, es[0]), es[1..]);
    }
  }

  /** How many of the events are successful stateless reconnect tries. */
  function StatelessSuccesses(w: Worker, es: seq<Event>): nat
    requires IsRun(w, es)
    decreases |es|
  {
    if es == [] then 0
    else
      (if MakesStatelessTry(w, es[0]) && es[0].outcome.Success? then 1 else 0) + StatelessSuccesses(Turn(w, es[0]), es[1..])
  }

  lemma ResetsOfTurn(w: Worker, e: Event)
    requires Enabled(w, e)
    ensures Turn(w, e).stateResets
            == w.stateResets + if MakesStatelessTry(w, e) && e.outcome.Success? then 1 else 0
  {
  }

  lemma {:induction false} ResetsOfRun(w: Worker, es: seq<Event>)
    requires IsRun(w, es)
    ensures After(w, es).stateResets == w.stateResets + StatelessSuccesses(w, es)
    decreases |es|
  {
    if es != [] {
      ResetsOfTurn(w, es[0]);
      ResetsOfRun(Turn(w, es[0]), es[1..]);
    }
  }

  /**
    Over every run: Connected, Reconnecting and Closing have a socket, a stored address and a
    known type; the tries since leaving Connected are at most six; and the state-reset
    callback was called as often as the run has successful stateless tries, and for nothing else.
   */
  lemma LifecycleSafety(es: seq<Event>)
    requires IsRun(Initial, es)
    ensures var w := After(Initial, es);
            && (w.state == Connected || w.state == Reconnecting || w.state == Closing ==> HasPeer(w))
            && w.tries <= MAX_RECONNECT_TRIES
            && w.stateResets == StatelessSuccesses(Initial, es)
  {
    RunKeepsInv(Initial, es);
    ResetsOfRun(Initial, es);
  }

  /** In every run, each reconnect try is at most the sixth, and a stateless one follows a refusal. */
  lemma TriesAreLegitimate(es: seq<Event>, e: Event)
    requires IsRun(Initial, es) && Enabled(After(Initial, es), e)
    ensures var w := After(Initial, es);
            && (MakesTry(w, e) ==> w.tries < MAX_RECONNECT_TRIES)
            && (MakesStatelessTry(w, e) ==> w.refused)
            && (Turn(w, e).stateResets == w.stateResets + 1 <==> MakesStatelessTry(w, e) && e.outcome.Success?)
            && (Turn(w, e).stateResets == w.stateResets || Turn(w, e).stateResets == w.stateResets + 1)
  {
    hide After, IsRun;
    RunKeepsInv(Initial, es);
  }

  /** A connected worker leaves that state on an error exactly when it is fatal, and where to is the callback's choice. */
  lemma ErrorsLeaveConnectedIffFatal(w: Worker, error: ConnectionError, shouldReconnect: bool)
    requires w.state == Connected && !w.disconnectReq
    ensures var t := Turn(w, Error(error, shouldReconnect));
            && (t.state != Connected <==> IsFatal(error))
            && (IsFatal(error) ==> t.state == if shouldReconnect then Reconnecting else Disconnected)
            && (IsFatal(error) && shouldReconnect ==> t == w.(state := Reconnecting))
  {
  }

  /**
    The 16-bit attempt counter never wraps: whenever a run is about to reconnect, the next
    attempt's number is one more than the tries made since Connected was left, so it is
    between 1 and 7, and the pause before attempt 0 never happens.
   */
  lemma NoAttemptZero(es: seq<Event>)
    requires IsRun(Initial, es) && After(Initial, es).state == Reconnecting
    ensures var w := After(Initial, es);
            NextAttempt(w) == w.tries + 1 && 1 <= NextAttempt(w) <= MAX_RECONNECT_TRIES + 1
  {
    hide After, IsRun;
    RunKeepsInv(Initial, es);
  }
}
