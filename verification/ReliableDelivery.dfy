/**
  Two endpoints over a network that drops, duplicates and reorders datagrams at will: a
  packet once sent stays in the network and may be received any number of times, at any
  later moment, or never. What the reliable layer promises over every run of this system.

  Packets carry a sequence number that no endpoint reads. It says which of the sender's
  reliable messages the packet carries (0: none), so that promises can be stated.
 */
module ReliableDelivery {
  import opened Wrappers
  import opened Bytes
  import opened MessageTypes
  import opened SequenceNumbers
  import opened Reliability
  import opened ReliabilityProofs

  const MAX_WITHOUT_WRAP := 65534

  /** What the application hands over and gets back: a payload and how it is compressed. */
  datatype Content = Content(data: bytes, comp: Option<CompressionHeader>)

  datatype Packet = Packet(number: nat, msg: DataMessage)

  /** An endpoint, with the history that the promises are about. */
  datatype Peer = Peer(
    store: StoreState,
    alive: bool,
    sent: seq<Content>,       // reliable messages sent, in order
    delivered: seq<Content>,  // reliable messages handed to the application, in order
    pushed: nat,              // how many sent messages were queued for retransmission
    acked: set<u16>)          // ids that left that queue

  datatype Action =
    | SendReliable(content: Content, now: Time)
    | SendUnreliable(content: Content)
    | FlushAcks
    | Retransmit(number: nat, now: Time)
    | Receive(packet: Packet, meta: MessageMeta, now: Time)
    | TakeDelayed
    | UpdateRtt(micros: nat)

  /**
    A run either never wraps the ids (at most 65534 reliable messages a direction, arrivals
    unrestricted), or wraps any number of times with every arrival inside the id window.
   */
  datatype Regime = NoWrap | Windowed

  function ContentOf(meta: MessageMeta): Content {
    Content(meta.data, meta.comp)
  }

  function Contents(metas: seq<MessageMeta>): (cs: seq<Content>)
    ensures |cs| == |metas|
  {
    if metas == [] then [] else [ContentOf(metas[0])] + Contents(metas[1..])
  }

  function ContentOfMessage(msg: DataMessage): Content {
    Content(msg.data, msg.comp)
  }

  function LocalIds(q: seq<LocalMessage>): set<u16> {
    set i | 0 <= i < |q| :: q[i].messageId
  }

  /** The arrived metadata carries what was sent; type and offset do not matter here. */
  predicate Carries(meta: MessageMeta, msg: DataMessage) {
    meta.comp == msg.comp && meta.rel == msg.rel && meta.data == msg.data && meta.frag == None
  }

  predicate CarriesNumber(msg: DataMessage, n: nat, sent: seq<Content>) {
    && 1 <= n <= |sent|
    && msg.rel.Some? && msg.rel.value.messageId == WireId(n)
    && ContentOfMessage(msg) == sent[n - 1]
  }

  predicate ArrivalOk(regime: Regime, n: nat, m: nat) {
    regime == NoWrap || (-ID_PERIOD < n - m < ID_PERIOD && InWindow(n, m))
  }

  /** Receiving reads the socket, which happens only once the delayed queue is empty. */
  ghost predicate Enabled(regime: Regime, p: Peer, incoming: set<Packet>, action: Action) {
    p.alive &&
    match action
    case SendReliable(_, _) => regime == NoWrap ==> |p.sent| < MAX_WITHOUT_WRAP
    case FlushAcks => p.store.remoteUnacked != []
    case Retransmit(number, now) =>
      var r := AfterRetransmit(p.store, now).1;
      r.Ok? && r.value.Resend? ==> CarriesNumber(r.value.msg, number, p.sent)
    case Receive(packet, meta, _) =>
      && packet in incoming && Carries(meta, packet.msg) && p.store.delayed == []
      && (meta.rel.Some? ==> meta.rel.value.Valid())
      && (packet.number != 0 ==> ArrivalOk(regime, packet.number, |p.delivered| + 1))
    case _ => true
  }

  function SendWith(p: Peer, store: StoreState, out: set<Packet>, number: nat, content: Content,
                    rel: ReliabilityHeader): (Peer, set<Packet>) {
    var header := if rel.messageId != 0 || rel.ackCount > 0 then Some(rel) else None;
    (p.(store := store), out + {Packet(number, DataMessage(content.data, content.comp, header))})
  }

  function ReliableMessage(p: Peer, content: Content): DataMessage {
    var rel := AfterTakingAcks(p.store, 0).1.(messageId := p.store.nextLocalId);
    DataMessage(content.data, content.comp, Some(rel))
  }

  /** The endpoint and its outgoing packets after an action. */
  function Act(p: Peer, out: set<Packet>, action: Action): (Peer, set<Packet>)
    requires action.Receive? && action.meta.rel.Some? ==> action.meta.rel.value.Valid()
  {
    match action
    case SendReliable(content, now) =>
      var msg := ReliableMessage(p, content);
      var s := TakeMessageId(AfterTakingAcks(p.store, 0).0).0;
      var (s', r) := AfterPush(s, msg, now);
      (p.(store := s', alive := r.Ok?, sent := p.sent + [content], pushed := if r.Ok? then p.pushed + 1 else p.pushed),
       out + {Packet(|p.sent| + 1, msg)})
    case SendUnreliable(content) =>
      var (s, rel) := AfterTakingAcks(p.store, 0);
      SendWith(p, s, out, 0, content, rel)
    case FlushAcks =>
      var (s, rel) := AfterTakingAcks(p.store, 0);
      SendWith(p, s, out, 0, Content([], None), rel)
    case Retransmit(number, now) =>
      var (s, r) := AfterRetransmit(p.store, now);
      if r.Err? then (p.(store := s, alive := false), out)
      else if r.value.Nothing? then (p, out)
      else (p.(store := s), out + {Packet(number, r.value.msg)})
    case Receive(packet, meta, now) =>
      if meta.rel == None then (p, out)
      else
        var (s, r) := AfterIncoming(p.store, meta, now);
        var p1 := p.(store := s, acked := p.acked + (LocalIds(p.store.localUnacked) - LocalIds(s.localUnacked)));
        if r.Err? then (p1.(alive := false), out)
        else if r.value && IdOf(meta) != 0 then (p1.(delivered := p.delivered + [ContentOf(meta)]), out)
        else (p1, out)
    case TakeDelayed =>
      var (s, m) := PopDelayed(p.store);
      if m == None then (p, out) else (p.(store := s, delivered := p.delivered + [ContentOf(m.value)]), out)
    case UpdateRtt(micros) => (p.(store := p.store.(avgRttMicros := micros)), out)
  }

  // ---------------------------------------------------------------- invariants

  /** Everything accepted from the remote: handed over already, or waiting in the delayed queue. */
  function Accepted(p: Peer): seq<Content> {
    p.delivered + Contents(p.store.delayed)
  }

  ghost predicate PacketOk(p: Packet, sent: seq<Content>) {
    && (p.msg.rel.Some? ==> p.msg.rel.value.Valid())
    && (p.number == 0 ==> p.msg.rel.Some? ==> p.msg.rel.value.messageId == 0)
    && (p.number != 0 ==> CarriesNumber(p.msg, p.number, sent))
  }

  ghost predicate QueuedOk(m: LocalMessage, sent: seq<Content>) {
    && m.msg.rel.Some? && m.msg.rel.value.Valid() && m.messageId == m.msg.rel.value.messageId
    && exists n :: CarriesNumber(m.msg, n, sent)
  }

  ghost predicate SenderInv(regime: Regime, p: Peer, out: set<Packet>) {
    && p.store.nextLocalId == WireId(|p.sent| + 1)
    && (regime == NoWrap ==> |p.sent| <= MAX_WITHOUT_WRAP)
    && (forall packet :: packet in out ==> PacketOk(packet, p.sent))
    && (forall m :: m in p.store.localUnacked ==> QueuedOk(m, p.sent))
  }

  /** A stored message is the one its id stands for when number m is expected. */
  ghost predicate StoredOk(regime: Regime, meta: MessageMeta, m: nat, sent: seq<Content>)
    requires m >= 1
  {
    var id := IdOf(meta);
    var n := if regime == NoWrap then id as int else Lift(id, m);
    1 <= n <= |sent| && ContentOf(meta) == sent[n - 1]
  }

  predicate AckOk(id: u16, accepted: nat) {
    1 <= id <= accepted
  }

  ghost predicate AllStoredOk(regime: Regime, q: seq<StoredMessage>, m: nat, sent: seq<Content>)
    requires m >= 1
  {
    forall i :: 0 <= i < |q| ==> StoredOk(regime, q[i].meta, m, sent)
  }

  ghost predicate AllAcksOk(q: seq<RemoteAck>, accepted: nat) {
    forall i :: 0 <= i < |q| ==> AckOk(q[i].messageId, accepted)
  }

  /** `delivered` and the store's delayed queue are a prefix of what the remote sent. */
  ghost predicate ReceiverCore(regime: Regime, sent: seq<Content>, delivered: seq<Content>, s: StoreState) {
    var accepted := delivered + Contents(s.delayed);
    && WellStored(s)
    && accepted <= sent
    && s.nextRemoteId == WireId(|accepted| + 1)
    && AllStoredOk(regime, s.outOfOrder, |accepted| + 1, sent)
    && AllAcksOk(s.remoteUnacked, |accepted|)
  }

  ghost predicate ReceiverInv(regime: Regime, sent: seq<Content>, p: Peer) {
    ReceiverCore(regime, sent, p.delivered, p.store) && StoreInv(p.store)
  }

  ghost predicate AcksOk(msg: DataMessage, accepted: nat) {
    msg.rel.Some? ==> forall i :: 0 <= i < |msg.rel.value.acks| ==> AckOk(msg.rel.value.acks[i], accepted)
  }

  /** Every ack on its way, or in a message kept for retransmission, is for an accepted message. */
  ghost predicate AckInv(p: Peer, out: set<Packet>) {
    OutAcksOk(out, p.store.localUnacked, |Accepted(p)|)
  }

  function IdRange(n: nat): set<u16> {
    set id: u16 | AckOk(id, n)
  }

  ghost predicate Increasing(q: seq<LocalMessage>) {
    forall i, j :: 0 <= i < j < |q| ==> q[i].messageId < q[j].messageId
  }

  /** Each queued id is either still queued or acknowledged, never both; acked ids were accepted. */
  ghost predicate ConservationInv(p: Peer, remote: Peer) {
    && p.pushed <= |p.sent| && (p.alive ==> p.pushed == |p.sent|)
    && Increasing(p.store.localUnacked)
    && p.acked + LocalIds(p.store.localUnacked) == IdRange(p.pushed)
    && p.acked !! LocalIds(p.store.localUnacked)
    && (forall id :: id in p.acked ==> AckOk(id, |Accepted(remote)|))
  }

  /** Everything about the data of `p` and their acknowledgement by `q`. */
  ghost predicate DirectionInv(regime: Regime, p: Peer, q: Peer, pq: set<Packet>, qp: set<Packet>) {
    && SenderInv(regime, p, pq)
    && ReceiverInv(regime, p.sent, q)
    && AckInv(q, qp)
    && (regime == NoWrap ==> ConservationInv(p, q))
  }

  // ---------------------------------------------------------------- the receiving side

  lemma ContentsAppend(a: seq<MessageMeta>, m: MessageMeta)
    ensures Contents(a + [m]) == Contents(a) + [ContentOf(m)]
  {
    if a != [] {
      assert (a + [m])[1..] == a[1..] + [m];
    }
  }

  /** An id other than the expected one stands for the same number once one more was accepted. */
  lemma StoredOkAdvances(regime: Regime, meta: MessageMeta, m: nat, sent: seq<Content>)
    requires m >= 1 && StoredOk(regime, meta, m, sent) && IdOf(meta) != 0 && IdOf(meta) != WireId(m)
    ensures StoredOk(regime, meta, m + 1, sent)
  {
    LiftStands(IdOf(meta), m);
  }

  lemma AwaitedIsNext(regime: Regime, meta: MessageMeta, m: nat, sent: seq<Content>)
    requires 1 <= m <= |sent| + 1 && (regime == NoWrap ==> |sent| <= MAX_WITHOUT_WRAP)
    requires StoredOk(regime, meta, m, sent) && IdOf(meta) == WireId(m)
    ensures m <= |sent| && ContentOf(meta) == sent[m - 1]
  {
    LiftStands(IdOf(meta), m);
  }

  /** Taking the expected message out, or finding it nowhere, lets the rest advance. */
  lemma StoredAdvance(regime: Regime, q: seq<StoredMessage>, i: nat, m: nat, sent: seq<Content>)
    requires m >= 1 && AllStoredOk(regime, q, m, sent)
    requires forall j :: 0 <= j < |q| ==> IdOf(q[j].meta) != 0 && (j != i ==> IdOf(q[j].meta) != WireId(m))
    ensures AllStoredOk(regime, WithoutIndex(q, i), m + 1, sent)
  {
    var r := WithoutIndex(q, i);
    forall j | 0 <= j < |r|
      ensures StoredOk(regime, r[j].meta, m + 1, sent)
    {
      var k := if i < |q| && j >= i then j + 1 else j;
      assert r[j] == q[k];
      StoredOkAdvances(regime, q[k].meta, m, sent);
    }
  }

  lemma RestoredOneKeepsCore(regime: Regime, sent: seq<Content>, delivered: seq<Content>, s: StoreState, i: nat,
                             now: Time)
    requires ReceiverCore(regime, sent, delivered, s) && (regime == NoWrap ==> |sent| <= MAX_WITHOUT_WRAP)
    requires i < |s.outOfOrder| && IdOf(s.outOfOrder[i].meta) == s.nextRemoteId
    ensures ReceiverCore(regime, sent, delivered, RestoredOne(s, i, now))
  {
    var accepted := delivered + Contents(s.delayed);
    var m := |accepted| + 1;
    var u := RestoredOne(s, i, now);
    assert StoredOk(regime, s.outOfOrder[i].meta, m, sent);
    AwaitedIsNext(regime, s.outOfOrder[i].meta, m, sent);
    ContentsAppend(s.delayed, s.outOfOrder[i].meta);
    assert delivered + Contents(u.delayed) == accepted + [sent[m - 1]];
    NextIdIsNextNumber(m);
    WellStoredAfterOne(s, i, now);
    StoredAdvance(regime, s.outOfOrder, i, m, sent);
    assert u.outOfOrder == WithoutIndex(s.outOfOrder, i);
  }

  lemma {:induction false} RestoreKeepsCore(regime: Regime, sent: seq<Content>, delivered: seq<Content>,
                                            s: StoreState, now: Time)
    requires ReceiverCore(regime, sent, delivered, s) && (regime == NoWrap ==> |sent| <= MAX_WITHOUT_WRAP)
    ensures ReceiverCore(regime, sent, delivered, Restore(s, now))
    ensures |Contents(s.delayed)| <= |Contents(Restore(s, now).delayed)|
    decreases |s.outOfOrder|
  {
    var i := FindStored(s.outOfOrder, s.nextRemoteId);
    if i < |s.outOfOrder| {
      var u := RestoredOne(s, i, now);
      assert Restore(s, now) == Accept(Released(s, i), now) == Restore(u, now);
      RestoredOneKeepsCore(regime, sent, delivered, s, i, now);
      RestoreKeepsCore(regime, sent, delivered, u, now);
    }
  }

  /** The expected message arrives: it is accepted, and with it what it completes. */
  lemma AcceptKeepsCore(regime: Regime, sent: seq<Content>, delivered: seq<Content>, s: StoreState, now: Time)
    requires ReceiverCore(regime, sent, delivered, s) && (regime == NoWrap ==> |sent| <= MAX_WITHOUT_WRAP)
    requires !Awaited(s) && s.delayed == [] && |delivered| < |sent|
    ensures ReceiverCore(regime, sent, delivered + [sent[|delivered|]], Accept(s, now))
  {
    var m := |delivered| + 1;
    var delivered' := delivered + [sent[|delivered|]];
    var u := s.(remoteUnacked := s.remoteUnacked + [RemoteAck(s.nextRemoteId, now)],
                nextRemoteId := NextId(s.nextRemoteId));
    assert delivered + Contents(s.delayed) == delivered;
    assert delivered' + Contents(u.delayed) == delivered';
    NextIdIsNextNumber(m);
    StoredAdvance(regime, s.outOfOrder, |s.outOfOrder|, m, sent);
    RestoreKeepsCore(regime, sent, delivered', u, now);
  }

  /** The decision on an admissible arrival: in order only if it is the expected number. */
  lemma VerdictIsRight(regime: Regime, n: nat, m: nat, total: nat)
    requires 1 <= n <= total && 1 <= m <= total + 1 && ArrivalOk(regime, n, m)
    requires regime == NoWrap ==> total <= MAX_WITHOUT_WRAP
    ensures Classify(WireId(n), WireId(m)) == InOrder ==> n == m
    ensures regime == Windowed ==> Classify(WireId(n), WireId(m)) == ClassifyUnbounded(n, m)
  {
    if regime == Windowed {
      ClassifyRefinesUnbounded(n, m);
    }
  }

  lemma StoringKeepsOthers(regime: Regime, sent: seq<Content>, s: StoreState, meta: MessageMeta, m: nat, now: Time)
    requires WellStored(s) && IdOf(meta) != 0
    requires m >= 1 && AllStoredOk(regime, s.outOfOrder, m, sent) && StoredOk(regime, meta, m, sent)
    ensures var t := StoreOutOfOrder(s, meta, now).0;
            WellStored(t) && AllStoredOk(regime, t.outOfOrder, m, sent)
            && t == s.(outOfOrder := t.outOfOrder)
  {
    hide StoredOk;
    var q, t := s.outOfOrder, StoreOutOfOrder(s, meta, now).0.outOfOrder;
    assert t == q || t == q + [StoredMessage(meta, now)];
    assert forall i :: 0 <= i < |q| ==> t[i] == q[i];
  }

  /** A stored arrival stands for its own number. */
  lemma StoringKeepsCore(regime: Regime, sent: seq<Content>, delivered: seq<Content>, s: StoreState,
                         meta: MessageMeta, n: nat, now: Time)
    requires ReceiverCore(regime, sent, delivered, s) && s.delayed == []
    requires meta.rel.Some? && 1 <= n <= |sent| && IdOf(meta) == WireId(n) && ContentOf(meta) == sent[n - 1]
    requires if regime == NoWrap then WireId(n) == n else |delivered| + 1 <= n < |delivered| + 1 + ID_PERIOD
    ensures ReceiverCore(regime, sent, delivered, StoreOutOfOrder(s, meta, now).0)
  {
    hide WellStored, AllStoredOk, StoreOutOfOrder;
    if regime == Windowed {
      LiftOfWireId(n, |delivered| + 1);
    }
    assert StoredOk(regime, meta, |delivered| + 1, sent);
    assert delivered + Contents(s.delayed) == delivered;
    StoringKeepsOthers(regime, sent, s, meta, |delivered| + 1, now);
  }

  /** A re-acknowledged duplicate restores nothing: the store is already settled. */
  lemma AckAgainKeepsCore(regime: Regime, sent: seq<Content>, delivered: seq<Content>, s: StoreState, id: u16,
                          now: Time)
    requires ReceiverCore(regime, sent, delivered, s) && !Awaited(s)
    requires AckOk(id, |delivered + Contents(s.delayed)|)
    ensures ReceiverCore(regime, sent, delivered, AckAgain(s, id, now))
    ensures AckAgain(s, id, now).delayed == s.delayed
  {
    var t := s.(remoteUnacked := s.remoteUnacked + [RemoteAck(id, now)]);
    assert FindStored(t.outOfOrder, t.nextRemoteId) == |t.outOfOrder|;
    assert Restore(t, now) == t;
  }

  lemma ArrivalKeepsReceiver(regime: Regime, sent: seq<Content>, p: Peer, packet: Packet, meta: MessageMeta, now: Time)
    requires ReceiverInv(regime, sent, p) && (regime == NoWrap ==> |sent| <= MAX_WITHOUT_WRAP)
    requires PacketOk(packet, sent) && Carries(meta, packet.msg) && meta.rel.Some?
    requires p.store.delayed == []
    requires packet.number != 0 ==> ArrivalOk(regime, packet.number, |p.delivered| + 1)
    ensures var (s, r) := AfterIncoming(p.store, meta, now);
            var delivered := if r.Ok? && r.value && IdOf(meta) != 0 then p.delivered + [ContentOf(meta)] else p.delivered;
            && ReceiverCore(regime, sent, delivered, s)
            && |delivered + Contents(s.delayed)| >= |p.delivered|
  {
    hide StoredOk, Restore, AckAgain, AckAll;
    var s := p.store.(localUnacked := AckAll(p.store.localUnacked, meta.rel.value.acks));
    var n, m := packet.number, |p.delivered| + 1;
    assert p.delivered + Contents(s.delayed) == p.delivered;
    assert ReceiverCore(regime, sent, p.delivered, s) && !Awaited(s);
    if n != 0 {
      VerdictIsRight(regime, n, m, |sent|);
      match Classify(IdOf(meta), s.nextRemoteId)
      case Duplicate => AckAgainKeepsCore(regime, sent, p.delivered, s, IdOf(meta), now);
      case OutOfOrder => StoringKeepsCore(regime, sent, p.delivered, s, meta, n, now);
      case InOrder => AcceptKeepsCore(regime, sent, p.delivered, s, now);
    }
  }

  /** What actions other than receiving leave as it is. */
  ghost predicate SameReceived(p: Peer, p': Peer) {
    && Accepted(p') == Accepted(p)
    && p'.store.outOfOrder == p.store.outOfOrder && p'.store.nextRemoteId == p.store.nextRemoteId
    && (forall i :: 0 <= i < |p'.store.remoteUnacked| ==> p'.store.remoteUnacked[i] in p.store.remoteUnacked)
    && |p'.store.localUnacked|
       <= if |p.store.localUnacked| <= MAX_LOCAL_UNACKED then MAX_LOCAL_UNACKED else |p.store.localUnacked|
  }

  lemma TakingDelayedKeepsAccepted(p: Peer, out: set<Packet>)
    ensures SameReceived(p, Act(p, out, TakeDelayed).0)
  {
    if p.store.delayed != [] {
      assert Contents(p.store.delayed) == [ContentOf(p.store.delayed[0])] + Contents(p.store.delayed[1..]);
      assert Accepted(Act(p, out, TakeDelayed).0) == Accepted(p);
    }
  }

  lemma SendingKeepsAccepted(p: Peer, out: set<Packet>, action: Action)
    requires action.SendReliable? || action.SendUnreliable? || action.FlushAcks?
    ensures SameReceived(p, Act(p, out, action).0)
  {
    hide Contents, Ids;
  }

  lemma RetransmittingKeepsAccepted(p: Peer, out: set<Packet>, number: nat, now: Time)
    ensures SameReceived(p, Act(p, out, Retransmit(number, now)).0)
  {
    hide Contents, LocalDue;
  }

  /** Apart from receiving, actions leave what was accepted as it is. */
  lemma OtherActionsKeepAccepted(p: Peer, out: set<Packet>, action: Action)
    requires !action.Receive?
    ensures SameReceived(p, Act(p, out, action).0)
  {
    match action
    case TakeDelayed => TakingDelayedKeepsAccepted(p, out);
    case Retransmit(number, now) => RetransmittingKeepsAccepted(p, out, number, now);
    case UpdateRtt(_) =>
    case _ => SendingKeepsAccepted(p, out, action);
  }

  lemma SameReceivedKeepsReceiver(regime: Regime, sent: seq<Content>, p: Peer, p': Peer)
    requires ReceiverInv(regime, sent, p) && SameReceived(p, p')
    ensures ReceiverInv(regime, sent, p') && |Accepted(p)| == |Accepted(p')|
  {
    hide Contents, StoredOk, AckOk;
  }

  lemma ReceivingKeepsReceiver(regime: Regime, sent: seq<Content>, p: Peer, out: set<Packet>, packet: Packet,
                               meta: MessageMeta, now: Time)
    requires ReceiverInv(regime, sent, p) && (regime == NoWrap ==> |sent| <= MAX_WITHOUT_WRAP)
    requires PacketOk(packet, sent) && Carries(meta, packet.msg) && (meta.rel.Some? ==> meta.rel.value.Valid())
    requires p.store.delayed == []
    requires packet.number != 0 ==> ArrivalOk(regime, packet.number, |p.delivered| + 1)
    ensures var p' := Act(p, out, Receive(packet, meta, now)).0;
            ReceiverInv(regime, sent, p') && |Accepted(p)| <= |Accepted(p')|
  {
    hide ReceiverCore, StoreInv, AfterIncoming, PacketOk;
    if meta.rel.Some? {
      ArrivalKeepsReceiver(regime, sent, p, packet, meta, now);
      HandleIncomingKeepsInv(p.store, meta, now);
    }
  }

  /** Whatever `p` does, it stays a receiver in order with respect to what the remote sent. */
  lemma ActKeepsReceiver(regime: Regime, sent: seq<Content>, p: Peer, incoming: set<Packet>, out: set<Packet>,
                         action: Action)
    requires Enabled(regime, p, incoming, action)
    requires ReceiverInv(regime, sent, p) && (regime == NoWrap ==> |sent| <= MAX_WITHOUT_WRAP)
    requires forall packet :: packet in incoming ==> PacketOk(packet, sent)
    ensures ReceiverInv(regime, sent, Act(p, out, action).0)
    ensures |Accepted(p)| <= |Accepted(Act(p, out, action).0)|
  {
    hide Act, ReceiverInv, SameReceived;
    if action.Receive? {
      ReceivingKeepsReceiver(regime, sent, p, out, action.packet, action.meta, action.now);
    } else {
      OtherActionsKeepAccepted(p, out, action);
      SameReceivedKeepsReceiver(regime, sent, p, Act(p, out, action).0);
    }
  }

  // ---------------------------------------------------------------- the sending side

  lemma WithoutIndexKeeps(q: seq<LocalMessage>, k: nat)
    ensures var r := WithoutIndex(q, k);
            && (forall m :: m in r ==> m in q)
            && (Increasing(q) ==> Increasing(r))
            && (forall id :: id in LocalIds(q) && (k < |q| ==> id != q[k].messageId) ==> id in LocalIds(r))
  {
    var r := WithoutIndex(q, k);
    assert forall i :: 0 <= i < |r| ==> r[i] == q[if k < |q| && i >= k then i + 1 else i];
    forall id | id in LocalIds(q) && (k < |q| ==> id != q[k].messageId)
      ensures id in LocalIds(r)
    {
      var i :| 0 <= i < |q| && q[i].messageId == id;
      assert r[if k < |q| && i > k then i - 1 else i].messageId == id;
    }
  }

  /** Acks only remove, keep the order, and remove nothing but acknowledged ids. */
  lemma {:induction false} AckAllProperties(q: seq<LocalMessage>, acks: seq<u16>)
    ensures var q' := AckAll(q, acks);
            && (forall m :: m in q' ==> m in q)
            && (Increasing(q) ==> Increasing(q'))
            && LocalIds(q') <= LocalIds(q)
            && (forall id :: id in LocalIds(q) && id !in LocalIds(q') ==> id in acks)
    decreases |acks|
  {
    if acks != [] {
      var k := FindLocal(q, acks[0]);
      WithoutIndexKeeps(q, k);
      AckAllProperties(WithoutIndex(q, k), acks[1..]);
    }
    forall id | id in LocalIds(AckAll(q, acks))
      ensures id in LocalIds(q)
    {
      var i :| 0 <= i < |AckAll(q, acks)| && AckAll(q, acks)[i].messageId == id;
      assert AckAll(q, acks)[i] in q;
    }
  }

  lemma SentGrowthKeepsQueued(m: LocalMessage, sent: seq<Content>, more: seq<Content>)
    requires QueuedOk(m, sent)
    ensures QueuedOk(m, sent + more)
  {
    var n :| CarriesNumber(m.msg, n, sent);
    assert CarriesNumber(m.msg, n, sent + more);
  }

  lemma SendingKeepsSender(regime: Regime, p: Peer, out: set<Packet>, content: Content, now: Time)
    requires SenderInv(regime, p, out) && (regime == NoWrap ==> |p.sent| < MAX_WITHOUT_WRAP)
    ensures var (p', out') := Act(p, out, SendReliable(content, now)); SenderInv(regime, p', out')
  {
    var (p', out') := Act(p, out, SendReliable(content, now));
    var msg := ReliableMessage(p, content);
    NextIdIsNextNumber(|p.sent| + 1);
    assert CarriesNumber(msg, |p.sent| + 1, p'.sent);
    forall m | m in p'.store.localUnacked
      ensures QueuedOk(m, p'.sent)
    {
      if m in p.store.localUnacked {
        SentGrowthKeepsQueued(m, p.sent, [content]);
      }
    }
    forall packet | packet in out'
      ensures PacketOk(packet, p'.sent)
    {
      if packet in out {
        assert PacketOk(packet, p.sent);
      }
    }
  }

  lemma RetransmittingKeepsSender(regime: Regime, p: Peer, incoming: set<Packet>, out: set<Packet>, number: nat,
                                  now: Time)
    requires SenderInv(regime, p, out) && Enabled(regime, p, incoming, Retransmit(number, now))
    ensures var (p', out') := Act(p, out, Retransmit(number, now)); SenderInv(regime, p', out')
  {
    var (p', out') := Act(p, out, Retransmit(number, now));
    var k := FirstDue(p.store, 0, now);
    if k < |p.store.localUnacked| {
      var sent := p.store.localUnacked[k];
      assert sent in p.store.localUnacked && QueuedOk(sent, p.sent);
      var resent := p'.store.localUnacked[k];
      assert resent.msg == sent.msg && resent.messageId == sent.messageId;
      assert QueuedOk(resent, p.sent);
      assert forall m :: m in p'.store.localUnacked ==> m == resent || m in p.store.localUnacked;
    }
  }

  lemma ActKeepsSender(regime: Regime, p: Peer, incoming: set<Packet>, out: set<Packet>, action: Action)
    requires Enabled(regime, p, incoming, action) && SenderInv(regime, p, out)
    ensures SenderInv(regime, Act(p, out, action).0, Act(p, out, action).1)
  {
    match action
    case SendReliable(content, now) => SendingKeepsSender(regime, p, out, content, now);
    case Retransmit(number, now) => RetransmittingKeepsSender(regime, p, incoming, out, number, now);
    case Receive(_, meta, now) =>
      if meta.rel.Some? {
        IncomingLocalUnacked(p.store, meta, now);
        IncomingNextLocal(p.store, meta, now);
        AckAllProperties(p.store.localUnacked, meta.rel.value.acks);
      }
    case _ =>
  }

  lemma {:induction false} RestoreKeepsNextLocal(s: StoreState, now: Time)
    ensures Restore(s, now).nextLocalId == s.nextLocalId
    decreases |s.outOfOrder|
  {
    var i := FindStored(s.outOfOrder, s.nextRemoteId);
    if i < |s.outOfOrder| {
      RestoreKeepsNextLocal(RestoredOne(s, i, now), now);
    }
  }

  lemma IncomingNextLocal(s: StoreState, meta: MessageMeta, now: Time)
    requires meta.rel.Some? && meta.rel.value.Valid()
    ensures AfterIncoming(s, meta, now).0.nextLocalId == s.nextLocalId
  {
    var s1 := s.(localUnacked := AckAll(s.localUnacked, meta.rel.value.acks));
    RestoreKeepsNextLocal(s1.(remoteUnacked := s1.remoteUnacked + [RemoteAck(IdOf(meta), now)]), now);
    RestoreKeepsNextLocal(s1.(remoteUnacked := s1.remoteUnacked + [RemoteAck(s1.nextRemoteId, now)],
                              nextRemoteId := NextId(s1.nextRemoteId)), now);
  }

  ghost predicate OutAcksOk(out: set<Packet>, q: seq<LocalMessage>, accepted: nat) {
    && (forall packet :: packet in out ==> AcksOk(packet.msg, accepted))
    && (forall m :: m in q ==> AcksOk(m.msg, accepted))
  }

  lemma OutAcksGrow(out: set<Packet>, q: seq<LocalMessage>, a: nat, b: nat)
    requires OutAcksOk(out, q, a) && a <= b
    ensures OutAcksOk(out, q, b)
  {
  }

  /** The acks taken from the waiting ones are for accepted messages. */
  lemma TakenAcksOk(s: StoreState, msg: DataMessage, accepted: nat)
    requires AllAcksOk(s.remoteUnacked, accepted)
    requires msg.rel.Some? ==> msg.rel.value.acks == AfterTakingAcks(s, 0).1.acks
    ensures AcksOk(msg, accepted)
  {
  }

  lemma SendingKeepsAcks(p: Peer, out: set<Packet>, action: Action, n: nat)
    requires action.SendReliable? || action.SendUnreliable? || action.FlushAcks?
    requires OutAcksOk(out, p.store.localUnacked, n) && AllAcksOk(p.store.remoteUnacked, n)
    ensures OutAcksOk(Act(p, out, action).1, Act(p, out, action).0.store.localUnacked, n)
  {
    hide AcksOk;
    var (p', out') := Act(p, out, action);
    forall packet | packet in out' - out
      ensures AcksOk(packet.msg, n)
    {
      TakenAcksOk(p.store, packet.msg, n);
    }
    if action.SendReliable? {
      TakenAcksOk(p.store, ReliableMessage(p, action.content), n);
    }
  }

  lemma RetransmittingKeepsAcks(p: Peer, out: set<Packet>, number: nat, now: Time, n: nat)
    requires OutAcksOk(out, p.store.localUnacked, n)
    ensures OutAcksOk(Act(p, out, Retransmit(number, now)).1, Act(p, out, Retransmit(number, now)).0.store.localUnacked, n)
  {
    hide AcksOk;
    var k := FirstDue(p.store, 0, now);
    if k < |p.store.localUnacked| {
      assert p.store.localUnacked[k] in p.store.localUnacked;
      var q := AfterRetransmit(p.store, now).0.localUnacked;
      assert forall m :: m in q ==> m == q[k] || m in p.store.localUnacked;
    }
  }

  lemma FewerQueuedAcks(out: set<Packet>, q: seq<LocalMessage>, acks: seq<u16>, n: nat)
    requires OutAcksOk(out, q, n)
    ensures OutAcksOk(out, AckAll(q, acks), n)
  {
    hide AcksOk, AckAll;
    AckAllProperties(q, acks);
  }

  lemma ReceivingKeepsOutAcks(p: Peer, out: set<Packet>, packet: Packet, meta: MessageMeta, now: Time, n: nat)
    requires OutAcksOk(out, p.store.localUnacked, n) && (meta.rel.Some? ==> meta.rel.value.Valid())
    ensures var (p', out') := Act(p, out, Receive(packet, meta, now)); OutAcksOk(out', p'.store.localUnacked, n)
  {
    hide OutAcksOk, AfterIncoming, AckAll, LocalIds;
    if meta.rel.Some? {
      ReceivingEffect(p, out, packet, meta, now);
      FewerQueuedAcks(out, p.store.localUnacked, meta.rel.value.acks, n);
    }
  }

  /** The acks a peer puts on the wire, now or again later, are for messages it accepted. */
  lemma ActKeepsAcks(regime: Regime, sent: seq<Content>, p: Peer, incoming: set<Packet>, out: set<Packet>,
                     action: Action)
    requires Enabled(regime, p, incoming, action) && AckInv(p, out) && ReceiverInv(regime, sent, p)
    requires |Accepted(p)| <= |Accepted(Act(p, out, action).0)|
    ensures AckInv(Act(p, out, action).0, Act(p, out, action).1)
  {
    hide OutAcksOk, AllStoredOk, StoreInv, Contents;
    var p' := Act(p, out, action).0;
    var n := |Accepted(p)|;
    match action {
      case SendReliable(content, now) => SendingKeepsAcks(p, out, action, n);
      case SendUnreliable(content) => SendingKeepsAcks(p, out, action, n);
      case FlushAcks => SendingKeepsAcks(p, out, action, n);
      case Retransmit(number, now) => RetransmittingKeepsAcks(p, out, number, now, n);
      case Receive(packet, meta, now) => ReceivingKeepsOutAcks(p, out, packet, meta, now, n);
      case _ =>
    }
    OutAcksGrow(Act(p, out, action).1, p'.store.localUnacked, n, |Accepted(p')|);
  }

  lemma LocalIdsAppend(q: seq<LocalMessage>, m: LocalMessage)
    ensures LocalIds(q + [m]) == LocalIds(q) + {m.messageId}
  {
    var r := q + [m];
    forall id | id in LocalIds(q) + {m.messageId}
      ensures id in LocalIds(r)
    {
      if id in LocalIds(q) {
        var i :| 0 <= i < |q| && q[i].messageId == id;
        assert r[i].messageId == id;
      } else {
        assert r[|q|].messageId == id;
      }
    }
  }

  lemma SendingKeepsConservation(p: Peer, q: Peer, out: set<Packet>, content: Content, now: Time)
    requires ConservationInv(p, q) && SenderInv(NoWrap, p, out) && p.alive && |p.sent| < MAX_WITHOUT_WRAP
    ensures ConservationInv(Act(p, out, SendReliable(content, now)).0, q)
  {
    var p' := Act(p, out, SendReliable(content, now)).0;
    var l := p.store.localUnacked;
    var id := p.store.nextLocalId;
    assert id == |p.sent| + 1;
    if p'.alive {
      var m := p'.store.localUnacked[|l|];
      assert p'.store.localUnacked == l + [m] && m.messageId == id;
      forall i | 0 <= i < |l|
        ensures l[i].messageId < id
      {
        assert l[i].messageId in LocalIds(l);
        assert AckOk(l[i].messageId, p.pushed);
      }
      LocalIdsAppend(l, m);
      assert IdRange(p'.pushed) == IdRange(p.pushed) + {id};
    }
  }

  /** What receiving does on the sending side: acknowledged messages leave the queue, and are recorded. */
  lemma ReceivingEffect(p: Peer, out: set<Packet>, packet: Packet, meta: MessageMeta, now: Time)
    requires meta.rel.Some? && meta.rel.value.Valid()
    ensures var p' := Act(p, out, Receive(packet, meta, now)).0;
            && p'.store.localUnacked == AckAll(p.store.localUnacked, meta.rel.value.acks)
            && p'.acked == p.acked + (LocalIds(p.store.localUnacked) - LocalIds(p'.store.localUnacked))
            && p'.pushed == p.pushed && p'.sent == p.sent && (p'.alive ==> p.alive)
  {
    hide AfterIncoming, AckAll, LocalIds;
    IncomingLocalUnacked(p.store, meta, now);
  }

  lemma AckingKeepsConservation(p: Peer, q: Peer, out: set<Packet>, packet: Packet, meta: MessageMeta, now: Time)
    requires ConservationInv(p, q) && Carries(meta, packet.msg) && AcksOk(packet.msg, |Accepted(q)|)
    requires meta.rel.Some? && meta.rel.value.Valid() && p.alive
    ensures ConservationInv(Act(p, out, Receive(packet, meta, now)).0, q)
  {
    hide Act, AckAll, Accepted, LocalIds, IdRange, AckOk, AcksOk, Increasing;
    var p' := Act(p, out, Receive(packet, meta, now)).0;
    var l, l' := p.store.localUnacked, p'.store.localUnacked;
    ReceivingEffect(p, out, packet, meta, now);
    AckAllProperties(l, meta.rel.value.acks);
    StillPartition(p.acked, LocalIds(l), LocalIds(l'), IdRange(p.pushed));
    forall id | id in LocalIds(l) - LocalIds(l')
      ensures AckOk(id, |Accepted(q)|)
    {
      AckIsOk(packet.msg, |Accepted(q)|, id);
    }
  }

  lemma StillPartition(acked: set<u16>, queued: set<u16>, left: set<u16>, all: set<u16>)
    requires acked + queued == all && acked !! queued && left <= queued
    ensures (acked + (queued - left)) + left == all && (acked + (queued - left)) !! left
  {
  }

  lemma AckIsOk(msg: DataMessage, accepted: nat, id: u16)
    requires AcksOk(msg, accepted) && msg.rel.Some? && id in msg.rel.value.acks
    ensures AckOk(id, accepted)
  {
  }

  lemma RetransmittingKeepsIds(s: StoreState, now: Time)
    ensures var l, l' := s.localUnacked, AfterRetransmit(s, now).0.localUnacked;
            LocalIds(l') == LocalIds(l) && (Increasing(l) ==> Increasing(l'))
  {
    var l, l' := s.localUnacked, AfterRetransmit(s, now).0.localUnacked;
    assert |l'| == |l| && forall i :: 0 <= i < |l| ==> l'[i].messageId == l[i].messageId;
    assert forall id :: id in LocalIds(l) ==> id in LocalIds(l');
  }

  lemma ActKeepsConservation(p: Peer, q: Peer, incoming: set<Packet>, out: set<Packet>, action: Action)
    requires Enabled(NoWrap, p, incoming, action)
    requires ConservationInv(p, q) && SenderInv(NoWrap, p, out)
    requires forall packet :: packet in incoming ==> AcksOk(packet.msg, |Accepted(q)|)
    ensures ConservationInv(Act(p, out, action).0, q)
  {
    match action
    case SendReliable(content, now) => SendingKeepsConservation(p, q, out, content, now);
    case Retransmit(number, now) => RetransmittingKeepsIds(p.store, now);
    case Receive(packet, meta, now) =>
      if meta.rel.Some? {
        AckingKeepsConservation(p, q, out, packet, meta, now);
      }
    case _ => assert Act(p, out, action).0.store.localUnacked == p.store.localUnacked;
  }

  // ---------------------------------------------------------------- the system

  datatype System = System(a: Peer, b: Peer, ab: set<Packet>, ba: set<Packet>)

  datatype Step = Step(byA: bool, action: Action)

  const FreshPeer := Peer(InitialState, true, [], [], 0, {})
  const Start := System(FreshPeer, FreshPeer, {}, {})

  ghost predicate CanStep(regime: Regime, y: System, step: Step) {
    if step.byA then Enabled(regime, y.a, y.ba, step.action) else Enabled(regime, y.b, y.ab, step.action)
  }

  ghost function Next(regime: Regime, y: System, step: Step): System
    requires CanStep(regime, y, step)
  {
    if step.byA then
      var (a, ab) := Act(y.a, y.ab, step.action);
      System(a, y.b, ab, y.ba)
    else
      var (b, ba) := Act(y.b, y.ba, step.action);
      System(y.a, b, y.ab, ba)
  }

  ghost predicate SystemInv(regime: Regime, y: System) {
    DirectionInv(regime, y.a, y.b, y.ab, y.ba) && DirectionInv(regime, y.b, y.a, y.ba, y.ab)
  }

  /** One peer's action keeps both directions. */
  lemma ActKeepsBoth(regime: Regime, p: Peer, q: Peer, pq: set<Packet>, qp: set<Packet>, action: Action)
    requires DirectionInv(regime, p, q, pq, qp) && DirectionInv(regime, q, p, qp, pq)
    requires Enabled(regime, p, qp, action)
    ensures var (p', pq') := Act(p, pq, action);
            DirectionInv(regime, p', q, pq', qp) && DirectionInv(regime, q, p', qp, pq')
  {
    var (p', pq') := Act(p, pq, action);
    ActKeepsSender(regime, p, qp, pq, action);
    ActKeepsReceiver(regime, q.sent, p, qp, pq, action);
    ActKeepsAcks(regime, q.sent, p, qp, pq, action);
    if regime == NoWrap {
      ActKeepsConservation(p, q, qp, pq, action);
    }
    assert p.sent <= p'.sent;
    SentGrowthKeepsReceiver(regime, p.sent, p'.sent, q);
  }

  lemma SentGrowthKeepsReceiver(regime: Regime, sent: seq<Content>, sent': seq<Content>, q: Peer)
    requires ReceiverInv(regime, sent, q) && sent <= sent'
    ensures ReceiverInv(regime, sent', q)
  {
    forall i | 0 <= i < |q.store.outOfOrder|
      ensures StoredOk(regime, q.store.outOfOrder[i].meta, |Accepted(q)| + 1, sent')
    {
      assert StoredOk(regime, q.store.outOfOrder[i].meta, |Accepted(q)| + 1, sent);
    }
  }

  lemma StepKeepsInv(regime: Regime, y: System, step: Step)
    requires SystemInv(regime, y) && CanStep(regime, y, step)
    ensures SystemInv(regime, Next(regime, y, step))
  {
    if step.byA {
      ActKeepsBoth(regime, y.a, y.b, y.ab, y.ba, step.action);
    } else {
      ActKeepsBoth(regime, y.b, y.a, y.ba, y.ab, step.action);
    }
  }

  ghost predicate IsRun(regime: Regime, y: System, steps: seq<Step>)
    decreases |steps|
  {
    steps == [] || (CanStep(regime, y, steps[0]) && IsRun(regime, Next(regime, y, steps[0]), steps[1..]))
  }

  ghost function After(regime: Regime, y: System, steps: seq<Step>): System
    requires IsRun(regime, y, steps)
    decreases |steps|
  {
    if steps == [] then y else After(regime, Next(regime, y, steps[0]), steps[1..])
  }

  lemma {:induction false} RunKeepsInv(regime: Regime, y: System, steps: seq<Step>)
    requires SystemInv(regime, y) && IsRun(regime, y, steps)
    ensures SystemInv(regime, After(regime, y, steps))
    decreases |steps|
  {
    if steps != [] {
      StepKeepsInv(regime, y, steps[0]);
      RunKeepsInv(regime, Next(regime, y, steps[0]), steps[1..]);
    }
  }

  lemma StartInv(regime: Regime)
    ensures SystemInv(regime, Start)
  {
  }

  // ---------------------------------------------------------------- the promises

  /**
    Exactly once and in order: in every run, without id wrap or through any number of wraps
    with arrivals in the window, what the application was handed is a prefix of what the
    remote sent, and so is that together with the delayed queue.
   */
  lemma ExactlyOnceInOrder(regime: Regime, steps: seq<Step>)
    requires IsRun(regime, Start, steps)
    ensures var y := After(regime, Start, steps);
            && y.b.delivered <= y.a.sent && y.a.delivered <= y.b.sent
            && Accepted(y.b) <= y.a.sent && Accepted(y.a) <= y.b.sent
  {
    StartInv(regime);
    RunKeepsInv(regime, Start, steps);
  }

  /** Sender conservation in either direction of a run. */
  ghost predicate Conserved(p: Peer, q: Peer) {
    && p.acked + LocalIds(p.store.localUnacked) == IdRange(p.pushed)
    && p.acked !! LocalIds(p.store.localUnacked)
    && |LocalIds(p.store.localUnacked)| == |p.store.localUnacked| <= MAX_LOCAL_UNACKED
    && (forall id :: id in p.acked ==> 1 <= id <= |Accepted(q)|)
    && |p.sent| - 1 <= p.pushed <= |p.sent|
  }

  lemma {:induction false} IncreasingIdsDistinct(q: seq<LocalMessage>)
    requires Increasing(q)
    ensures |LocalIds(q)| == |q|
    decreases |q|
  {
    if q != [] {
      var init, last := q[..|q| - 1], q[|q| - 1];
      IncreasingIdsDistinct(init);
      assert LocalIds(q) == LocalIds(init) + {last.messageId};
      assert last.messageId !in LocalIds(init);
    }
  }

  /**
    Ack safety and sender conservation in every run without id reuse: an id leaves the
    retransmission queue only after the remote accepted its message; each queued id is
    either still there or acknowledged, never both and never lost; the queued ids are
    distinct and at most 64; and every ack on the wire is for an accepted message.
   */
  lemma AckSafety(steps: seq<Step>)
    requires IsRun(NoWrap, Start, steps)
    ensures var y := After(NoWrap, Start, steps);
            && Conserved(y.a, y.b) && Conserved(y.b, y.a)
            && (forall packet :: packet in y.ab ==> AcksOk(packet.msg, |Accepted(y.a)|))
            && (forall packet :: packet in y.ba ==> AcksOk(packet.msg, |Accepted(y.b)|))
  {
    StartInv(NoWrap);
    RunKeepsInv(NoWrap, Start, steps);
    PushedRun(Start, steps);
    var y := After(NoWrap, Start, steps);
    IncreasingIdsDistinct(y.a.store.localUnacked);
    IncreasingIdsDistinct(y.b.store.localUnacked);
  }

  ghost predicate AllButOnePushed(p: Peer) {
    |p.sent| - 1 <= p.pushed && (p.alive ==> p.pushed == |p.sent|)
  }

  lemma {:induction false} PushedRun(y: System, steps: seq<Step>)
    requires IsRun(NoWrap, y, steps) && AllButOnePushed(y.a) && AllButOnePushed(y.b)
    ensures AllButOnePushed(After(NoWrap, y, steps).a) && AllButOnePushed(After(NoWrap, y, steps).b)
    decreases |steps|
  {
    if steps != [] {
      PushedRun(Next(NoWrap, y, steps[0]), steps[1..]);
    }
  }

  /** A due retransmission is always one of a message sent, so no run is cut short for want of a number. */
  lemma RetransmissionHasNumber(regime: Regime, p: Peer, out: set<Packet>, incoming: set<Packet>, now: Time)
    requires SenderInv(regime, p, out) && p.alive
    ensures exists n :: Enabled(regime, p, incoming, Retransmit(n, now))
  {
    var r := AfterRetransmit(p.store, now).1;
    if r.Ok? && r.value.Resend? {
      var k := FirstDue(p.store, 0, now);
      assert QueuedOk(p.store.localUnacked[k], p.sent);
      var n :| CarriesNumber(p.store.localUnacked[k].msg, n, p.sent);
      assert Enabled(regime, p, incoming, Retransmit(n, now));
    } else {
      assert Enabled(regime, p, incoming, Retransmit(0, now));
    }
  }
}
