/**
  Two transports over a network that loses, repeats and reorders datagrams at will: whole
  exchanges of sending, timer expiry and receiving, with every message encoded, cut into
  fragments if it is long, decoded and reassembled. What a call does is what the method of
  `UdpTransport` with that duty promises.
 */
module Exchanges {
  import opened Wrappers
  import opened Bytes
  import opened MessageTypes
  import opened DatagramIterator
  import opened MessageCodec
  import opened Reliability
  import opened FragmentStores
  import opened FragmentProofs
  import opened Fragmentation
  import opened Compression
  import opened ReliableDelivery
  import opened UdpTransports
  import opened TransportSteps

  // ---------------------------------------------------------------- the wire

  /** One direction: the connection id the sender writes, its datagram size, and the receiver's size limit. */
  datatype Link = Link(codec: Codec, connectionId: u64, mtu: nat, limit: nat)

  ghost predicate LinkOk(l: Link) {
    Lawful(l.codec) && l.mtu >= MIN_MTU
  }

  /**
    A message that the codec can carry: its indices fit their field, and it is not compressed
    if there is a connection id, which would be written in the wrong place.
   */
  ghost predicate Travels(msg: DataMessage, l: Link) {
    && MessageOk(msg) && RoomForPayload(msg, l.mtu)
    && (l.connectionId == 0 || msg.comp == None)
    && (IsSplit(msg, l) ==> |Split(msg, l.mtu).pieces| <= LAST_FRAGMENT_MASK)
  }

  predicate Unpacks(msg: DataMessage, l: Link) {
    FinalData(l.codec, l.limit, msg.comp, msg.data).Ok?
  }

  predicate IsSplit(msg: DataMessage, l: Link) {
    UnfragmentedSize(msg) > l.mtu
  }

  /** The datagram at `index` of those in which a packet's message went out under a fragmentation id. */
  datatype Sending = Sending(packet: Packet, fragId: u16, index: nat)

  ghost predicate IsDatagramOf(d: Sending, l: Link) {
    && RoomForPayload(d.packet.msg, l.mtu)
    && d.index < |MessageDatagrams(d.packet.msg, l.connectionId, l.mtu, d.fragId)|
  }

  ghost predicate IsSending(d: Sending, l: Link) {
    Travels(d.packet.msg, l) && IsDatagramOf(d, l)
  }

  ghost function BytesOf(d: Sending, l: Link): bytes
    requires IsDatagramOf(d, l)
  {
    MessageDatagrams(d.packet.msg, l.connectionId, l.mtu, d.fragId)[d.index]
  }

  ghost function SendingsOf(packet: Packet, l: Link, fragId: u16): set<Sending>
    requires RoomForPayload(packet.msg, l.mtu)
  {
    set i: nat | i < |MessageDatagrams(packet.msg, l.connectionId, l.mtu, fragId)| :: Sending(packet, fragId, i)
  }

  ghost predicate AllFit(packets: seq<Packet>, l: Link) {
    forall i :: 0 <= i < |packets| ==> RoomForPayload(packets[i].msg, l.mtu)
  }

  /** The datagrams of packets sent one after the other, each fragmented one under the next id. */
  ghost function AllSendings(packets: seq<Packet>, l: Link, fragId: u16): set<Sending>
    requires AllFit(packets, l)
    decreases |packets|
  {
    if packets == [] then {}
    else SendingsOf(packets[0], l, fragId) + AllSendings(packets[1..], l, FragIdAfter(packets[0].msg, l.mtu, fragId))
  }

  ghost predicate IsBytesOfOne(data: bytes, sendings: set<Sending>, l: Link) {
    exists d :: d in sendings && IsDatagramOf(d, l) && BytesOf(d, l) == data
  }

  lemma OneMessageSendings(packet: Packet, l: Link, fragId: u16, data: bytes)
    requires RoomForPayload(packet.msg, l.mtu)
    ensures data in MessageDatagrams(packet.msg, l.connectionId, l.mtu, fragId)
            <==> IsBytesOfOne(data, SendingsOf(packet, l, fragId), l)
  {
    hide MessageDatagrams, RoomForPayload;
    var ds := MessageDatagrams(packet.msg, l.connectionId, l.mtu, fragId);
    if data in ds {
      var i :| 0 <= i < |ds| && ds[i] == data;
      var d := Sending(packet, fragId, i);
      assert d in SendingsOf(packet, l, fragId) && BytesOf(d, l) == data;
    }
  }

  /** These are the datagrams that the sending methods say they put out, and no others. */
  lemma {:induction false} SendingsAreDatagrams(packets: seq<Packet>, msgs: seq<DataMessage>, l: Link, fragId: u16,
                                                data: bytes)
    requires |msgs| == |packets| && (forall i :: 0 <= i < |msgs| ==> packets[i].msg == msgs[i]) && AllHaveRoom(msgs, l.mtu)
    ensures AllFit(packets, l)
    ensures data in AllDatagrams(msgs, l.connectionId, l.mtu, fragId)
            <==> IsBytesOfOne(data, AllSendings(packets, l, fragId), l)
    decreases |packets|
  {
    hide MessageDatagrams, RoomForPayload, SendingsOf, IsDatagramOf, BytesOf;
    assert AllFit(packets, l);
    if packets != [] {
      OneMessageSendings(packets[0], l, fragId, data);
      var next := FragIdAfter(msgs[0], l.mtu, fragId);
      SendingsAreDatagrams(packets[1..], msgs[1..], l, next, data);
    }
  }

  // ---------------------------------------------------------------- the endpoints

  /** A transport, and the history that the promises are about. */
  datatype Endpoint = Endpoint(
    store: StoreState,
    fragments: Messages,
    fragId: u16,
    waiting: seq<Received>,
    alive: bool,
    contents: seq<Content>,           // reliable messages as they were handed to `SendData`, in order
    payloads: seq<bytes>,             // the payloads they were made of
    received: seq<bytes>,             // payloads of reliable messages that receiving returned, in order
    sources: map<u16, DataMessage>)   // for each fragmentation id the message whose fragment was read last

  datatype Call =
    | Send(payload: bytes, uncompressed: bool, reliable: bool, msg: DataMessage, sent: Result<(), TransportError>,
           now: Time)
    | ExpireTimer(clock: nat -> Time, msgs: seq<DataMessage>, numbers: seq<nat>, sent: Result<(), TransportError>)
    | ReceiveNext(from: Option<Sending>, result: Outcome, now: Time)
    | MeasureRtt(micros: nat)

  /** A payload is prepared and sent; the message sent can travel, and the receiver's limit admits it. */
  ghost predicate SendsPayload(regime: Regime, mine: Link, e: Endpoint, wire: set<Sending>, e': Endpoint,
                               wire': set<Sending>,
                        payload: bytes, uncompressed: bool, reliable: bool, msg: DataMessage,
                        sent: Result<(), TransportError>, now: Time)
  {
    var content := Prepared(mine.codec, payload, uncompressed);
    && SendsData(e.store, reliable, now, e'.store, sent, msg) && msg.data == content.data && msg.comp == content.comp
    && Travels(msg, mine) && |payload| < 0x1_0000_0000 && (content.comp.Some? ==> |payload| <= mine.limit)
    && (regime == NoWrap && reliable ==> |e.contents| < MAX_WITHOUT_WRAP)
    && e' == e.(store := e'.store, alive := sent.Ok?, fragId := FragIdAfter(msg, mine.mtu, e.fragId),
                contents := if reliable then e.contents + [ContentOfMessage(content)] else e.contents,
                payloads := if reliable then e.payloads + [payload] else e.payloads)
    && wire' == wire + SendingsOf(Packet(if reliable then |e.contents| + 1 else 0, msg), mine, e.fragId)
  }

  /** The timer expires: what is due goes out again, numbered as what was sent. */
  ghost predicate Expires(mine: Link, e: Endpoint, wire: set<Sending>, e': Endpoint, wire': set<Sending>,
                          clock: nat -> Time, msgs: seq<DataMessage>, numbers: seq<nat>, sent: Result<(), TransportError>)
  {
    && HandlesTimer(e.store, clock, e'.store, sent, msgs) && AreNumbered(msgs, numbers, e.contents)
    && e' == e.(store := e'.store, alive := sent.Ok?, fragId := FragIdAfterAll(msgs, mine.mtu, e.fragId))
    && AllFit(PacketsOf(numbers, msgs), mine) && wire' == wire + AllSendings(PacketsOf(numbers, msgs), mine, e.fragId)
  }

  /** The socket is asked for a datagram. */
  predicate Reads(e: Endpoint) {
    e.waiting == [] && e.store.delayed == []
  }

  /** With this datagram the message is whole. */
  ghost predicate WholeWith(e: Endpoint, d: Sending, theirs: Link)
    requires Travels(d.packet.msg, theirs)
  {
    IsSplit(d.packet.msg, theirs) ==>
      Present(e.fragments, d.fragId) + {d.index} == UpTo(|Split(d.packet.msg, theirs.mtu).pieces|)
  }

  /**
    What is asked of a datagram that arrives: it was sent; if it is a fragment, the store holds
    none of another message under the same fragmentation id; and a message that it completes
    is one the ids allow in this regime.
   */
  ghost predicate MayArrive(regime: Regime, e: Endpoint, d: Sending, theirs: Link, incoming: set<Sending>) {
    && d in incoming && IsSending(d, theirs)
    && (IsSplit(d.packet.msg, theirs) && d.fragId in e.fragments ==>
          d.fragId in e.sources && e.sources[d.fragId] == d.packet.msg)
    && (d.packet.number != 0 && WholeWith(e, d, theirs) ==> ArrivalOk(regime, d.packet.number, |e.received| + 1))
  }

  function MessageIdOf(msg: DataMessage): u16 {
    if msg.rel.Some? then msg.rel.value.messageId else 0
  }

  /** Receiving would return a reliable message: a delayed one, or the one the datagram is of. */
  predicate FromReliable(e: Endpoint, from: Option<Sending>) {
    e.waiting == [] && (e.store.delayed != [] || (from.Some? && MessageIdOf(from.value.packet.msg) != 0))
  }

  function ReceivedAfter(e: Endpoint, from: Option<Sending>, result: Outcome): seq<bytes> {
    if FromReliable(e, from) && result.Ok? && result.value.Some? && result.value.value.Payload?
    then e.received + [result.value.value.data] else e.received
  }

  function SourcesAfter(e: Endpoint, from: Option<Sending>, theirs: Link): map<u16, DataMessage> {
    if Reads(e) && from.Some? && IsSplit(from.value.packet.msg, theirs)
    then e.sources[from.value.fragId := from.value.packet.msg] else e.sources
  }

  /** One call of the receiving method, to which the socket delivers a datagram of the wire or an empty one if asked. */
  ghost predicate ReceivesNext(regime: Regime, theirs: Link, e: Endpoint, incoming: set<Sending>, e': Endpoint,
                               from: Option<Sending>, result: Outcome, now: Time)
  {
    && (from.Some? ==> IsSending(from.value, theirs) && (Reads(e) ==> MayArrive(regime, e, from.value, theirs, incoming)))
    && Receives(theirs.codec, theirs.limit, e.store, e.fragments, e.waiting,
                if from.Some? then BytesOf(from.value, theirs) else [], theirs.connectionId != 0, now,
                e'.store, e'.fragments, e'.waiting, result)
    && e' == e.(store := e'.store, fragments := e'.fragments, waiting := e'.waiting, alive := result != Err(TooUnreliable),
                received := ReceivedAfter(e, from, result), sources := SourcesAfter(e, from, theirs))
  }

  ghost predicate Does(regime: Regime, mine: Link, theirs: Link, e: Endpoint, wire: set<Sending>,
                       incoming: set<Sending>,
                       call: Call, e': Endpoint, wire': set<Sending>)
  {
    e.alive &&
    match call
    case Send(payload, uncompressed, reliable, msg, sent, now) =>
      SendsPayload(regime, mine, e, wire, e', wire', payload, uncompressed, reliable, msg, sent, now)
    case ExpireTimer(clock, msgs, numbers, sent) => Expires(mine, e, wire, e', wire', clock, msgs, numbers, sent)
    case ReceiveNext(from, result, now) => ReceivesNext(regime, theirs, e, incoming, e', from, result, now) && wire' == wire
    case MeasureRtt(micros) => e' == e.(store := e.store.(avgRttMicros := micros)) && wire' == wire
  }

  // ---------------------------------------------------------------- the exchange

  datatype Network = Network(a: Endpoint, b: Endpoint, ab: set<Sending>, ba: set<Sending>)

  datatype Turn = Turn(byA: bool, call: Call)

  datatype Links = Links(ab: Link, ba: Link)

  const FreshEndpoint := Endpoint(InitialState, map[], 0, [], true, [], [], [], map[])
  const Quiet := Network(FreshEndpoint, FreshEndpoint, {}, {})

  /** One endpoint makes a call; the other, and what it put on the wire, stays. */
  ghost predicate IsTurn(regime: Regime, l: Links, n: Network, turn: Turn, n': Network) {
    if turn.byA then
      Does(regime, l.ab, l.ba, n.a, n.ab, n.ba, turn.call, n'.a, n'.ab) && n'.b == n.b && n'.ba == n.ba
    else
      Does(regime, l.ba, l.ab, n.b, n.ba, n.ab, turn.call, n'.b, n'.ba) && n'.a == n.a && n'.ab == n.ab
  }

  ghost predicate IsExchange(regime: Regime, l: Links, nets: seq<Network>, turns: seq<Turn>) {
    && LinkOk(l.ab) && LinkOk(l.ba)
    && |nets| == |turns| + 1 && nets[0] == Quiet
    && forall i :: 0 <= i < |turns| ==> IsTurn(regime, l, nets[i], turns[i], nets[i + 1])
  }

  function EndOf(n: Network, a: bool): Endpoint {
    if a then n.a else n.b
  }

  /** There is no error but that too many messages wait, or that the socket delivers nothing. */
  predicate IsExpectedResult(call: Call)
    requires call.ReceiveNext?
  {
    || call.result.Ok? || call.result == Err(TooUnreliable)
    || (call.from == None && call.result == Err(ZeroLengthMessage))
  }
}
