/**
  Each call of a transport in an exchange is a number of actions of a peer of
  `ReliableDelivery`: after them the peer is where the transport is.
 */
module ExchangeSteps {
  import opened Wrappers
  import opened Bytes
  import opened MessageTypes
  import opened MessageCodec
  import opened DatagramIterator
  import opened SequenceNumbers
  import opened Reliability
  import opened ReliabilityProofs
  import opened FragmentStores
  import opened FragmentProofs
  import opened Fragmentation
  import opened Compression
  import opened ReliableDelivery
  import opened DataPath
  import opened UdpTransports
  import opened TransportSteps
  import opened Exchanges

  // ---------------------------------------------------------------- one datagram

  /** What a datagram decodes to. */
  ghost function MetaOf(d: Sending, l: Link): MessageMeta
    requires IsSending(d, l)
  {
    if IsSplit(d.packet.msg, l) then FragmentOf(d.packet.msg, l.connectionId, l.mtu, d.fragId, d.index)
    else SentMeta(d.packet.msg, l.connectionId, None, d.packet.msg.data)
  }

  /** A datagram as the sender builds it is read as one item. */
  lemma IsOneItem(msg: DataMessage, connectionId: u64, frag: Option<FragmentationHeader>, payload: bytes)
    requires MessageOk(msg) && (frag.Some? ==> frag.value.fragmentIndex < LAST_FRAGMENT_MASK)
    requires connectionId == 0 || msg.comp == None
    ensures Iterate(Datagram(msg, connectionId, frag, payload), 0, connectionId != 0)
            == [Ok(SentMeta(msg, connectionId, frag, payload))]
  {
    hide DataHeader, DecodedMeta, FragBytes, Iterate, MessageOk;
    PlainRoundTrip(msg, connectionId, frag, payload);
    var d, meta := Datagram(msg, connectionId, frag, payload), SentMeta(msg, connectionId, frag, payload);
    assert d[0..] == d;
    assert meta.dataOffset + |meta.data| == |d|;
    IterateStep(d, 0, connectionId != 0);
    IterateStep(d, |d|, connectionId != 0);
  }

  /** A datagram of the wire is read as the one message, or fragment, it was built from. */
  lemma ReadAsOneItem(d: Sending, l: Link)
    requires IsSending(d, l)
    ensures BytesOf(d, l) != [] && Iterate(BytesOf(d, l), 0, l.connectionId != 0) == [Ok(MetaOf(d, l))]
  {
    hide Datagram, Iterate, DataHeader, Pieces, SentMeta, FragmentDatagram;
    var msg := d.packet.msg;
    if IsSplit(msg, l) {
      var pieces := Split(msg, l.mtu).pieces;
      var last := d.index == |pieces| - 1;
      FragmentIsDatagram(msg, l.connectionId, d.fragId, d.index, last, pieces[d.index]);
      IsOneItem(FragmentMessage(msg, d.index), l.connectionId, Some(FragmentationHeader(d.fragId, d.index, last)),
                pieces[d.index]);
    } else {
      PlainIsDatagram(msg, l.connectionId);
      IsOneItem(msg, l.connectionId, None, msg.data);
    }
  }

  // ---------------------------------------------------------------- endpoints and peers

  /** The contents unpack to the payloads. */
  ghost predicate Unpacked(contents: seq<Content>, payloads: seq<bytes>, l: Link) {
    && |payloads| == |contents|
    && forall i :: 0 <= i < |contents| ==>
         FinalData(l.codec, l.limit, contents[i].comp, contents[i].data) == Ok(payloads[i])
  }

  ghost predicate FragmentsOk(e: Endpoint, theirs: Link) {
    && AllInFragments(e.sources, theirs.connectionId, theirs.mtu)
    && StoreOk(e.fragments, Splits(e.sources, theirs.connectionId, theirs.mtu))
  }

  ghost predicate CanGo(msg: DataMessage, l: Link) {
    Travels(msg, l) && Unpacks(msg, l)
  }

  ghost predicate WireOf(wire: set<Sending>, l: Link, out: set<Packet>) {
    forall d :: d in wire ==> d.packet in out && IsSending(d, l) && Unpacks(d.packet.msg, l)
  }

  ghost predicate QueueCanGo(q: seq<LocalMessage>, l: Link) {
    forall i :: 0 <= i < |q| ==> CanGo(q[i].msg, l)
  }

  /** The endpoint is where the peer is, and its wire holds datagrams of the peer's packets. */
  ghost predicate Mirrors(e: Endpoint, wire: set<Sending>, mine: Link, theirs: Link, p: Peer, out: set<Packet>) {
    && e.store == p.store && e.alive == p.alive && e.contents == p.sent && e.waiting == []
    && Unpacked(e.contents, e.payloads, mine) && Unpacked(p.delivered, e.received, theirs)
    && FragmentsOk(e, theirs) && WireOf(wire, mine, out) && QueueCanGo(e.store.localUnacked, mine)
  }

  // ---------------------------------------------------------------- sending

  lemma PreparedCanGo(payload: bytes, uncompressed: bool, msg: DataMessage, l: Link)
    requires LinkOk(l) && Travels(msg, l) && |payload| < 0x1_0000_0000
    requires var content := Prepared(l.codec, payload, uncompressed);
             msg.data == content.data && msg.comp == content.comp && (content.comp.Some? ==> |payload| <= l.limit)
    ensures CanGo(msg, l) && FinalData(l.codec, l.limit, msg.comp, msg.data) == Ok(payload)
  {
    hide Prepared, FinalData;
    FinalDataUndoesPrepared(l.codec, l.limit, payload, uncompressed);
  }

  lemma SendingsOnWire(packet: Packet, l: Link, fragId: u16, wire: set<Sending>, out: set<Packet>)
    requires WireOf(wire, l, out) && CanGo(packet.msg, l)
    ensures WireOf(wire + SendingsOf(packet, l, fragId), l, out + {packet})
  {
    hide MessageDatagrams, Unpacks, RoomForPayload, MessageOk, Split;
    forall d | d in SendingsOf(packet, l, fragId)
      ensures IsSending(d, l)
    {
      assert d.packet == packet;
    }
  }

  lemma PushCanGo(s: StoreState, s': StoreState, reliable: bool, now: Time, r: Result<(), TransportError>,
                  msg: DataMessage, l: Link)
    requires SendsData(s, reliable, now, s', r, msg) && QueueCanGo(s.localUnacked, l) && CanGo(msg, l)
    ensures QueueCanGo(s'.localUnacked, l)
  {
    hide CanGo;
  }

  lemma SendIsStep(regime: Regime, mine: Link, theirs: Link, e: Endpoint, wire: set<Sending>, e': Endpoint,
                   wire': set<Sending>, p: Peer, out: set<Packet>, incoming: set<Packet>,
                   payload: bytes, uncompressed: bool, reliable: bool, msg: DataMessage,
                   sent: Result<(), TransportError>, now: Time) returns (action: Action)
    requires LinkOk(mine) && Mirrors(e, wire, mine, theirs, p, out) && SenderInv(regime, p, out) && p.alive
    requires SendsPayload(regime, mine, e, wire, e', wire', payload, uncompressed, reliable, msg, sent, now)
    ensures Enabled(regime, p, incoming, action) && !action.Receive?
    ensures Mirrors(e', wire', mine, theirs, Act(p, out, action).0, Act(p, out, action).1)
  {
    var content := Prepared(mine.codec, payload, uncompressed);
    action := if reliable then SendReliable(ContentOfMessage(content), now) else SendUnreliable(ContentOfMessage(content));
    SendIsAction(p, out, content, reliable, now, e'.store, sent, msg);
    SendKeepsOthers(p, out, content, reliable, now);
    PreparedCanGo(payload, uncompressed, msg, mine);
    PushCanGo(e.store, e'.store, reliable, now, sent, msg, mine);
    hide Prepared, Act, FinalData, SendsData, SenderInv, Travels, Unpacks, QueueCanGo, FragmentsOk, CanGo, WireOf;
    SendingsOnWire(Packet(if reliable then |p.sent| + 1 else 0, msg), mine, e.fragId, wire, out);
    hide SendingsOf;
    assert FragmentsOk(e', theirs) by { SameFragments(e, e', theirs); }
  }

  lemma SameFragments(e: Endpoint, e': Endpoint, theirs: Link)
    requires FragmentsOk(e, theirs) && e'.fragments == e.fragments && e'.sources == e.sources
    ensures FragmentsOk(e', theirs)
  {
  }

  lemma SendKeepsOthers(p: Peer, out: set<Packet>, content: DataMessage, reliable: bool, now: Time)
    ensures var c := ContentOfMessage(content);
            Act(p, out, if reliable then SendReliable(c, now) else SendUnreliable(c)).0.delivered == p.delivered
  {
  }

  // ---------------------------------------------------------------- the timer

  lemma {:induction false} ResendsCanGo(s: StoreState, clock: nat -> Time, k: nat, l: Link)
    requires QueueCanGo(s.localUnacked, l)
    ensures var r := ResendAll(s, clock, k);
            QueueCanGo(r.store.localUnacked, l) && forall i :: 0 <= i < |r.msgs| ==> CanGo(r.msgs[i], l)
    decreases Budget(s.localUnacked)
  {
    hide CanGo;
    RetransmissionLowersBudget(s, clock(k));
    var (t, r) := AfterRetransmit(s, clock(k));
    if r.Ok? && r.value.Resend? {
      ResendsCanGo(t, clock, k + 1, l);
    }
  }

  lemma AcksCanGo(s: StoreState, l: Link)
    requires LinkOk(l)
    ensures CanGo(DataMessage([], None, Some(AfterTakingAcks(s, 0).1)), l)
  {
  }

  lemma ExpiryCanGo(s: StoreState, clock: nat -> Time, s': StoreState, r: Result<(), TransportError>,
                    msgs: seq<DataMessage>, l: Link)
    requires HandlesTimer(s, clock, s', r, msgs) && QueueCanGo(s.localUnacked, l) && LinkOk(l)
    ensures QueueCanGo(s'.localUnacked, l) && forall i :: 0 <= i < |msgs| ==> CanGo(msgs[i], l)
  {
    hide CanGo, ResendAll;
    ResendsCanGo(s, clock, 0, l);
    AcksCanGo(ResendAll(s, clock, 0).store, l);
  }

  lemma {:induction false} AllOnWire(packets: seq<Packet>, l: Link, fragId: u16, wire: set<Sending>, out: set<Packet>)
    requires WireOf(wire, l, out) && AllFit(packets, l) && forall i :: 0 <= i < |packets| ==> CanGo(packets[i].msg, l)
    ensures WireOf(wire + AllSendings(packets, l, fragId), l, out + SetOf(packets))
    decreases |packets|
  {
    hide WireOf, CanGo, RoomForPayload, SendingsOf, SetOf;
    if packets == [] {
      assert SetOf(packets) == {} by { NoneInSet(); }
      assert wire + {} == wire && out + {} == out;
    } else {
      assert RoomForPayload(packets[0].msg, l.mtu);
      var first, next := SendingsOf(packets[0], l, fragId), FragIdAfter(packets[0].msg, l.mtu, fragId);
      SendingsOnWire(packets[0], l, fragId, wire, out);
      AllOnWire(packets[1..], l, next, wire + first, out + {packets[0]});
      var rest := AllSendings(packets[1..], l, next);
      assert (wire + first) + rest == wire + (first + rest);
      assert packets == [packets[0]] + packets[1..];
      FirstOfSet(packets[0], packets[1..]);
      assert (out + {packets[0]}) + SetOf(packets[1..]) == out + SetOf(packets);
    }
  }

  lemma NoneInSet()
    ensures SetOf([]) == {}
  {
  }

  lemma ExpiryIsSteps(regime: Regime, mine: Link, theirs: Link, e: Endpoint, wire: set<Sending>, e': Endpoint,
                      wire': set<Sending>, p: Peer, out: set<Packet>, incoming: set<Packet>,
                      clock: nat -> Time, msgs: seq<DataMessage>, numbers: seq<nat>, sent: Result<(), TransportError>)
    returns (actions: seq<Action>)
    requires LinkOk(mine) && Mirrors(e, wire, mine, theirs, p, out) && SenderInv(regime, p, out) && p.alive
    requires Expires(mine, e, wire, e', wire', clock, msgs, numbers, sent)
    ensures EnabledAll(regime, p, out, incoming, actions)
    ensures var (q, out') := ActAll(regime, p, out, incoming, actions); Mirrors(e', wire', mine, theirs, q, out')
  {
    hide SenderInv, HandlesTimer, IsNumbered, EnabledAll, ActAll, FragmentsOk, CanGo, QueueCanGo, WireOf, AllSendings,
         SetOf, AllFit;
    ExpiryCanGo(e.store, clock, e'.store, sent, msgs, mine);
    actions := TimerIsActions(regime, p, out, incoming, clock, e'.store, sent, msgs, numbers);
    AllOnWire(PacketsOf(numbers, msgs), mine, e.fragId, wire, out);
    SameFragments(e, e', theirs);
  }

  // ---------------------------------------------------------------- receiving

  lemma AckingCanGo(s: StoreState, meta: MessageMeta, now: Time, l: Link)
    requires QueueCanGo(s.localUnacked, l) && meta.rel.Some? && meta.rel.value.Complete()
    ensures QueueCanGo(AfterIncoming(s, meta, now).0.localUnacked, l)
  {
    hide CanGo, AfterIncoming, AckAll, LocalIds;
    IncomingLocalUnacked(s, meta, now);
    var q, acks := s.localUnacked, meta.rel.value.acks;
    AckAllProperties(q, acks);
    forall i | 0 <= i < |AckAll(q, acks)|
      ensures CanGo(AckAll(q, acks)[i].msg, l)
    {
      assert AckAll(q, acks)[i] in q;
    }
  }

  lemma ProcessedCanGo(codec: Codec, limit: nat, s: StoreState, meta: MessageMeta, now: Time, l: Link)
    requires QueueCanGo(s.localUnacked, l) && RelOk(meta)
    ensures QueueCanGo(ProcessedData(codec, limit, s, meta, now).0.localUnacked, l)
  {
    hide QueueCanGo, AfterIncoming, FinalMessage;
    if meta.rel.Some? {
      AckingCanGo(s, meta, now, l);
    }
  }

  lemma OneMoreUnpacked(contents: seq<Content>, payloads: seq<bytes>, l: Link, content: Content, payload: bytes)
    requires Unpacked(contents, payloads, l) && FinalData(l.codec, l.limit, content.comp, content.data) == Ok(payload)
    ensures Unpacked(contents + [content], payloads + [payload], l)
  {
    hide FinalData;
  }

  /** A data message has arrived, whole: its processing mirrors the action of receiving it. */
  lemma DataMirrors(regime: Regime, mine: Link, theirs: Link, e: Endpoint, wire: set<Sending>, e': Endpoint,
                    p: Peer, out: set<Packet>, packet: Packet, meta: MessageMeta, now: Time, result: Outcome)
    requires Mirrors(e, wire, mine, theirs, p, out) && p.alive
    requires Carries(meta, packet.msg) && MessageOk(packet.msg) && Unpacks(packet.msg, theirs) && e.store.nextRemoteId != 0
    requires (e'.store, result) == ProcessedData(theirs.codec, theirs.limit, e.store, meta, now)
    requires e' == e.(store := e'.store, fragments := e'.fragments, alive := result != Err(TooUnreliable),
                      sources := e'.sources,
                      received := if IdOf(meta) != 0 && result.Ok? && result.value.Some? && result.value.value.Payload?
                                  then e.received + [result.value.value.data] else e.received)
    requires FragmentsOk(e', theirs)
    ensures Mirrors(e', wire, mine, theirs, Act(p, out, Receive(packet, meta, now)).0, out)
    ensures Act(p, out, Receive(packet, meta, now)).1 == out
    ensures result.Ok? || result == Err(TooUnreliable)
    ensures e'.received == if IdOf(meta) == e.store.nextRemoteId then e.received + [PayloadOf(packet.msg, theirs)]
                           else e.received
  {
    DataIsAction(theirs.codec, theirs.limit, p, out, packet, meta, now, e'.store, result);
    ProcessedCanGo(theirs.codec, theirs.limit, e.store, meta, now, mine);
    hide Act, ProcessedData, FragmentsOk, QueueCanGo, WireOf, IsAccepted, FinalData, Unpacked;
    var payload := FinalData(theirs.codec, theirs.limit, meta.comp, meta.data).value;
    assert FinalMessage(theirs.codec, theirs.limit, meta) == Ok(Some(Payload(payload)));
    AcceptedIffExpected(e.store, meta, now);
    if IsAccepted(p.store, meta, now) {
      OneMoreUnpacked(p.delivered, e.received, theirs, ContentOf(meta), payload);
    } else {
      assert p.delivered + [] == p.delivered;
    }
  }

  lemma AcceptedIffExpected(s: StoreState, meta: MessageMeta, now: Time)
    requires RelOk(meta) && s.nextRemoteId != 0
    ensures IsAccepted(s, meta, now) <==> IdOf(meta) == s.nextRemoteId
  {
    hide Restore, AckAgain, AckAll;
  }

  /** The payload of a message, as the receiver unpacks it. */
  function PayloadOf(msg: DataMessage, l: Link): bytes
    requires Unpacks(msg, l)
  {
    FinalData(l.codec, l.limit, msg.comp, msg.data).value
  }

  /** What was received after a datagram is read: the payload if its message is whole and the expected one. */
  function ReadTo(e: Endpoint, d: Sending, whole: bool, theirs: Link): seq<bytes>
    requires Unpacks(d.packet.msg, theirs)
  {
    if whole && MessageIdOf(d.packet.msg) == e.store.nextRemoteId then e.received + [PayloadOf(d.packet.msg, theirs)]
    else e.received
  }

  lemma SourcesGrow(e: Endpoint, d: Sending, theirs: Link) returns (sources: map<u16, DataMessage>)
    requires FragmentsOk(e, theirs) && IsSending(d, theirs) && IsSplit(d.packet.msg, theirs)
    requires d.fragId in e.fragments ==> d.fragId in e.sources && e.sources[d.fragId] == d.packet.msg
    ensures sources == e.sources[d.fragId := d.packet.msg] && AllInFragments(sources, theirs.connectionId, theirs.mtu)
    ensures StoreOk(e.fragments, Splits(sources, theirs.connectionId, theirs.mtu))
  {
    hide EntryOk, IsComplete, MessageDatagrams, Split;
    sources := e.sources[d.fragId := d.packet.msg];
    hide SentInFragments;
    assert SentInFragments(d.packet.msg, theirs.connectionId, theirs.mtu) by { TravelsInFragments(d.packet.msg, theirs); }
    assert AllInFragments(sources, theirs.connectionId, theirs.mtu);
    var before := Splits(e.sources, theirs.connectionId, theirs.mtu);
    var after := Splits(sources, theirs.connectionId, theirs.mtu);
    forall id | id in e.fragments
      ensures id in after && after[id] == before[id]
    {
    }
  }

  lemma TravelsInFragments(msg: DataMessage, l: Link)
    requires Travels(msg, l) && IsSplit(msg, l)
    ensures SentInFragments(msg, l.connectionId, l.mtu)
  {
  }

  lemma MetaIsFragment(d: Sending, l: Link, sent: Sent)
    requires IsSending(d, l) && IsSplit(d.packet.msg, l)
    requires d.fragId in sent && sent[d.fragId] == Split(d.packet.msg, l.mtu)
    ensures IsFragment(MetaOf(d, l), sent, d.fragId, d.index) && IsFragmentMeta(MetaOf(d, l))
  {
    hide DataHeader, FragmentDatagram, Pieces, FragBytes;
  }

  lemma WholeCarries(meta: MessageMeta, msg: DataMessage, mtu: nat)
    requires RoomForPayload(msg, mtu) && IsWhole(meta, Split(msg, mtu))
    ensures Carries(meta, msg)
  {
    PiecesTile(msg.data, FirstSize(msg, mtu), RestSize(msg, mtu));
  }

  lemma NoneIsWholeYet(m: Messages, sent: Sent, id: u16)
    requires StoreOk(m, sent) && id in sent
    ensures Present(m, id) != UpTo(|sent[id].pieces|)
    ensures forall i :: i in Present(m, id) ==> Present(m, id) + {i} == Present(m, id)
  {
    if id in m {
      CompleteIffAll(m[id], sent[id]);
    } else {
      assert 0 in UpTo(|sent[id].pieces|);
    }
  }

  /** A fragment goes through the store: there is no error, and the message comes out exactly when it is whole. */
  lemma FragmentArrives(e: Endpoint, d: Sending, now: Time, m': Messages, r: FragmentResult, theirs: Link)
    requires FragmentsOk(e, theirs) && IsSending(d, theirs) && IsSplit(d.packet.msg, theirs)
    requires d.fragId in e.fragments ==> d.fragId in e.sources && e.sources[d.fragId] == d.packet.msg
    requires MetaOf(d, theirs).frag.Some? && IsProcessed(e.fragments, MetaOf(d, theirs), now, m', r)
    ensures FragmentsOk(e.(fragments := m', sources := e.sources[d.fragId := d.packet.msg]), theirs)
    ensures r.Ok? && (r.value.Some? <==> WholeWith(e, d, theirs))
    ensures r.value.Some? ==> Carries(r.value.value, d.packet.msg)
  {
    var sources := SourcesGrow(e, d, theirs);
    var sent := Splits(sources, theirs.connectionId, theirs.mtu);
    NoneIsWholeYet(e.fragments, sent, d.fragId);
    hide StoreOk, IsSending, IsProcessed, MetaOf, IsFragment, Split, AllInFragments, Present, IsWhole;
    MetaIsFragment(d, theirs, sent);
    ArrivalOutcome(e.fragments, MetaOf(d, theirs), now, m', r, sent, d.fragId, d.index);
    if r.value.Some? {
      WholeCarries(r.value.value, d.packet.msg, theirs.mtu);
    }
  }

  lemma NothingToDo(regime: Regime, p: Peer, out: set<Packet>, incoming: set<Packet>)
    ensures EnabledAll(regime, p, out, incoming, []) && ActAll(regime, p, out, incoming, []) == (p, out)
  {
  }

  lemma OneAction(regime: Regime, p: Peer, out: set<Packet>, incoming: set<Packet>, action: Action)
    requires Enabled(regime, p, incoming, action)
    ensures EnabledAll(regime, p, out, incoming, [action])
            && ActAll(regime, p, out, incoming, [action]) == Act(p, out, action)
  {
    assert [action][1..] == [];
    EnabledMayAct(regime, p, incoming, action);
    NothingToDo(regime, Act(p, out, action).0, Act(p, out, action).1, incoming);
  }

  /** The actions are enabled, and after them the endpoint mirrors the peer again. */
  ghost predicate MirrorsAfter(regime: Regime, mine: Link, theirs: Link, e': Endpoint, wire': set<Sending>, p: Peer,
                               out: set<Packet>, incoming: set<Packet>, actions: seq<Action>)
  {
    && EnabledAll(regime, p, out, incoming, actions)
    && var (q, out') := ActAll(regime, p, out, incoming, actions); Mirrors(e', wire', mine, theirs, q, out')
  }

  /** A message is whole with this datagram, at once or from its fragments. */
  lemma WholeIsStep(regime: Regime, mine: Link, theirs: Link, e: Endpoint, wire: set<Sending>, incoming: set<Sending>,
                    e': Endpoint, p: Peer, out: set<Packet>, packets: set<Packet>,
                    d: Sending, meta: MessageMeta, result: Outcome, now: Time) returns (actions: seq<Action>)
    requires Mirrors(e, wire, mine, theirs, p, out) && p.alive && WireOf(incoming, theirs, packets) && Reads(e)
    requires MayArrive(regime, e, d, theirs, incoming) && WholeWith(e, d, theirs) && Carries(meta, d.packet.msg)
    requires (e'.store, result) == ProcessedData(theirs.codec, theirs.limit, e.store, meta, now)
    requires e' == e.(store := e'.store, fragments := e'.fragments, alive := result != Err(TooUnreliable),
                      sources := e'.sources,
                      received := ReceivedAfter(e, Some(d), result))
    requires FragmentsOk(e', theirs) && e.store.nextRemoteId != 0
    ensures MirrorsAfter(regime, mine, theirs, e', wire, p, out, packets, actions)
    ensures result.Ok? || result == Err(TooUnreliable)
    ensures Unpacks(d.packet.msg, theirs) && e'.received == ReadTo(e, d, true, theirs)
  {
    hide ProcessedData, FragmentsOk, Act, Split, QueueCanGo, FinalData;
    var action := Receive(d.packet, meta, now);
    assert |e.received| == |p.delivered|;
    assert IsSending(d, theirs) && Unpacks(d.packet.msg, theirs) && d.packet in packets;
    hide IsDatagramOf;
    assert Enabled(regime, p, packets, action);
    DataMirrors(regime, mine, theirs, e, wire, e', p, out, d.packet, meta, now, result);
    OneAction(regime, p, out, packets, action);
    actions := [action];
  }

  lemma ReadIsStep(regime: Regime, mine: Link, theirs: Link, e: Endpoint, wire: set<Sending>, incoming: set<Sending>,
                   e': Endpoint, p: Peer, out: set<Packet>, packets: set<Packet>, d: Sending, result: Outcome, now: Time)
    returns (actions: seq<Action>)
    requires Mirrors(e, wire, mine, theirs, p, out) && p.alive && WireOf(incoming, theirs, packets) && Reads(e)
    requires ReceivesNext(regime, theirs, e, incoming, e', Some(d), result, now) && e.store.nextRemoteId != 0
    ensures MirrorsAfter(regime, mine, theirs, e', wire, p, out, packets, actions)
    ensures result.Ok? || result == Err(TooUnreliable)
    ensures Unpacks(d.packet.msg, theirs) && e'.received == ReadTo(e, d, WholeWith(e, d, theirs), theirs)
  {
    hide BytesOf, Iterate, ReadsTo, WholeWith, Unpacked, QueueCanGo, WireOf, FragmentsOk, EnabledAll, ActAll,
         ProcessedData, IsProcessed;
    ReadAsOneItem(d, theirs);
    var meta := MetaOf(d, theirs);
    assert Unpacks(d.packet.msg, theirs) by { IncomingUnpacks(d, incoming, theirs, packets); }
    if IsSplit(d.packet.msg, theirs) {
      actions := ReadFragmentIsStep(regime, mine, theirs, e, wire, incoming, e', p, out, packets, d, result, now);
    } else {
      PlainCarries(d, theirs);
      OneMessageIsProcessed(theirs.codec, theirs.limit, e.store, e.fragments, meta, now, e'.store, e'.fragments,
                            e'.waiting, result);
      assert WholeWith(e, d, theirs) by { PlainIsWhole(e, d, theirs); }
      SameFragments(e, e', theirs);
      actions := WholeIsStep(regime, mine, theirs, e, wire, incoming, e', p, out, packets, d, meta, result, now);
    }
  }

  lemma IncomingUnpacks(d: Sending, incoming: set<Sending>, l: Link, packets: set<Packet>)
    requires WireOf(incoming, l, packets) && d in incoming
    ensures Unpacks(d.packet.msg, l) && d.packet in packets && IsSending(d, l)
  {
  }

  lemma PlainCarries(d: Sending, l: Link)
    requires IsSending(d, l) && !IsSplit(d.packet.msg, l)
    ensures var meta := MetaOf(d, l); meta.typ == MSG_DATA && Carries(meta, d.packet.msg) && RelOk(meta)
  {
    hide DataHeader, FragBytes;
  }

  lemma PlainIsWhole(e: Endpoint, d: Sending, theirs: Link)
    requires Travels(d.packet.msg, theirs) && !IsSplit(d.packet.msg, theirs)
    ensures WholeWith(e, d, theirs)
  {
  }

  lemma ReadFragmentIsStep(regime: Regime, mine: Link, theirs: Link, e: Endpoint, wire: set<Sending>,
                           incoming: set<Sending>,
                           e': Endpoint, p: Peer, out: set<Packet>, packets: set<Packet>, d: Sending, result: Outcome,
                           now: Time)
    returns (actions: seq<Action>)
    requires Mirrors(e, wire, mine, theirs, p, out) && p.alive && WireOf(incoming, theirs, packets) && Reads(e)
    requires IsSending(d, theirs) && IsSplit(d.packet.msg, theirs) && MayArrive(regime, e, d, theirs, incoming)
    requires ReadsTo(theirs.codec, theirs.limit, e.store, e.fragments, [Ok(MetaOf(d, theirs))], now,
                     e'.store, e'.fragments, e'.waiting, result)
    requires e' == e.(store := e'.store, fragments := e'.fragments, waiting := e'.waiting,
                      alive := result != Err(TooUnreliable), received := ReceivedAfter(e, Some(d), result),
                      sources := SourcesAfter(e, Some(d), theirs))
    requires e.store.nextRemoteId != 0 && Unpacks(d.packet.msg, theirs)
    ensures MirrorsAfter(regime, mine, theirs, e', wire, p, out, packets, actions)
    ensures result.Ok? || result == Err(TooUnreliable)
    ensures e'.received == ReadTo(e, d, WholeWith(e, d, theirs), theirs)
  {
    hide ReadsTo, WholeWith, Unpacked, QueueCanGo, WireOf, FragmentsOk, EnabledAll, ActAll, ProcessedData, IsProcessed;
    var meta := MetaOf(d, theirs);
    FragmentHasRelOk(d, theirs);
    ReadsSingleFragment(theirs.codec, theirs.limit, e.store, e.fragments, meta, now, e'.store, e'.fragments,
                        e'.waiting, result);
    var r :| IsProcessed(e.fragments, meta, now, e'.fragments, r)
             && FragmentOutcome(theirs.codec, theirs.limit, e.store, r, now, e'.store, result);
    FragmentArrives(e, d, now, e'.fragments, r, theirs);
    SameFragments(e.(fragments := e'.fragments, sources := e.sources[d.fragId := d.packet.msg]), e', theirs);
    if r.value.Some? {
      actions := WholeIsStep(regime, mine, theirs, e, wire, incoming, e', p, out, packets, d, r.value.value, result, now);
    } else {
      NothingToDo(regime, p, out, packets);
      actions := [];
    }
  }

  lemma FragmentHasRelOk(d: Sending, l: Link)
    requires IsSending(d, l) && IsSplit(d.packet.msg, l)
    ensures RelOk(MetaOf(d, l)) && IsFragmentMeta(MetaOf(d, l))
  {
    hide DataHeader, FragBytes, Pieces, FragmentDatagram;
  }

  lemma DelayedIsStep(regime: Regime, mine: Link, theirs: Link, e: Endpoint, wire: set<Sending>, e': Endpoint,
                      p: Peer, out: set<Packet>, packets: set<Packet>, sent: seq<Content>, payloads: seq<bytes>,
                      result: Outcome) returns (actions: seq<Action>)
    requires Mirrors(e, wire, mine, theirs, p, out) && p.alive && e.store.delayed != []
    requires Accepted(p) <= sent && Unpacked(sent, payloads, theirs)
    requires result == FinalMessage(theirs.codec, theirs.limit, e.store.delayed[0])
    requires e' == e.(store := PopDelayed(e.store).0, alive := result != Err(TooUnreliable),
                      received := if result.Ok? && result.value.Some? && result.value.value.Payload?
                                  then e.received + [result.value.value.data] else e.received)
    ensures MirrorsAfter(regime, mine, theirs, e', wire, p, out, packets, actions)
    ensures result.Ok?
  {
    hide QueueCanGo, WireOf, FinalData, EnabledAll, ActAll, FragmentsOk;
    var content := ContentOf(e.store.delayed[0]);
    var k := |p.delivered|;
    assert Contents(e.store.delayed)[0] == content;
    assert Accepted(p)[k] == content && sent[k] == content;
    OneMoreUnpacked(p.delivered, e.received, theirs, content, payloads[k]);
    SameFragments(e, e', theirs);
    OneAction(regime, p, out, packets, TakeDelayed);
    actions := [TakeDelayed];
  }

  /** What an endpoint's call is of its peer: actions that are enabled, in the state that mirrors the endpoint's. */
  lemma CallIsSteps(regime: Regime, mine: Link, theirs: Link, e: Endpoint, wire: set<Sending>, incoming: set<Sending>,
                    call: Call, e': Endpoint, wire': set<Sending>,
                    p: Peer, out: set<Packet>, packets: set<Packet>, sent: seq<Content>, payloads: seq<bytes>)
    returns (actions: seq<Action>)
    requires LinkOk(mine) && Mirrors(e, wire, mine, theirs, p, out) && WireOf(incoming, theirs, packets)
    requires SenderInv(regime, p, out) && Accepted(p) <= sent && Unpacked(sent, payloads, theirs)
             && p.store.nextRemoteId != 0
    requires Does(regime, mine, theirs, e, wire, incoming, call, e', wire')
    ensures MirrorsAfter(regime, mine, theirs, e', wire', p, out, packets, actions)
    ensures call.ReceiveNext? ==> IsExpectedResult(call)
  {
    hide EnabledAll, ActAll, Mirrors, SendsPayload, Expires, ReceivesNext, SenderInv, WireOf;
    assert p.alive by { MirrorsAlive(e, wire, mine, theirs, p, out); }
    match call {
      case Send(payload, uncompressed, reliable, msg, sent, now) =>
        var action := SendIsStep(regime, mine, theirs, e, wire, e', wire', p, out, packets, payload, uncompressed, reliable,
                                 msg, sent, now);
        OneAction(regime, p, out, packets, action);
        actions := [action];
      case ExpireTimer(clock, msgs, numbers, sent) =>
        actions := ExpiryIsSteps(regime, mine, theirs, e, wire, e', wire', p, out, packets, clock, msgs, numbers, sent);
      case ReceiveNext(from, result, now) =>
        actions := ReceiveIsSteps(regime, mine, theirs, e, wire, incoming, e', p, out, packets, sent, payloads, from,
                                  result, now);
      case MeasureRtt(micros) =>
        RttMirrors(e, wire, mine, theirs, p, out, micros);
        OneAction(regime, p, out, packets, UpdateRtt(micros));
        actions := [UpdateRtt(micros)];
    }
  }

  lemma MirrorsAlive(e: Endpoint, wire: set<Sending>, mine: Link, theirs: Link, p: Peer, out: set<Packet>)
    requires Mirrors(e, wire, mine, theirs, p, out)
    ensures p.alive == e.alive && e.waiting == [] && e.store == p.store && |p.delivered| == |e.received|
  {
  }

  lemma RttMirrors(e: Endpoint, wire: set<Sending>, mine: Link, theirs: Link, p: Peer, out: set<Packet>, micros: nat)
    requires Mirrors(e, wire, mine, theirs, p, out)
    ensures Mirrors(e.(store := e.store.(avgRttMicros := micros)), wire, mine, theirs,
                    Act(p, out, UpdateRtt(micros)).0, Act(p, out, UpdateRtt(micros)).1)
  {
    hide QueueCanGo, WireOf, Unpacked, FragmentsOk;
    SameFragments(e, e.(store := e.store.(avgRttMicros := micros)), theirs);
  }

  lemma ReceiveIsSteps(regime: Regime, mine: Link, theirs: Link, e: Endpoint, wire: set<Sending>,
                       incoming: set<Sending>,
                       e': Endpoint, p: Peer, out: set<Packet>, packets: set<Packet>, sent: seq<Content>,
                       payloads: seq<bytes>,
                       from: Option<Sending>, result: Outcome, now: Time) returns (actions: seq<Action>)
    requires Mirrors(e, wire, mine, theirs, p, out) && p.alive && WireOf(incoming, theirs, packets)
    requires Accepted(p) <= sent && Unpacked(sent, payloads, theirs) && p.store.nextRemoteId != 0
    requires ReceivesNext(regime, theirs, e, incoming, e', from, result, now)
    ensures MirrorsAfter(regime, mine, theirs, e', wire, p, out, packets, actions)
    ensures IsExpectedResult(ReceiveNext(from, result, now))
  {
    hide QueueCanGo, WireOf, Unpacked, FragmentsOk, EnabledAll, ActAll, BytesOf, Iterate, ReadsTo, Accepted;
    if e.store.delayed != [] {
      actions := DelayedIsStep(regime, mine, theirs, e, wire, e', p, out, packets, sent, payloads, result);
    } else if from == None {
      NothingToDo(regime, p, out, packets);
      assert e' == e;
      actions := [];
    } else {
      actions := ReadIsStep(regime, mine, theirs, e, wire, incoming, e', p, out, packets, from.value, result, now);
    }
  }
}
