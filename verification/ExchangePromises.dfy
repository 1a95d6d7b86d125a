/**
  Every exchange of two transports is a run of `ReliableDelivery`, so the promises made there
  are promises about payloads here: exactly once and in order, none lost, and each handed out
  as soon as it is whole and next.
 */
module ExchangePromises {
  import opened Wrappers
  import opened Bytes
  import opened MessageTypes
  import opened MessageCodec
  import opened DatagramIterator
  import opened SequenceNumbers
  import opened Reliability
  import opened ReliabilityProofs
  import opened FragmentStores
  import opened FragmentProofs
  import opened Fragmentation
  import opened Compression
  import opened ReliableDelivery
  import opened DataPath
  import opened UdpTransports
  import opened TransportSteps
  import opened Exchanges
  import opened ExchangeSteps

  // ---------------------------------------------------------------- exchanges are runs

  /** Both endpoints mirror their peers. */
  ghost predicate Reflects(l: Links, n: Network, y: System) {
    Mirrors(n.a, n.ab, l.ab, l.ba, y.a, y.ab) && Mirrors(n.b, n.ba, l.ba, l.ab, y.b, y.ba)
  }

  /** One turn is a number of steps. */
  lemma TurnIsSteps(regime: Regime, l: Links, n: Network, turn: Turn, n': Network, y: System) returns (steps: seq<Step>)
    requires LinkOk(l.ab) && LinkOk(l.ba) && Reflects(l, n, y) && SystemInv(regime, y) && IsTurn(regime, l, n, turn, n')
    ensures ReliableDelivery.IsRun(regime, y, steps) && Reflects(l, n', After(regime, y, steps))
    ensures turn.call.ReceiveNext? ==> IsExpectedResult(turn.call)
  {
    InvMeans(regime, y);
    MirrorsMean(n.a, n.ab, l.ab, l.ba, y.a, y.ab);
    MirrorsMean(n.b, n.ba, l.ba, l.ab, y.b, y.ba);
    hide SystemInv, Mirrors, EnabledAll, ActAll, Does, ReliableDelivery.IsRun, After;
    var actions;
    if turn.byA {
      actions := CallIsSteps(regime, l.ab, l.ba, n.a, n.ab, n.ba, turn.call, n'.a, n'.ab, y.a, y.ab, y.ba, y.b.sent,
                             n.b.payloads);
    } else {
      actions := CallIsSteps(regime, l.ba, l.ab, n.b, n.ba, n.ab, turn.call, n'.b, n'.ba, y.b, y.ba, y.ab, y.a.sent,
                             n.a.payloads);
    }
    ActionsAreSteps(regime, y, turn.byA, actions);
    steps := StepsOf(turn.byA, actions);
  }

  lemma InvMeans(regime: Regime, y: System)
    requires SystemInv(regime, y)
    ensures SenderInv(regime, y.a, y.ab) && SenderInv(regime, y.b, y.ba)
    ensures Accepted(y.a) <= y.b.sent && Accepted(y.b) <= y.a.sent
    ensures y.a.store.nextRemoteId != 0 && y.b.store.nextRemoteId != 0
  {
  }

  lemma MirrorsMean(e: Endpoint, wire: set<Sending>, mine: Link, theirs: Link, p: Peer, out: set<Packet>)
    requires Mirrors(e, wire, mine, theirs, p, out)
    ensures WireOf(wire, mine, out) && Unpacked(p.sent, e.payloads, mine) && Unpacked(p.delivered, e.received, theirs)
  {
  }

  lemma QuietReflects(l: Links)
    ensures Reflects(l, Quiet, Start)
  {
  }

  /**
    Every exchange of two transports is a run of the system of `ReliableDelivery`: after it
    stores, queues and everything sent and received are those that the run's peers have.
   */
  lemma {:induction false} ExchangeIsRun(regime: Regime, l: Links, nets: seq<Network>, turns: seq<Turn>, k: nat)
    returns (steps: seq<Step>)
    requires IsExchange(regime, l, nets, turns) && k <= |turns|
    ensures ReliableDelivery.IsRun(regime, Start, steps) && Reflects(l, nets[k], After(regime, Start, steps))
    decreases k
  {
    hide ReliableDelivery.IsRun, After, Reflects, SystemInv, IsTurn;
    StartInv(regime);
    if k == 0 {
      steps := [];
      assert ReliableDelivery.IsRun(regime, Start, []) && After(regime, Start, []) == Start by { EmptyRun(regime); }
      QuietReflects(l);
    } else {
      var before := ExchangeIsRun(regime, l, nets, turns, k - 1);
      RunKeepsInv(regime, Start, before);
      assert IsTurn(regime, l, nets[k - 1], turns[k - 1], nets[k]);
      var last := TurnIsSteps(regime, l, nets[k - 1], turns[k - 1], nets[k], After(regime, Start, before));
      RunsJoin(regime, Start, before, last);
      steps := before + last;
    }
  }

  // ---------------------------------------------------------------- the promises

  lemma PrefixOfPayloads(delivered: seq<Content>, received: seq<bytes>, sent: seq<Content>, payloads: seq<bytes>,
                         l: Link)
    requires Unpacked(delivered, received, l) && Unpacked(sent, payloads, l) && delivered <= sent
    ensures received <= payloads
  {
    hide FinalData;
    forall i | 0 <= i < |received|
      ensures received[i] == payloads[i]
    {
      assert delivered[i] == sent[i];
    }
  }

  /**
    Exactly once and in order, from payload to payload: in every exchange, whatever datagrams
    are lost, repeated or reordered, what one application got of reliable messages is a prefix
    of what the other sent.
   */
  lemma PayloadsExactlyOnceInOrder(regime: Regime, l: Links, nets: seq<Network>, turns: seq<Turn>, k: nat)
    requires IsExchange(regime, l, nets, turns) && k <= |turns|
    ensures nets[k].b.received <= nets[k].a.payloads && nets[k].a.received <= nets[k].b.payloads
  {
    hide ReliableDelivery.IsRun, After;
    var steps := ExchangeIsRun(regime, l, nets, turns, k);
    var y, n := After(regime, Start, steps), nets[k];
    ExactlyOnceInOrder(regime, steps);
    MirrorsMean(n.a, n.ab, l.ab, l.ba, y.a, y.ab);
    MirrorsMean(n.b, n.ba, l.ba, l.ab, y.b, y.ba);
    PrefixOfPayloads(y.b.delivered, n.b.received, y.a.sent, n.a.payloads, l.ab);
    PrefixOfPayloads(y.a.delivered, n.a.received, y.b.sent, n.b.payloads, l.ba);
  }

  /** Of a payload sent: it was received, waits to be taken, or is still queued for retransmission. */
  ghost predicate IsAccountedFor(sender: Endpoint, receiver: Endpoint, number: nat) {
    || number <= |receiver.received| + |receiver.store.delayed|
    || (number < ID_PERIOD && number in LocalIds(sender.store.localUnacked))
  }

  /**
    No payload is given up silently: while the sender lives and no id was reused, each reliable
    payload it sent was received, waits in the receiver's delayed queue, or is still in the
    sender's retransmission queue, which holds at most 64.
   */
  lemma NoPayloadIsLost(l: Links, nets: seq<Network>, turns: seq<Turn>, k: nat)
    requires IsExchange(NoWrap, l, nets, turns) && k <= |turns|
    ensures var a, b := nets[k].a, nets[k].b;
            && (a.alive ==> forall number :: 1 <= number <= |a.payloads| ==> IsAccountedFor(a, b, number))
            && (b.alive ==> forall number :: 1 <= number <= |b.payloads| ==> IsAccountedFor(b, a, number))
            && |a.store.localUnacked| <= MAX_LOCAL_UNACKED && |b.store.localUnacked| <= MAX_LOCAL_UNACKED
  {
    hide ReliableDelivery.IsRun, After;
    var steps := ExchangeIsRun(NoWrap, l, nets, turns, k);
    AckSafety(steps);
    StartInv(NoWrap);
    RunKeepsInv(NoWrap, Start, steps);
    var y, n := After(NoWrap, Start, steps), nets[k];
    AccountedFor(n.a, n.ab, l.ab, l.ba, y.a, y.ab, n.b, n.ba, y.b, y.ba);
    AccountedFor(n.b, n.ba, l.ba, l.ab, y.b, y.ba, n.a, n.ab, y.a, y.ab);
  }

  lemma AccountedFor(e: Endpoint, wire: set<Sending>, mine: Link, theirs: Link, p: Peer, out: set<Packet>,
                     f: Endpoint, wire': set<Sending>, q: Peer, out': set<Packet>)
    requires Mirrors(e, wire, mine, theirs, p, out) && Mirrors(f, wire', theirs, mine, q, out')
    requires Conserved(p, q) && ConservationInv(p, q) && SenderInv(NoWrap, p, out)
    ensures e.alive ==> forall number :: 1 <= number <= |e.payloads| ==> IsAccountedFor(e, f, number)
  {
    hide FragmentsOk, WireOf, QueueCanGo, LocalIds, Increasing;
    forall number | e.alive && 1 <= number <= |e.payloads|
      ensures IsAccountedFor(e, f, number)
    {
      var id: u16 := number;
      assert id in IdRange(p.pushed);
      assert |Accepted(q)| == |f.received| + |f.store.delayed|;
    }
  }

  /**
    Receiving never fails on what the other transport sent: no datagram is refused by the
    codec, by reassembly or by decompression. All there can be is that too many messages wait,
    or that the socket delivers nothing.
   */
  lemma ReceivingNeverFails(regime: Regime, l: Links, nets: seq<Network>, turns: seq<Turn>, k: nat)
    requires IsExchange(regime, l, nets, turns) && k < |turns| && turns[k].call.ReceiveNext?
    ensures IsExpectedResult(turns[k].call)
  {
    hide ReliableDelivery.IsRun, After;
    var steps := ExchangeIsRun(regime, l, nets, turns, k);
    StartInv(regime);
    RunKeepsInv(regime, Start, steps);
    var last := TurnIsSteps(regime, l, nets[k], turns[k], nets[k + 1], After(regime, Start, steps));
  }

  // ---------------------------------------------------------------- progress

  /** The id of an admissible packet is the expected one exactly if its number is. */
  lemma ExpectedIffNumber(regime: Regime, packet: Packet, sent: seq<Content>, accepted: nat)
    requires PacketOk(packet, sent) && accepted <= |sent| && (regime == NoWrap ==> |sent| <= MAX_WITHOUT_WRAP)
    requires packet.number != 0 ==> ArrivalOk(regime, packet.number, accepted + 1)
    ensures MessageIdOf(packet.msg) == WireId(accepted + 1) <==> packet.number == accepted + 1
  {
    var n, m := packet.number, accepted + 1;
    if n != 0 {
      IdsRepeatWithPeriod(n, m);
    }
  }

  lemma NumberedPayload(packet: Packet, sent: seq<Content>, payloads: seq<bytes>, l: Link)
    requires PacketOk(packet, sent) && Unpacked(sent, payloads, l) && packet.number != 0
    ensures packet.number <= |payloads| && Unpacks(packet.msg, l) && PayloadOf(packet.msg, l) == payloads[packet.number - 1]
  {
    hide FinalData;
    assert ContentOfMessage(packet.msg) == sent[packet.number - 1];
  }

  lemma ReceiverMeans(regime: Regime, sent: seq<Content>, p: Peer)
    requires ReceiverInv(regime, sent, p) && p.store.delayed == []
    ensures p.store.nextRemoteId == WireId(|p.delivered| + 1) && |p.delivered| <= |sent|
  {
  }

  lemma SenderMeans(regime: Regime, q: Peer, out: set<Packet>, packet: Packet)
    requires SenderInv(regime, q, out) && packet in out
    ensures PacketOk(packet, q.sent) && (regime == NoWrap ==> |q.sent| <= MAX_WITHOUT_WRAP)
  {
  }

  lemma ReadArrives(regime: Regime, theirs: Link, e: Endpoint, incoming: set<Sending>, e': Endpoint, d: Sending,
                    result: Outcome, now: Time)
    requires ReceivesNext(regime, theirs, e, incoming, e', Some(d), result, now) && Reads(e)
    ensures MayArrive(regime, e, d, theirs, incoming)
  {
    hide Receives;
  }

  /** What reading a datagram adds, given the peers at both ends. */
  lemma ReadAdds(regime: Regime, mine: Link, theirs: Link, e: Endpoint, wire: set<Sending>, incoming: set<Sending>,
                 e': Endpoint, p: Peer, out: set<Packet>, q: Peer, packets: set<Packet>, payloads: seq<bytes>,
                 d: Sending, result: Outcome, now: Time)
    requires Mirrors(e, wire, mine, theirs, p, out) && p.alive && WireOf(incoming, theirs, packets) && Reads(e)
    requires SenderInv(regime, q, packets) && ReceiverInv(regime, q.sent, p) && Unpacked(q.sent, payloads, theirs)
    requires ReceivesNext(regime, theirs, e, incoming, e', Some(d), result, now)
    ensures Travels(d.packet.msg, theirs) && (d.packet.number == |e.received| + 1 ==> d.packet.number <= |payloads|)
    ensures e'.received == if WholeWith(e, d, theirs) && d.packet.number == |e.received| + 1
                           then e.received + [payloads[|e.received|]] else e.received
  {
    hide Mirrors, WireOf, SenderInv, ReceiverInv, Unpacked, Unpacks, PacketOk, ReceivesNext, WholeWith, Travels,
         IsDatagramOf, PayloadOf, ArrivalOk;
    MirrorsAlive(e, wire, mine, theirs, p, out);
    ReceiverMeans(regime, q.sent, p);
    ReadArrives(regime, theirs, e, incoming, e', d, result, now);
    IncomingUnpacks(d, incoming, theirs, packets);
    SenderMeans(regime, q, packets, d.packet);
    if WholeWith(e, d, theirs) {
      ExpectedIffNumber(regime, d.packet, q.sent, |p.delivered|);
    }
    if d.packet.number != 0 {
      NumberedPayload(d.packet, q.sent, payloads, theirs);
    }
    var actions := ReadIsStep(regime, mine, theirs, e, wire, incoming, e', p, out, packets, d, result, now);
  }

  /**
    Progress, exactly: reading a datagram hands out a reliable payload if and only if the
    message is whole with it, by then or from the start, and is the next one in order; and it
    is that payload, the next of those the other side sent.
   */
  lemma ReadingHandsOutTheNext(regime: Regime, l: Links, nets: seq<Network>, turns: seq<Turn>, k: nat)
    requires IsExchange(regime, l, nets, turns) && k < |turns|
    requires turns[k].call.ReceiveNext? && turns[k].call.from.Some? && Reads(EndOf(nets[k], turns[k].byA))
    ensures var d, theirs := turns[k].call.from.value, if turns[k].byA then l.ba else l.ab;
            var e, e' := EndOf(nets[k], turns[k].byA), EndOf(nets[k + 1], turns[k].byA);
            var payloads := EndOf(nets[k], !turns[k].byA).payloads;
            && Travels(d.packet.msg, theirs) && (d.packet.number == |e.received| + 1 ==> d.packet.number <= |payloads|)
            && e'.received == if WholeWith(e, d, theirs) && d.packet.number == |e.received| + 1
                              then e.received + [payloads[|e.received|]] else e.received
  {
    hide ReliableDelivery.IsRun, After;
    var steps := ExchangeIsRun(regime, l, nets, turns, k);
    StartInv(regime);
    RunKeepsInv(regime, Start, steps);
    var y, n, n' := After(regime, Start, steps), nets[k], nets[k + 1];
    var call := turns[k].call;
    assert IsTurn(regime, l, n, turns[k], n');
    MirrorsMean(n.a, n.ab, l.ab, l.ba, y.a, y.ab);
    MirrorsMean(n.b, n.ba, l.ba, l.ab, y.b, y.ba);
    MirrorsAlive(n.a, n.ab, l.ab, l.ba, y.a, y.ab);
    MirrorsAlive(n.b, n.ba, l.ba, l.ab, y.b, y.ba);
    hide Mirrors, WireOf, SenderInv, ReceiverInv, Unpacked, ReceivesNext, WholeWith, Travels, AckInv, ConservationInv;
    if turns[k].byA {
      ReadAdds(regime, l.ab, l.ba, n.a, n.ab, n.ba, n'.a, y.a, y.ab, y.b, y.ba, n.b.payloads, call.from.value,
               call.result, call.now);
    } else {
      ReadAdds(regime, l.ba, l.ab, n.b, n.ba, n.ab, n'.b, y.b, y.ba, y.a, y.ab, n.a.payloads, call.from.value,
               call.result, call.now);
    }
  }

  // ---------------------------------------------------------------- a first exchange

  lemma OneMessageReads(codec: Codec, limit: nat, s: StoreState, m: Messages, meta: MessageMeta, now: Time)
    requires meta.typ == MSG_DATA && meta.frag == None && RelOk(meta)
    ensures var (t, r) := ProcessedData(codec, limit, s, meta, now);
            ReadsTo(codec, limit, s, m, [Ok(meta)], now, t, m, [], r)
  {
    var (t, r) := ProcessedData(codec, limit, s, meta, now);
    var items: seq<ReadItem> := [Ok(meta)];
    var x := DataArrived(meta);
    OnlyProcessed(codec, limit, s, x, now);
    hide ProcessedAll, ProcessedData;
    NoneProcessed(codec, limit, s, now);
    assert [x][..0] == [];
    assert Resolves(m, items[0], now, m, x);
    assert Resolution([m, m], items, now, [x]);
    assert ReadsAs(codec, limit, s, m, items, now, t, m, [], r, [x], [m, m]);
  }

  lemma NoneProcessed(codec: Codec, limit: nat, s: StoreState, now: Time)
    ensures ProcessedAll(codec, limit, s, [], now).error == None
  {
  }

  const FIRST_MESSAGE := DataMessage([7], None, Some(ReliabilityHeader(1, 0, [])))
  const FIRST_SENDING := Sending(Packet(1, FIRST_MESSAGE), 0, 0)

  lemma FirstIsSent(regime: Regime, l: Link) returns (e: Endpoint)
    requires LinkOk(l)
    ensures e.alive && e.payloads == [[7]]
    ensures SendsPayload(regime, l, FreshEndpoint, {}, e, {FIRST_SENDING}, [7], true, true, FIRST_MESSAGE, Ok(()), 0.0)
  {
    var s := InitialState.(nextLocalId := 2, localUnacked := [LocalMessage(1, FIRST_MESSAGE, 0.0, 0)]);
    e := FreshEndpoint.(store := s, contents := [Content([7], None)], payloads := [[7]]);
    assert Ids([]) == [] && AfterTakingAcks(InitialState, 0) == (InitialState, ReliabilityHeader(0, 0, []));
    var u := InitialState.(nextLocalId := 2);
    assert TakeMessageId(InitialState) == (u, 1);
    assert u.localUnacked + [LocalMessage(1, FIRST_MESSAGE, 0.0, 0)] == s.localUnacked;
    assert AfterPush(u, FIRST_MESSAGE, 0.0) == (s, Ok(()));
    assert SendsData(InitialState, true, 0.0, s, Ok(()), FIRST_MESSAGE);
    assert SendingsOf(Packet(1, FIRST_MESSAGE), l, 0) == {FIRST_SENDING};
  }

  /** Its datagram is read by an endpoint that has received nothing yet. */
  lemma FirstIsRead(regime: Regime, l: Link) returns (e: Endpoint, r: Outcome)
    requires LinkOk(l)
    ensures ReceivesNext(regime, l, FreshEndpoint, {FIRST_SENDING}, e, Some(FIRST_SENDING), r, 0.0)
    ensures WholeWith(FreshEndpoint, FIRST_SENDING, l)
  {
    var d := FIRST_SENDING;
    FirstIsSending(l);
    PlainIsWhole(FreshEndpoint, d, l);
    PlainCarries(d, l);
    ReadAsOneItem(d, l);
    hide ReadsTo, ProcessedData, Receives, WholeWith, MetaOf, BytesOf, IsSending, IsSplit, Iterate;
    var meta := MetaOf(d, l);
    var (t, result) := ProcessedData(l.codec, l.limit, InitialState, meta, 0.0);
    OneMessageReads(l.codec, l.limit, InitialState, map[], meta, 0.0);
    SocketIsRead(l, BytesOf(d, l), meta, t, result);
    r := result;
    e := FreshEndpoint.(store := t, alive := r != Err(TooUnreliable), received := ReceivedAfter(FreshEndpoint, Some(d), r));
    assert d.packet.number == |FreshEndpoint.received| + 1;
    assert MayArrive(regime, FreshEndpoint, d, l, {d});
  }

  /** A payload is sent and its datagram read: there it is. */
  lemma OnePayloadArrives(regime: Regime, l: Links) returns (nets: seq<Network>, turns: seq<Turn>)
    requires LinkOk(l.ab) && LinkOk(l.ba)
    ensures IsExchange(regime, l, nets, turns) && |turns| == 2 && nets[2].b.received == [[7]] == nets[2].a.payloads
  {
    hide SendsPayload, ReceivesNext, WholeWith;
    var a := FirstIsSent(regime, l.ab);
    var b, r := FirstIsRead(regime, l.ab);
    var wire := {FIRST_SENDING};
    nets := [Quiet, Network(a, FreshEndpoint, wire, {}), Network(a, b, wire, {})];
    turns := [Turn(true, Send([7], true, true, FIRST_MESSAGE, Ok(()), 0.0)),
              Turn(false, ReceiveNext(Some(FIRST_SENDING), r, 0.0))];
    assert IsTurn(regime, l, nets[0], turns[0], nets[1]);
    assert IsTurn(regime, l, nets[1], turns[1], nets[2]);
    ReadingHandsOutTheNext(regime, l, nets, turns, 1);
  }

  lemma FirstIsSending(l: Link)
    requires LinkOk(l)
    ensures IsSending(FIRST_SENDING, l) && !IsSplit(FIRST_MESSAGE, l)
  {
  }

  lemma SocketIsRead(l: Link, data: bytes, meta: MessageMeta, t: StoreState, r: Outcome)
    requires data != [] && Iterate(data, 0, l.connectionId != 0) == [Ok(meta)]
    requires ReadsTo(l.codec, l.limit, InitialState, map[], [Ok(meta)], 0.0, t, map[], [], r)
    ensures Receives(l.codec, l.limit, InitialState, map[], [], data, l.connectionId != 0, 0.0, t, map[], [], r)
  {
    hide ReadsTo, Iterate;
  }
}
