/**
  Sending and receiving through the transport, case by case: which message a call of the
  receiving method returns, what becomes of a control message, and where the waiting
  acknowledgements go when something is sent.
 */
module TransportCases {
  import opened Wrappers
  import opened Bytes
  import opened MessageTypes
  import opened ControlMessages
  import opened ControlLayouts
  import opened MessageCodec
  import opened SequenceNumbers
  import opened Reliability
  import opened ReliabilityCases
  import opened FragmentStores
  import opened Fragmentation
  import opened Compression
  import opened UdpTransports

  // ---------------------------------------------------------------- receiving

  datatype Receiver = Receiver(store: StoreState, fragments: Messages, waiting: seq<Received>)

  /** Calls of the receiving method, whatever datagrams the socket would deliver. */
  ghost predicate AreCalls(codec: Codec, limit: nat, states: seq<Receiver>, datagrams: seq<bytes>, times: seq<Time>,
                           server: bool, results: seq<Outcome>)
  {
    && |states| == |results| + 1 && |datagrams| == |results| && |times| == |results|
    && forall i :: 0 <= i < |results| ==>
         Receives(codec, limit, states[i].store, states[i].fragments, states[i].waiting, datagrams[i], server, times[i],
                  states[i + 1].store, states[i + 1].fragments, states[i + 1].waiting, results[i])
  }

  /** What is returned before the socket is read again: the pending messages, and then the delayed ones. */
  function Backlog(codec: Codec, limit: nat, r: Receiver): seq<Outcome> {
    seq(|r.waiting|, i requires 0 <= i < |r.waiting| => Ok(Some(r.waiting[i])))
    + seq(|r.store.delayed|, i requires 0 <= i < |r.store.delayed| => FinalMessage(codec, limit, r.store.delayed[i]))
  }

  /**
    Pending messages come first and then the delayed queue, each once and in order; the socket
    is not read before both are empty, and nothing else changes by then.
   */
  lemma {:induction false} BacklogComesFirst(codec: Codec, limit: nat, states: seq<Receiver>, datagrams: seq<bytes>,
                                             times: seq<Time>, server: bool, results: seq<Outcome>)
    requires AreCalls(codec, limit, states, datagrams, times, server, results)
    requires |results| == |states[0].waiting| + |states[0].store.delayed|
    ensures results == Backlog(codec, limit, states[0])
    ensures states[|results|] == Receiver(states[0].store.(delayed := []), states[0].fragments, [])
    decreases |results|
  {
    hide FinalMessage, ReadsTo;
    if results != [] {
      var r, next := states[0], states[1];
      assert Receives(codec, limit, r.store, r.fragments, r.waiting, datagrams[0], server, times[0],
                      next.store, next.fragments, next.waiting, results[0]);
      assert states[1..][0] == next;
      forall i | 0 <= i < |results[1..]|
        ensures Receives(codec, limit, states[1..][i].store, states[1..][i].fragments, states[1..][i].waiting,
                         datagrams[1..][i], server, times[1..][i], states[1..][i + 1].store,
                         states[1..][i + 1].fragments, states[1..][i + 1].waiting, results[1..][i])
      {
        var j := i + 1;
        assert Receives(codec, limit, states[j].store, states[j].fragments, states[j].waiting, datagrams[j], server,
                        times[j],
                        states[j + 1].store, states[j + 1].fragments, states[j + 1].waiting, results[j]);
      }
      BacklogComesFirst(codec, limit, states[1..], datagrams[1..], times[1..], server, results[1..]);
      assert Backlog(codec, limit, r) == [results[0]] + Backlog(codec, limit, next);
      assert results == [results[0]] + results[1..];
    } else {
      assert states[0].waiting == [] && states[0].store.delayed == [];
    }
  }

  /** An empty datagram is an error, and changes nothing. */
  lemma EmptyDatagramIsError(codec: Codec, limit: nat, s: StoreState, m: Messages, server: bool, now: Time,
                             s': StoreState, m': Messages, waiting': seq<Received>, r: Outcome)
    requires s.delayed == [] && Receives(codec, limit, s, m, [], [], server, now, s', m', waiting', r)
    ensures r == Err(ZeroLengthMessage) && s' == s && m' == m && waiting' == []
  {
  }

  /** A control message laid out in a datagram is handed over as it was sent; the stores stay as they are. */
  lemma ControlIsHandedOver(codec: Codec, limit: nat, s: StoreState, m: ControlMessage, start: nat, now: Time)
    requires HasLayout(m)
    ensures var meta := MessageMeta(TypeOf(m), None, None, None, Laid(m), start);
            ProcessedResolved(codec, limit, s, Resolve(Ok(meta)), now) == (s, Ok(Some(FromControl(m))))
  {
    hide Laid, Decoded;
    LaidOutDecodes(m, []);
    assert Laid(m) + [] == Laid(m);
  }

  /** So it is as a datagram of its own, with the type in front. */
  lemma ControlDatagramIsRead(m: ControlMessage)
    requires HasLayout(m)
    ensures DecodedMeta([TypeOf(m)] + Laid(m), false) == Ok(MessageMeta(TypeOf(m), None, None, None, Laid(m), 1))
  {
    hide Laid, ControlLength;
    LaidOutDecodes(m, []);
    assert Laid(m) + [] == Laid(m);
    var data := [TypeOf(m)] + Laid(m);
    assert data[1..] == Laid(m);
    assert Laid(m)[..|Laid(m)|] == Laid(m);
  }

  /** And cut off anywhere it does not decode at all. */
  lemma TruncatedControlFails(m: ControlMessage, k: nat)
    requires HasLayout(m) && k < |Laid(m)|
    ensures DecodedMeta([TypeOf(m)] + Laid(m)[..k], false).Err?
  {
    hide Laid, ControlLength, Decoded, IsLaidOut;
    var typ, whole, part := TypeOf(m), Laid(m), Laid(m)[..k];
    assert ([typ] + part)[1..] == part;
    LaidOutDecodes(m, []);
    assert whole + [] == whole;
    CodeIsBelow256(m, []);
    if ControlLength(typ, part).Ok? && ControlLength(typ, part).value <= k {
      var n := ControlLength(typ, part).value;
      LengthIsWhatDecodingConsumes(typ, part);
      assert part[..n] == whole[..n] && part[..n][..n] == part[..n];
      var found := Decoded(typ, part[..n]).value.0;
      NotPadding(m);
      DecodedIsWhatIsLaidOut(typ, part[..n]);
      DecodesIffLaidOut(whole, found, n);
      assert false;
    }
  }

  lemma NotPadding(m: ControlMessage)
    requires HasLayout(m)
    ensures TypeOf(m) != MSG_PADDING && TypeOf(m) < MSG_DATA
  {
  }

  /** What does not decode is an error, padding is passed over, and a data message without an id is handed over unpacked. */
  lemma ItemsByKind(codec: Codec, limit: nat, s: StoreState, meta: MessageMeta, why: DecodeError, now: Time)
    ensures ProcessedResolved(codec, limit, s, Resolve(Err(why)), now) == (s, Err(DecodeFailed))
    ensures meta.typ == 127 ==> ProcessedResolved(codec, limit, s, Resolve(Ok(meta)), now) == (s, Ok(None))
    ensures meta.typ == 0x80 && meta.rel == None ==>
              ProcessedResolved(codec, limit, s, Resolve(Ok(meta)), now)
              == (s, match FinalData(codec, limit, meta.comp, meta.data)
                     case Ok(data) => Ok(Some(Payload(data)))
                     case Err(e) => Err(e))
  {
  }

  /** Fragments that do not fit together are an error of the datagram they are completed in. */
  lemma FragmentErrorIsReturned(codec: Codec, limit: nat, s: StoreState, m: Messages, meta: MessageMeta, now: Time,
                                s': StoreState, m': Messages, pending: seq<Received>, out: Outcome)
    requires RelOk(meta) && IsFragmentMeta(meta) && ReadsTo(codec, limit, s, m, [Ok(meta)], now, s', m', pending, out)
    requires forall r :: IsProcessed(m, meta, now, m', r) ==> r == Err(DefragmentationError)
    ensures out == Err(DefragmentationError) && s' == s && pending == []
  {
    hide ReadsTo, IsProcessed;
    ReadsSingleFragment(codec, limit, s, m, meta, now, s', m', pending, out);
  }

  // ---------------------------------------------------------------- sending

  function Eight(n: nat): nat {
    if n < 8 then n else 8
  }

  /**
    What sending does, in terms of ids: the header takes the oldest waiting acknowledgements,
    eight at most, and those left go on waiting; a reliable message takes the next id, which
    steps over zero, and is queued unless 64 are; and without either there is no header.
   */
  lemma SendingIs(s: StoreState, reliable: bool, now: Time, s': StoreState, r: Result<(), TransportError>, msg: DataMessage)
    requires SendsData(s, reliable, now, s', r, msg) && s.nextLocalId != 0
    ensures var k := Eight(|s.remoteUnacked|);
            && s'.remoteUnacked == s.remoteUnacked[k..]
            && (msg.rel == None <==> !reliable && k == 0)
            && (msg.rel.Some? ==>
                  && msg.rel.value.messageId == (if reliable then s.nextLocalId else 0)
                  && msg.rel.value.ackCount == k == |msg.rel.value.acks|
                  && forall i :: 0 <= i < k ==> msg.rel.value.acks[i] == s.remoteUnacked[i].messageId)
    ensures s'.nextLocalId == if !reliable then s.nextLocalId else if s.nextLocalId == 0xFFFF then 1 else s.nextLocalId + 1
    ensures if reliable && |s.localUnacked| < 64
            then r == Ok(()) && s'.localUnacked == s.localUnacked + [LocalMessage(s.nextLocalId, msg, now, 0)]
            else s'.localUnacked == s.localUnacked && r == if reliable then Err(TooUnreliable) else Ok(())
    ensures s' == s.(remoteUnacked := s'.remoteUnacked, nextLocalId := s'.nextLocalId, localUnacked := s'.localUnacked)
  {
  }

  /** The timer sends the waiting acknowledgements on their own exactly when one of them has waited 50 ms. */
  lemma TimerFlushesUrgent(s: StoreState, clock: nat -> Time, s': StoreState, r: Result<(), TransportError>,
                           sent: seq<DataMessage>)
    requires HandlesTimer(s, clock, s', r, sent) && ResendAll(s, clock, 0).result.Ok?
    ensures var resends := ResendAll(s, clock, 0);
            var now := clock(resends.readings);
            if exists i :: 0 <= i < |resends.store.remoteUnacked|
                           && now - resends.store.remoteUnacked[i].receivedAt >= 50.0 then
              && |sent| == |resends.msgs| + 1 && sent[..|resends.msgs|] == resends.msgs
              && var ack, k := sent[|resends.msgs|], Eight(|resends.store.remoteUnacked|);
              && ack.data == [] && ack.comp == None && ack.rel.Some?
              && ack.rel.value.messageId == 0 && ack.rel.value.ackCount == k == |ack.rel.value.acks|
              && (forall i :: 0 <= i < k ==> ack.rel.value.acks[i] == resends.store.remoteUnacked[i].messageId)
              && s' == resends.store.(remoteUnacked := resends.store.remoteUnacked[k..])
            else sent == resends.msgs && s' == resends.store
  {
    hide ResendAll;
    UrgentAfterFifty(ResendAll(s, clock, 0).store, clock(ResendAll(s, clock, 0).readings));
  }

  /** Each message sent in fragments takes the next fragmentation id; the others leave it. */
  lemma FragmentedTakesNextId(msg: DataMessage, connectionId: u64, mtu: nat, fragId: u16)
    requires RoomForPayload(msg, mtu)
    ensures FragIdAfter(msg, mtu, fragId)
            == if |MessageDatagrams(msg, connectionId, mtu, fragId)| == 1 then fragId
               else if fragId == 0xFFFF then 0 else fragId + 1
  {
    hide PlainDatagram, FragmentDatagrams;
    if UnfragmentedSize(msg) > mtu {
      AtLeastTwoFragments(msg, connectionId, mtu, fragId);
    }
  }
}
