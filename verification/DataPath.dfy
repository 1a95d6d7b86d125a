/**
  The data path as a whole: compression, header encoding, fragmentation, any arrival order,
  reassembly and decompression give back the payload the application sent.
 */
module DataPath {
  import opened Wrappers
  import opened Bytes
  import opened MessageTypes
  import opened MessageCodec
  import opened Reliability
  import opened FragmentStores
  import opened FragmentProofs
  import opened Fragmentation
  import opened Compression
  import opened ReliableDelivery

  /** The received metadata carries the message's headers and leads to the payload. */
  ghost predicate Recovers(codec: Codec, limit: nat, meta: MessageMeta, msg: DataMessage, payload: bytes) {
    meta.rel == msg.rel && meta.frag == None && FinalData(codec, limit, meta.comp, meta.data) == Ok(payload)
  }

  /** The outgoing message: the prepared payload with its reliability header. */
  function Outgoing(codec: Codec, payload: bytes, uncompressed: bool, rel: Option<ReliabilityHeader>): DataMessage {
    Prepared(codec, payload, uncompressed).(rel := rel)
  }

  ghost predicate PathOk(codec: Codec, limit: nat, payload: bytes, msg: DataMessage, connectionId: u64, mtu: nat) {
    && Lawful(codec) && |payload| < 0x1_0000_0000 && |payload| <= limit
    && MessageOk(msg) && RoomForPayload(msg, mtu)
    && (connectionId == 0 || msg.comp == None)
  }

  lemma OutgoingRecovers(codec: Codec, limit: nat, payload: bytes, uncompressed: bool, rel: Option<ReliabilityHeader>,
                         meta: MessageMeta)
    requires Lawful(codec) && |payload| < 0x1_0000_0000 && |payload| <= limit
    requires var msg := Outgoing(codec, payload, uncompressed, rel);
             meta.data == msg.data && meta.comp == msg.comp && meta.rel == rel && meta.frag == None
    ensures Recovers(codec, limit, meta, Outgoing(codec, payload, uncompressed, rel), payload)
  {
    FinalDataUndoesPrepared(codec, limit, payload, uncompressed);
  }

  /** A message that fits one datagram: decoding it recovers header and payload. */
  lemma WholeDatagramRecovers(codec: Codec, limit: nat, payload: bytes, uncompressed: bool,
                              rel: Option<ReliabilityHeader>,
                              connectionId: u64, mtu: nat, fragId: u16)
    requires var msg := Outgoing(codec, payload, uncompressed, rel);
             PathOk(codec, limit, payload, msg, connectionId, mtu) && UnfragmentedSize(msg) <= mtu
    ensures var msg := Outgoing(codec, payload, uncompressed, rel);
            var ds := MessageDatagrams(msg, connectionId, mtu, fragId);
            && |ds| == 1 && ds[0] != []
            && DecodedMeta(ds[0], connectionId != 0).Ok?
            && Recovers(codec, limit, DecodedMeta(ds[0], connectionId != 0).value, msg, payload)
  {
    hide DecodedMeta, DataHeader, Datagram, Prepared, FinalData;
    var msg := Outgoing(codec, payload, uncompressed, rel);
    PlainIsDatagram(msg, connectionId);
    PlainRoundTrip(msg, connectionId, None, msg.data);
    OutgoingRecovers(codec, limit, payload, uncompressed, rel, SentMeta(msg, connectionId, None, msg.data));
  }

  /** Whatever reassembles whole from the fragments of a message recovers header and payload. */
  lemma WholeMessageRecovers(codec: Codec, limit: nat, payload: bytes, uncompressed: bool,
                             rel: Option<ReliabilityHeader>,
                             connectionId: u64, mtu: nat, meta: MessageMeta)
    requires var msg := Outgoing(codec, payload, uncompressed, rel);
             PathOk(codec, limit, payload, msg, connectionId, mtu) && IsWhole(meta, Split(msg, mtu))
    ensures Recovers(codec, limit, meta, Outgoing(codec, payload, uncompressed, rel), payload)
  {
    hide Prepared, FinalData;
    var msg := Outgoing(codec, payload, uncompressed, rel);
    PiecesTile(msg.data, FirstSize(msg, mtu), RestSize(msg, mtu));
    OutgoingRecovers(codec, limit, payload, uncompressed, rel, meta);
  }

  /** What arrives when datagram `i` of a message is decoded, at time `now`. */
  ghost predicate ArrivesFrom(a: Arrival, msg: DataMessage, connectionId: u64, mtu: nat, fragId: u16)
    requires RoomForPayload(msg, mtu)
  {
    var ds := MessageDatagrams(msg, connectionId, mtu, fragId);
    && a.id == fragId && a.index < |ds| && ds[a.index] != []
    && DecodedMeta(ds[a.index], connectionId != 0) == Ok(a.meta)
  }

  /** Decoding a fragment's datagram gives a legitimate arrival of that fragment of the split message. */
  lemma DecodedArrivalIsFragment(a: Arrival, msg: DataMessage, connectionId: u64, mtu: nat, sent: Sent)
    requires MessageOk(msg) && RoomForPayload(msg, mtu) && UnfragmentedSize(msg) > mtu
    requires connectionId == 0 || msg.comp == None
    requires a.id in sent && sent[a.id] == Split(msg, mtu) && ArrivesFrom(a, msg, connectionId, mtu, a.id)
    ensures IsFragment(a.meta, sent, a.id, a.index)
  {
    hide DecodedMeta, MessageDatagrams;
    FragmentsDecode(msg, connectionId, mtu, a.id, sent, a.index);
  }

  /**
    Data-path identity for a fragmented message. In any run of arrivals of fragments of many
    messages, in any order, repeated and interleaved, if those of this message take no more
    than ten seconds from the first on: nothing comes out before its last missing fragment,
    whose arrival hands out a message with the header that was sent, from which
    decompression gets the payload.
   */
  lemma DataPathIdentity(codec: Codec, limit: nat, payload: bytes, uncompressed: bool, rel: Option<ReliabilityHeader>,
                         connectionId: u64, mtu: nat, sent: Sent, arrivals: seq<Arrival>, stores: seq<Messages>,
                         results: seq<FragmentResult>, f: nat, n: nat)
    requires PathOk(codec, limit, payload, Outgoing(codec, payload, uncompressed, rel), connectionId, mtu)
    requires FragmentProofs.IsRun(sent, arrivals, stores, results) && f <= n < |arrivals|
    requires WithinExpiry(arrivals, arrivals[n].id, f, n + 1)
    requires arrivals[n].id in sent && sent[arrivals[n].id] == Split(Outgoing(codec, payload, uncompressed, rel), mtu)
    requires forall j :: 0 <= j <= n ==> Seen(arrivals, arrivals[n].id, j) != UpTo(|sent[arrivals[n].id].pieces|)
    ensures if Seen(arrivals, arrivals[n].id, n + 1) == UpTo(|sent[arrivals[n].id].pieces|)
            then results[n].Ok? && results[n].value.Some?
                 && Recovers(codec, limit, results[n].value.value, Outgoing(codec, payload, uncompressed, rel), payload)
            else results[n] == Ok(None)
  {
    hide Prepared, FinalData, IsProcessed;
    FragmentRoundTrip(sent, arrivals, stores, results, f, n);
    if results[n].Ok? && results[n].value.Some? && IsWhole(results[n].value.value, sent[arrivals[n].id]) {
      WholeMessageRecovers(codec, limit, payload, uncompressed, rel, connectionId, mtu, results[n].value.value);
    }
  }

  // ---------------------------------------------------------------- what the reliable layer is given

  /** A message that is sent in fragments, with indices that fit their field. */
  ghost predicate SentInFragments(msg: DataMessage, connectionId: u64, mtu: nat) {
    && MessageOk(msg) && RoomForPayload(msg, mtu) && UnfragmentedSize(msg) > mtu
    && (connectionId == 0 || msg.comp == None)
    && |Split(msg, mtu).pieces| <= LAST_FRAGMENT_MASK
  }

  ghost predicate AllInFragments(msgs: map<u16, DataMessage>, connectionId: u64, mtu: nat) {
    forall id :: id in msgs ==> SentInFragments(msgs[id], connectionId, mtu)
  }

  /** The messages on their way, by fragmentation id, as the reassembling side is to see them. */
  ghost function Splits(msgs: map<u16, DataMessage>, connectionId: u64, mtu: nat): (sent: Sent)
    requires AllInFragments(msgs, connectionId, mtu)
    ensures sent.Keys == msgs.Keys && forall id :: id in msgs ==> sent[id] == Split(msgs[id], mtu)
  {
    SplitsFit(msgs, connectionId, mtu);
    map id | id in msgs :: Split(msgs[id], mtu)
  }

  lemma SplitsFit(msgs: map<u16, DataMessage>, connectionId: u64, mtu: nat)
    requires AllInFragments(msgs, connectionId, mtu)
    ensures forall id :: id in msgs ==> 1 <= |Split(msgs[id], mtu).pieces| <= LAST_FRAGMENT_MASK
  {
    forall id | id in msgs
      ensures 1 <= |Split(msgs[id], mtu).pieces|
    {
      PieceCount(msgs[id].data, FirstSize(msgs[id], mtu), RestSize(msgs[id], mtu), 0);
    }
  }

  /** The fragment store was given decoded datagrams of the messages, any of them, in any order and number. */
  ghost predicate IsDatagramRun(msgs: map<u16, DataMessage>, connectionId: u64, mtu: nat, arrivals: seq<Arrival>,
                                stores: seq<Messages>, results: seq<FragmentResult>)
    requires AllInFragments(msgs, connectionId, mtu)
  {
    && |stores| == |arrivals| + 1 && |results| == |arrivals| && stores[0] == map[]
    && (forall j :: 0 <= j < |arrivals| ==>
          arrivals[j].id in msgs && ArrivesFrom(arrivals[j], msgs[arrivals[j].id], connectionId, mtu, arrivals[j].id))
    && (forall j :: 0 <= j < |arrivals| ==>
          && arrivals[j].meta.frag.Some?
          && IsProcessed(stores[j], arrivals[j].meta, arrivals[j].now, stores[j + 1], results[j]))
  }

  /**
    What the reliable layer assumes of its arrivals: over any run of datagrams through the
    fragment store, whatever is repeated, reordered, lost, interleaved or expires, each call
    succeeds, and what it returns carries the message sent under that fragmentation id.
   */
  lemma ReassembledCarries(msgs: map<u16, DataMessage>, connectionId: u64, mtu: nat, arrivals: seq<Arrival>,
                           stores: seq<Messages>, results: seq<FragmentResult>, j: nat)
    requires AllInFragments(msgs, connectionId, mtu)
    requires IsDatagramRun(msgs, connectionId, mtu, arrivals, stores, results) && j < |arrivals|
    ensures results[j].Ok?
    ensures results[j].value.Some? ==> Carries(results[j].value.value, msgs[arrivals[j].id])
  {
    hide IsProcessed, IsFragment, ArrivesFrom;
    var sent := Splits(msgs, connectionId, mtu);
    forall k | 0 <= k < |arrivals|
      ensures IsFragment(arrivals[k].meta, sent, arrivals[k].id, arrivals[k].index)
    {
      DecodedArrivalIsFragment(arrivals[k], msgs[arrivals[k].id], connectionId, mtu, sent);
    }
    FragmentSafety(sent, arrivals, stores, results, j);
    var msg := msgs[arrivals[j].id];
    PiecesTile(msg.data, FirstSize(msg, mtu), RestSize(msg, mtu));
  }

  /** The same for a message that fits one datagram: decoding it gives what carries the message. */
  lemma DatagramCarries(msg: DataMessage, connectionId: u64, mtu: nat, fragId: u16)
    requires MessageOk(msg) && RoomForPayload(msg, mtu) && UnfragmentedSize(msg) <= mtu
    requires connectionId == 0 || msg.comp == None
    ensures var ds := MessageDatagrams(msg, connectionId, mtu, fragId);
            && |ds| == 1 && ds[0] != []
            && DecodedMeta(ds[0], connectionId != 0).Ok?
            && Carries(DecodedMeta(ds[0], connectionId != 0).value, msg)
  {
    hide DecodedMeta, DataHeader, Datagram;
    PlainIsDatagram(msg, connectionId);
    PlainRoundTrip(msg, connectionId, None, msg.data);
  }

  /**
    A retransmission encodes the same message anew, under another fragmentation id; what is
    received from either send is the same message: same id and acks, same payload.
   */
  lemma RetransmissionIsSameMessage(msg: DataMessage, connectionId: u64, mtu: nat, first: u16, again: u16, i: nat)
    requires MessageOk(msg) && RoomForPayload(msg, mtu) && (connectionId == 0 || msg.comp == None)
    requires i < |MessageDatagrams(msg, connectionId, mtu, first)| <= LAST_FRAGMENT_MASK
    ensures |MessageDatagrams(msg, connectionId, mtu, again)| == |MessageDatagrams(msg, connectionId, mtu, first)|
    ensures var d, d' := MessageDatagrams(msg, connectionId, mtu, first)[i], MessageDatagrams(msg, connectionId, mtu, again)[i];
            && d != [] && d' != []
            && var m, m' := DecodedMeta(d, connectionId != 0), DecodedMeta(d', connectionId != 0);
            && m.Ok? && m'.Ok?
            && m'.value == m.value.(frag := if m.value.frag.Some? then Some(m.value.frag.value.(messageId := again)) else None)
            && (i == 0 ==> m.value.rel == msg.rel && m.value.comp == msg.comp)
  {
    hide DecodedMeta, DataHeader, Datagram, FragmentDatagram, Pieces;
    if UnfragmentedSize(msg) <= mtu {
      PlainIsDatagram(msg, connectionId);
      PlainRoundTrip(msg, connectionId, None, msg.data);
    } else {
      FragmentDecodesTo(msg, connectionId, mtu, first, i);
      FragmentDecodesTo(msg, connectionId, mtu, again, i);
    }
  }

  function FragmentOf(msg: DataMessage, connectionId: u64, mtu: nat, fragId: u16, i: nat): MessageMeta
    requires RoomForPayload(msg, mtu) && i < |Split(msg, mtu).pieces| <= LAST_FRAGMENT_MASK
  {
    var pieces := Split(msg, mtu).pieces;
    SentMeta(FragmentMessage(msg, i), connectionId, Some(FragmentationHeader(fragId, i, i == |pieces| - 1)), pieces[i])
  }

  lemma FragmentDecodesTo(msg: DataMessage, connectionId: u64, mtu: nat, fragId: u16, i: nat)
    requires MessageOk(msg) && RoomForPayload(msg, mtu) && (connectionId == 0 || msg.comp == None)
    requires UnfragmentedSize(msg) > mtu && i < |MessageDatagrams(msg, connectionId, mtu, fragId)| <= LAST_FRAGMENT_MASK
    ensures |MessageDatagrams(msg, connectionId, mtu, fragId)| == |Split(msg, mtu).pieces|
    ensures var d := MessageDatagrams(msg, connectionId, mtu, fragId)[i];
            d != [] && DecodedMeta(d, connectionId != 0) == Ok(FragmentOf(msg, connectionId, mtu, fragId, i))
  {
    hide DecodedMeta, DataHeader, Datagram, Pieces, SentMeta, FragmentDatagram;
    var pieces := Pieces(msg.data, FirstSize(msg, mtu), RestSize(msg, mtu));
    var last := i == |pieces| - 1;
    FragmentIsDatagram(msg, connectionId, fragId, i, last, pieces[i]);
    PlainRoundTrip(FragmentMessage(msg, i), connectionId, Some(FragmentationHeader(fragId, i, last)), pieces[i]);
  }

  /**
    The whole promise to the application: when every reliable message one peer sent is a
    prepared payload, then in every run what the other was handed decompresses, one by one
    and in order, to the first of those payloads.
   */
  lemma PayloadsArriveInOrder(codec: Codec, limit: nat, payloads: seq<bytes>, flags: seq<bool>, regime: Regime,
                              steps: seq<Step>, k: nat)
    requires ReliableDelivery.IsRun(regime, Start, steps) && Lawful(codec)
    requires var sent := ReliableDelivery.After(regime, Start, steps).a.sent;
             && |payloads| == |flags| == |sent|
             && forall i :: 0 <= i < |sent| ==>
                  && |payloads[i]| < 0x1_0000_0000 && |payloads[i]| <= limit
                  && sent[i] == ContentOfMessage(Prepared(codec, payloads[i], flags[i]))
    requires k < |ReliableDelivery.After(regime, Start, steps).b.delivered|
    ensures k < |payloads|
    ensures var c := ReliableDelivery.After(regime, Start, steps).b.delivered[k];
            FinalData(codec, limit, c.comp, c.data) == Ok(payloads[k])
  {
    ExactlyOnceInOrder(regime, steps);
    FinalDataUndoesPrepared(codec, limit, payloads[k], flags[k]);
  }
}
