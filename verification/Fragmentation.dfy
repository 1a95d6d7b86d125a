/** Splitting a data message into datagrams that fit the MTU. */
module Fragmentation {
  import opened Wrappers
  import opened Bytes
  import opened MessageTypes
  import opened MessageCodec
  import opened FragmentProofs

  // ---------------------------------------------------------------- geometry

  const COMMON_HEADER := 9 // one header byte and eight for a connection id, reserved even without one
  const FRAGMENT_HEADER := 4

  function RelSize(msg: DataMessage): nat {
    if msg.rel.Some? then 4 + msg.rel.value.ackCount * 2 else 0
  }

  function CompSize(msg: DataMessage): nat {
    if msg.comp.Some? then 4 else 0
  }

  function UnfragmentedSize(msg: DataMessage): nat {
    COMMON_HEADER + RelSize(msg) + CompSize(msg) + |msg.data|
  }

  /** The MTU leaves room for payload behind all headers; otherwise the size subtraction underflows. */
  predicate RoomForPayload(msg: DataMessage, mtu: nat) {
    mtu > RelSize(msg) + CompSize(msg) + FRAGMENT_HEADER + COMMON_HEADER
  }

  function FirstSize(msg: DataMessage, mtu: nat): (n: nat)
    requires RoomForPayload(msg, mtu)
    ensures n > 0
  {
    mtu - RelSize(msg) - CompSize(msg) - FRAGMENT_HEADER - COMMON_HEADER
  }

  function RestSize(msg: DataMessage, mtu: nat): (n: nat)
    requires RoomForPayload(msg, mtu)
    ensures n > 0
  {
    mtu - FRAGMENT_HEADER - COMMON_HEADER
  }

  /** The payload cut into a first piece of `size` bytes and further ones of `rest` bytes. */
  function Pieces(data: bytes, size: nat, rest: nat): seq<bytes>
    requires size > 0 && rest > 0
    decreases |data|
  {
    if data == [] then []
    else if |data| <= size then [data]
    else [data[..size]] + Pieces(data[size..], rest, rest)
  }

  lemma {:induction false} PiecesTile(data: bytes, size: nat, rest: nat)
    requires size > 0 && rest > 0
    ensures var ps := Pieces(data, size, rest);
            && Flatten(ps) == data
            && (forall i :: 0 <= i < |ps| ==> 0 < |ps[i]| <= if i == 0 then size else rest)
    decreases |data|
  {
    if |data| > size {
      var ps := Pieces(data, size, rest);
      PiecesTile(data[size..], rest, rest);
      assert ps[1..] == Pieces(data[size..], rest, rest);
      assert forall i :: 1 <= i < |ps| ==> ps[i] == ps[1..][i - 1];
    } else if data != [] {
      assert Pieces(data, size, rest)[1..] == [];
      assert data + [] == data;
    }
  }

  /** How many pieces: at most k + 1 exactly when the payload is at most one first and k further ones. */
  lemma {:induction false} PieceCount(data: bytes, size: nat, rest: nat, k: nat)
    requires size > 0 && rest > 0
    ensures |Pieces(data, size, rest)| <= k + 1 <==> |data| <= size + k * rest
    ensures |Pieces(data, size, rest)| >= 2 <==> |data| > size
    decreases |data|
  {
    if |data| > size {
      var tail := data[size..];
      PieceCount(tail, rest, rest, if k == 0 then 0 else k - 1);
      assert |Pieces(data, size, rest)| == 1 + |Pieces(tail, rest, rest)|;
      if k > 0 {
        assert rest + (k - 1) * rest == k * rest;
      }
    } else {
      assert k * rest >= 0;
    }
  }

  // ---------------------------------------------------------------- datagrams

  /** The fragment index field: the top bit is set in the last fragment, whatever it was before. */
  function IndexField(index: nat, last: bool): u16 {
    if last then index % LAST_FRAGMENT_MASK + LAST_FRAGMENT_MASK else index % 0x1_0000
  }

  /** OR-ing a bit that headers built here never have. */
  function WithFragmentationBit(header: byte): byte {
    if HasBit(header, FRAGMENTATION_BIT) then header else (header + FRAGMENTATION_BIT) % 0x100
  }

  function FragmentDatagram(msg: DataMessage, connectionId: u64, id: u16, index: nat, last: bool, piece: bytes): bytes {
    var header := DataHeader(msg, connectionId, index != 0);
    [WithFragmentationBit(header[0])] + header[1..] + LE16(id) + LE16(IndexField(index, last)) + piece
  }

  function FragmentDatagrams(msg: DataMessage, connectionId: u64, id: u16, index: nat,
                             pieces: seq<bytes>): (r: seq<bytes>)
    ensures |r| == |pieces|
    ensures forall i :: 0 <= i < |r| ==>
      r[i] == FragmentDatagram(msg, connectionId, id, index + i, i == |r| - 1, pieces[i])
    decreases |pieces|
  {
    hide FragmentDatagram;
    if pieces == [] then []
    else
      var r := FragmentDatagrams(msg, connectionId, id, index + 1, pieces[1..]);
      [FragmentDatagram(msg, connectionId, id, index, |pieces| == 1, pieces[0])] + r
  }

  function PlainDatagram(msg: DataMessage, connectionId: u64): bytes {
    DataHeader(msg, connectionId, false) + msg.data
  }

  /** The datagrams of a message: one if it fits, else its fragments. */
  function MessageDatagrams(msg: DataMessage, connectionId: u64, mtu: nat, fragId: u16): seq<bytes>
    requires RoomForPayload(msg, mtu)
  {
    if UnfragmentedSize(msg) <= mtu then [PlainDatagram(msg, connectionId)]
    else FragmentDatagrams(msg, connectionId, fragId, 0, Pieces(msg.data, FirstSize(msg, mtu), RestSize(msg, mtu)))
  }

  method BuildFragment(msg: DataMessage, connectionId: u64, fragMessageId: u16, fragmentIndex: nat, isLast: bool,
                       chunk: bytes)
    returns (datagram: bytes)
    requires MessageOk(msg)
    ensures datagram == FragmentDatagram(msg, connectionId, fragMessageId, fragmentIndex, isLast, chunk)
  {
    hide DataHeader, LE16, IndexField, WithFragmentationBit;
    var fwriter := new ByteWriter();
    EncodeDataHeader(fwriter, msg, connectionId, fragmentIndex != 0);
    ghost var header := DataHeader(msg, connectionId, fragmentIndex != 0);
    assert fwriter.written == header;
    var hdrbyte := WithFragmentationBit(fwriter.written[0]);
    fwriter.Patch(0, [hdrbyte]);
    assert header[..0] + [hdrbyte] + header[1..] == [hdrbyte] + header[1..];
    fwriter.WriteU16(fragMessageId);
    fwriter.WriteU16(IndexField(fragmentIndex, isLast));
    fwriter.WriteBytes(chunk);
    datagram := fwriter.written;
  }

  /** The datagrams still to be built from an offset on. */
  ghost function UnsentDatagrams(msg: DataMessage, connectionId: u64, mtu: nat, id: u16, index: nat,
                                 offset: nat): seq<bytes>
    requires RoomForPayload(msg, mtu) && offset <= |msg.data|
  {
    FragmentDatagrams(msg, connectionId, id, index, Pieces(msg.data[offset..], SizeAt(msg, mtu, index), RestSize(msg, mtu)))
  }

  function SizeAt(msg: DataMessage, mtu: nat, index: nat): (n: nat)
    requires RoomForPayload(msg, mtu)
    ensures n > 0
  {
    if index == 0 then FirstSize(msg, mtu) else RestSize(msg, mtu)
  }

  lemma UnsentStep(msg: DataMessage, connectionId: u64, mtu: nat, id: u16, index: nat, offset: nat)
    requires RoomForPayload(msg, mtu) && offset <= |msg.data|
    ensures UnsentDatagrams(msg, connectionId, mtu, id, index, offset) ==
            if offset == |msg.data| then []
            else
              var isLast := offset + SizeAt(msg, mtu, index) >= |msg.data|;
              var chunk := msg.data[offset..if isLast then |msg.data| else offset + SizeAt(msg, mtu, index)];
              [FragmentDatagram(msg, connectionId, id, index, isLast, chunk)]
              + UnsentDatagrams(msg, connectionId, mtu, id, index + 1, offset + |chunk|)
  {
    hide FragmentDatagram, FirstSize, RestSize;
    if offset == |msg.data| {
      assert msg.data[offset..] == [];
    } else {
      StepPieces(msg.data, offset, SizeAt(msg, mtu, index), RestSize(msg, mtu));
    }
  }

  /** Where the chunk from an offset on ends. */
  function ChunkEnd(msg: DataMessage, mtu: nat, index: nat, offset: nat): (end: nat)
    requires RoomForPayload(msg, mtu) && offset < |msg.data|
    ensures offset < end <= |msg.data|
  {
    if offset + SizeAt(msg, mtu, index) >= |msg.data| then |msg.data| else offset + SizeAt(msg, mtu, index)
  }

  /** One round of the loop: the datagram just built moves from those to be built to those built. */
  lemma RoundBuilds(msg: DataMessage, connectionId: u64, mtu: nat, id: u16, index: nat, offset: nat, built: seq<bytes>)
    requires RoomForPayload(msg, mtu) && offset < |msg.data|
    ensures var end := ChunkEnd(msg, mtu, index, offset);
            var datagram := FragmentDatagram(msg, connectionId, id, index, end == |msg.data|, msg.data[offset..end]);
            built + UnsentDatagrams(msg, connectionId, mtu, id, index, offset)
            == (built + [datagram]) + UnsentDatagrams(msg, connectionId, mtu, id, index + 1, end)
  {
    hide FragmentDatagram, UnsentDatagrams, SizeAt;
    UnsentStep(msg, connectionId, mtu, id, index, offset);
    var end := ChunkEnd(msg, mtu, index, offset);
    var datagram := FragmentDatagram(msg, connectionId, id, index, end == |msg.data|, msg.data[offset..end]);
    RegroupLists(built, [datagram], UnsentDatagrams(msg, connectionId, mtu, id, index + 1, end));
  }

  lemma AllUnsent(msg: DataMessage, connectionId: u64, mtu: nat, id: u16, index: nat)
    requires RoomForPayload(msg, mtu)
    ensures UnsentDatagrams(msg, connectionId, mtu, id, 0, 0)
            == FragmentDatagrams(msg, connectionId, id, 0, Pieces(msg.data, FirstSize(msg, mtu), RestSize(msg, mtu)))
    ensures UnsentDatagrams(msg, connectionId, mtu, id, index, |msg.data|) == []
  {
    assert msg.data[0..] == msg.data;
    assert msg.data[|msg.data|..] == [];
  }

  /** The fragment loop of the sender. */
  method BuildFragments(msg: DataMessage, connectionId: u64, mtu: nat,
                        fragMessageId: u16) returns (datagrams: seq<bytes>)
    requires MessageOk(msg) && RoomForPayload(msg, mtu)
    ensures datagrams
            == FragmentDatagrams(msg, connectionId, fragMessageId, 0, Pieces(msg.data, FirstSize(msg, mtu), RestSize(msg, mtu)))
  {
    hide FragmentDatagram, FragmentDatagrams, Pieces, UnsentDatagrams, DataHeader;
    var firstPayloadSize := mtu - RelSize(msg) - CompSize(msg) - FRAGMENT_HEADER - COMMON_HEADER;
    var restPayloadSize := mtu - FRAGMENT_HEADER - COMMON_HEADER;
    datagrams := [];
    var offset := 0;
    var fragmentIndex := 0;
    while offset < |msg.data|
      invariant offset <= |msg.data|
      invariant datagrams + UnsentDatagrams(msg, connectionId, mtu, fragMessageId, fragmentIndex, offset)
             == UnsentDatagrams(msg, connectionId, mtu, fragMessageId, 0, 0)
    {
      RoundBuilds(msg, connectionId, mtu, fragMessageId, fragmentIndex, offset, datagrams);
      var payloadSize := if fragmentIndex == 0 then firstPayloadSize else restPayloadSize;
      var isLast := offset + payloadSize >= |msg.data|;
      var chunk := msg.data[offset..if isLast then |msg.data| else offset + payloadSize];
      var datagram := BuildFragment(msg, connectionId, fragMessageId, fragmentIndex, isLast, chunk);
      datagrams := datagrams + [datagram];
      offset := offset + |chunk|;
      fragmentIndex := fragmentIndex + 1;
    }
    AllUnsent(msg, connectionId, mtu, fragMessageId, fragmentIndex);
  }

  lemma RegroupLists(a: seq<bytes>, b: seq<bytes>, c: seq<bytes>)
    ensures (a + b) + c == a + (b + c)
  {
  }

  /** The next piece from an offset on, and what remains to be cut. */
  lemma StepPieces(data: bytes, offset: nat, size: nat, rest: nat)
    requires offset < |data| && size > 0 && rest > 0
    ensures var isLast := offset + size >= |data|;
            var chunk := data[offset..if isLast then |data| else offset + size];
            var ps := Pieces(data[offset..], size, rest);
            && ps != [] && ps[0] == chunk && ps[1..] == Pieces(data[offset + |chunk|..], rest, rest)
            && (isLast <==> |ps| == 1)
  {
    var left := data[offset..];
    if |left| > size {
      assert left[size..] == data[offset + size..];
      assert left[size..] != [];
    }
  }

  // ---------------------------------------------------------------- what the datagrams are

  /** Every datagram of a message, fragmented or not, is at most the MTU. */
  lemma DatagramsFitMtu(msg: DataMessage, connectionId: u64, mtu: nat, fragId: u16, i: nat)
    requires MessageOk(msg) && RoomForPayload(msg, mtu)
    requires i < |MessageDatagrams(msg, connectionId, mtu, fragId)|
    ensures |MessageDatagrams(msg, connectionId, mtu, fragId)[i]| <= mtu
  {
    HeaderSizes(msg, connectionId);
    hide DataHeader, Pieces, LE16, IndexField, WithFragmentationBit;
    if UnfragmentedSize(msg) > mtu {
      PiecesTile(msg.data, FirstSize(msg, mtu), RestSize(msg, mtu));
    }
  }

  lemma HeaderSizes(msg: DataMessage, connectionId: u64)
    requires MessageOk(msg)
    ensures |DataHeader(msg, connectionId, false)| <= COMMON_HEADER + RelSize(msg) + CompSize(msg)
    ensures |DataHeader(msg, connectionId, true)| <= COMMON_HEADER
  {
  }

  /** A message that does not fit is sent in at least two fragments; `FragmentsDecode` tells which is marked as last. */
  lemma AtLeastTwoFragments(msg: DataMessage, connectionId: u64, mtu: nat, fragId: u16)
    requires RoomForPayload(msg, mtu) && UnfragmentedSize(msg) > mtu
    ensures |MessageDatagrams(msg, connectionId, mtu, fragId)| >= 2
  {
    PieceCount(msg.data, FirstSize(msg, mtu), RestSize(msg, mtu), 0);
  }

  /** Indices stay clear of the last-fragment bit exactly for payloads of at most 32768 pieces. */
  lemma IndicesFit(msg: DataMessage, connectionId: u64, mtu: nat, fragId: u16)
    requires RoomForPayload(msg, mtu) && UnfragmentedSize(msg) > mtu
    ensures |MessageDatagrams(msg, connectionId, mtu, fragId)| <= LAST_FRAGMENT_MASK
            <==> |msg.data| <= FirstSize(msg, mtu) + 32767 * RestSize(msg, mtu)
  {
    PieceCount(msg.data, FirstSize(msg, mtu), RestSize(msg, mtu), 32767);
  }

  /** Later fragments carry no optional headers: they are fragments of a message without any. */
  function FragmentMessage(msg: DataMessage, i: nat): DataMessage {
    if i == 0 then msg else DataMessage([], None, None)
  }

  lemma FragmentIsDatagram(msg: DataMessage, connectionId: u64, id: u16, i: nat, last: bool, piece: bytes)
    requires i < LAST_FRAGMENT_MASK
    ensures FragmentDatagram(msg, connectionId, id, i, last, piece)
            == Datagram(FragmentMessage(msg, i), connectionId, Some(FragmentationHeader(id, i, last)), piece)
  {
    hide DataHeader, LE16;
    FragmentHeaders(msg, connectionId, i);
    var header := DataHeader(msg, connectionId, i != 0);
    RegroupFields([WithFragmentationBit(header[0])] + header[1..], LE16(id), LE16(IndexField(i, last)), piece);
  }

  lemma RegroupFields(a: bytes, b: bytes, c: bytes, d: bytes)
    ensures a + b + c + d == a + (b + c) + d
  {
  }

  /** Omitting headers is encoding a message without any; the fragmentation bit is clear before it is set. */
  lemma FragmentHeaders(msg: DataMessage, connectionId: u64, i: nat)
    ensures DataHeader(msg, connectionId, i != 0) == DataHeader(FragmentMessage(msg, i), connectionId, false)
    ensures var h := DataHeader(msg, connectionId, i != 0)[0];
            h < 0x100 - FRAGMENTATION_BIT && WithFragmentationBit(h) == h + FRAGMENTATION_BIT
  {
    if i != 0 {
      assert [MSG_DATA] + [] + ConnIdBytes(connectionId) + [] == [MSG_DATA] + ConnIdBytes(connectionId);
    }
  }

  lemma PlainIsDatagram(msg: DataMessage, connectionId: u64)
    ensures PlainDatagram(msg, connectionId) == Datagram(msg, connectionId, None, msg.data)
  {
    hide DataHeader;
    var header := DataHeader(msg, connectionId, false);
    assert [header[0]] + header[1..] == header;
    assert header + [] == header;
  }

  /** The message as the reassembling side is to see it. */
  function Split(msg: DataMessage, mtu: nat): SplitMessage
    requires RoomForPayload(msg, mtu)
  {
    SplitMessage(Pieces(msg.data, FirstSize(msg, mtu), RestSize(msg, mtu)), msg.comp, msg.rel)
  }

  /**
    Without a connection id, or for messages that are not compressed, each fragment
    datagram decodes to the metadata of that fragment of the split message.
   */
  lemma FragmentsDecode(msg: DataMessage, connectionId: u64, mtu: nat, fragId: u16, sent: Sent, i: nat)
    requires MessageOk(msg) && RoomForPayload(msg, mtu) && UnfragmentedSize(msg) > mtu
    requires connectionId == 0 || msg.comp == None
    requires fragId in sent && sent[fragId] == Split(msg, mtu)
    requires i < |MessageDatagrams(msg, connectionId, mtu, fragId)|
    ensures var datagram := MessageDatagrams(msg, connectionId, mtu, fragId)[i];
            && datagram != []
            && DecodedMeta(datagram, connectionId != 0).Ok?
            && IsFragment(DecodedMeta(datagram, connectionId != 0).value, sent, fragId, i)
  {
    var pieces := sent[fragId].pieces;
    var last := i == |pieces| - 1;
    FragmentIsDatagram(msg, connectionId, fragId, i, last, pieces[i]);
    PlainRoundTrip(FragmentMessage(msg, i), connectionId, Some(FragmentationHeader(fragId, i, last)), pieces[i]);
  }

  /** A message goes out in one datagram exactly if it fits with nine bytes and its own headers in front. */
  lemma OneDatagramIff(msg: DataMessage, connectionId: u64, mtu: nat, fragId: u16)
    requires RoomForPayload(msg, mtu)
    ensures |MessageDatagrams(msg, connectionId, mtu, fragId)| == 1
            <==> 9 + (if msg.rel.Some? then 4 + 2 * msg.rel.value.ackCount as int else 0) + (if msg.comp.Some? then 4 else 0)
                 + |msg.data| <= mtu
  {
    hide PlainDatagram, FragmentDatagrams;
    if UnfragmentedSize(msg) > mtu {
      AtLeastTwoFragments(msg, connectionId, mtu, fragId);
    }
  }

  lemma {:induction false} PiecesAreFull(data: bytes, size: nat, rest: nat, i: nat)
    requires size > 0 && rest > 0 && i + 1 < |Pieces(data, size, rest)|
    ensures |Pieces(data, size, rest)[i]| == if i == 0 then size else rest
    decreases |data|
  {
    if i > 0 {
      PiecesAreFull(data[size..], rest, rest, i - 1);
    }
  }

  /** Every fragment but the last fills its datagram; without a connection id eight bytes stay free. */
  lemma FragmentsAreFull(msg: DataMessage, connectionId: u64, mtu: nat, fragId: u16, i: nat)
    requires MessageOk(msg) && RoomForPayload(msg, mtu) && UnfragmentedSize(msg) > mtu
    requires i + 1 < |MessageDatagrams(msg, connectionId, mtu, fragId)|
    ensures |MessageDatagrams(msg, connectionId, mtu, fragId)[i]| == mtu - if connectionId == 0 then 8 else 0
  {
    PiecesAreFull(msg.data, FirstSize(msg, mtu), RestSize(msg, mtu), i);
    HeadersExactly(msg, connectionId);
    hide DataHeader, Pieces, LE16, IndexField, WithFragmentationBit;
  }

  lemma HeadersExactly(msg: DataMessage, connectionId: u64)
    requires MessageOk(msg)
    ensures var id := if connectionId == 0 then 0 else 8;
            && |DataHeader(msg, connectionId, false)| == 1 + id + RelSize(msg) + CompSize(msg)
            && |DataHeader(msg, connectionId, true)| == 1 + id
  {
  }
}
