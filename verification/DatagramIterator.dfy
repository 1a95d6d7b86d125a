/** Several messages in one datagram, and the padding of short ones. */
module DatagramIterator {
  import opened Wrappers
  import opened Bytes
  import opened MessageTypes
  import opened ControlMessages
  import opened MessageCodec

  // ---------------------------------------------------------------- the iterator

  function Yielded(data: bytes, pos: nat, server: bool): Option<Result<MessageMeta, DecodeError>> {
    if pos >= |data| then None else Some(DecodedMeta(data[pos..], pos == 0 && server))
  }

  class UdpMessageIter {
    const data: bytes
    const server: bool
    var pos: nat

    constructor (data: bytes, server: bool)
      ensures this.data == data && this.server == server && pos == 0
    {
      this.data, this.server, pos := data, server, 0;
    }

    method Next() returns (r: Option<Result<MessageMeta, DecodeError>>)
      modifies this
      ensures r == Yielded(data, old(pos), server)
      ensures pos == if r.Some? && r.value.Ok? then old(pos) + r.value.value.dataOffset + |r.value.value.data| else old(pos)
      ensures r.Some? && r.value.Ok? ==> pos > old(pos)
    {
      if pos >= |data| {
        return None;
      }
      var rest := data[pos..];
      var meta := DecodeMeta(rest, pos == 0 && server);
      if meta.Ok? {
        ClaimedOffsetIsExact(rest, pos == 0 && server);
        pos := pos + meta.value.dataOffset + |meta.value.data|;
      }
      r := Some(meta);
    }
  }

  /** All a consumer gets that stops at the first error. */
  function Iterate(data: bytes, pos: nat, server: bool): seq<Result<MessageMeta, DecodeError>>
    decreases |data| - pos
  {
    var item := Yielded(data, pos, server);
    if item == None then []
    else if item.value.Err? then [item.value]
    else
      var next := pos + item.value.value.dataOffset + |item.value.value.data|;
      if next <= pos then [item.value] else [item.value] + Iterate(data, next, server)
  }

  lemma RegroupItems(a: seq<Result<MessageMeta, DecodeError>>, item: Result<MessageMeta, DecodeError>,
                     rest: seq<Result<MessageMeta, DecodeError>>)
    ensures a + ([item] + rest) == (a + [item]) + rest && a + [] == a && [item] + [] == [item]
  {
  }

  lemma IterateStep(data: bytes, pos: nat, server: bool)
    ensures Yielded(data, pos, server).Some? ==> pos < |data|
    ensures var item := Yielded(data, pos, server);
            Iterate(data, pos, server)
            == if item == None then []
               else if item.value.Err? then [item.value]
               else [item.value] + Iterate(data, pos + item.value.value.dataOffset + |item.value.value.data|, server)
  {
    hide DecodedMeta;
    if pos < |data| && DecodedMeta(data[pos..], pos == 0 && server).Ok? {
      ClaimedOffsetIsExact(data[pos..], pos == 0 && server);
    }
  }

  method IterateAll(data: bytes, server: bool) returns (items: seq<Result<MessageMeta, DecodeError>>)
    ensures items == Iterate(data, 0, server)
  {
    hide DecodedMeta, Iterate, Yielded;
    var iter := new UdpMessageIter(data, server);
    items := [];
    while true
      invariant iter.data == data && iter.server == server
      invariant Iterate(data, 0, server) == items + Iterate(data, iter.pos, server)
      decreases |data| - iter.pos
    {
      IterateStep(data, iter.pos, server);
      var item := iter.Next();
      if item == None {
        RegroupItems(items, Err(NotEnoughData), []);
        return;
      }
      RegroupItems(items, item.value, Iterate(data, iter.pos, server));
      items := items + [item.value];
      if item.value.Err? {
        return;
      }
    }
  }

  // ---------------------------------------------------------------- well-formed datagrams

  datatype Item =
    | Control(typ: byte, body: bytes)
    | Data(msg: WireMessage)
    | Pad(filler: bytes)

  ghost predicate ItemOk(i: Item) {
    match i
    case Control(typ, body) => typ < MSG_DATA && typ != MSG_PADDING && ControlLength(typ, body) == Ok(|body|)
    case Data(msg) => WireOk(msg)
    case Pad(_) => true
  }

  /** Padding, and data without a boundary, take the rest of the datagram. */
  predicate IsOpenEnded(i: Item) {
    i.Pad? || (i.Data? && !i.msg.boundary)
  }

  ghost predicate WellFormed(items: seq<Item>) {
    && (forall i :: 0 <= i < |items| ==> ItemOk(items[i]))
    && (forall i :: 0 <= i < |items| - 1 ==> !IsOpenEnded(items[i]))
  }

  function ItemHeader(i: Item): byte {
    match i
    case Control(typ, _) => typ
    case Data(msg) => WireHeaderByte(msg)
    case Pad(_) => MSG_PADDING
  }

  function ItemBody(i: Item): bytes
    requires i.Data? ==> WireOk(i.msg)
  {
    match i
    case Control(_, body) => body
    case Data(msg) => HeaderBytes(msg) + msg.data
    case Pad(filler) => filler
  }

  /** An item's bytes; only the first of a datagram to a server has a connection id in it. */
  function ItemBytes(i: Item, id: bytes): bytes
    requires i.Data? ==> WireOk(i.msg)
  {
    [ItemHeader(i)] + id + ItemBody(i)
  }

  function ItemMeta(i: Item, id: bytes): MessageMeta
    requires i.Data? ==> WireOk(i.msg)
  {
    var start := 1 + |id|;
    match i
    case Control(typ, body) => MessageMeta(typ, None, None, None, body, start)
    case Data(msg) => WireMeta(msg, msg.data, start)
    case Pad(filler) => MessageMeta(MSG_PADDING, None, None, None, filler, start)
  }

  function JoinedItems(items: seq<Item>): bytes
    requires forall i :: 0 <= i < |items| && items[i].Data? ==> WireOk(items[i].msg)
  {
    if items == [] then [] else ItemBytes(items[0], []) + JoinedItems(items[1..])
  }

  lemma DropHeader(h: byte, id: bytes, body: bytes, tail: bytes)
    ensures var d := [h] + id + body + tail; d[0] == h && d[1 + |id|..] == body + tail
  {
    var d := [h] + id + body + tail;
    assert d == [h] + (id + (body + tail));
  }

  lemma ControlBranch(data: bytes, udpConnId: bool)
    requires data != [] && data[0] < MSG_DATA && |data| >= HeaderStart(udpConnId)
    ensures DecodedMeta(data, udpConnId) == DecodeControl(data[0], data[HeaderStart(udpConnId)..], HeaderStart(udpConnId))
  {
  }

  /** One item at the front of what is left decodes to itself and consumes exactly its bytes. */
  lemma ItemDecodes(i: Item, id: bytes, tail: bytes)
    requires ItemOk(i) && (IsOpenEnded(i) ==> tail == []) && |id| in {0, 8}
    ensures DecodedMeta(ItemBytes(i, id) + tail, |id| == 8) == Ok(ItemMeta(i, id))
    ensures ItemMeta(i, id).dataOffset + |ItemMeta(i, id).data| == |ItemBytes(i, id)|
  {
    var d := ItemBytes(i, id) + tail;
    var start := 1 + |id|;
    DropHeader(ItemHeader(i), id, ItemBody(i), tail);
    match i
    case Control(typ, body) =>
      LengthIgnoresTail(typ, body, tail);
      ControlBranch(d, |id| == 8);
      assert (body + tail)[..|body|] == body;
    case Data(msg) =>
      HeaderBits(msg);
      DataBranch(d, |id| == 8);
      DecodeDataUndoesLayout(d[0], msg, tail, start);
      assert msg.data + [] == msg.data;
    case Pad(filler) =>
      ControlBranch(d, |id| == 8);
      assert filler + [] == filler;
  }

  ghost predicate IsDatagram(data: bytes, items: seq<Item>, id: bytes)
    requires WellFormed(items)
  {
    if items == [] then data == [] else data == ItemBytes(items[0], id) + JoinedItems(items[1..])
  }

  function ItemMetas(items: seq<Item>, id: bytes): seq<Result<MessageMeta, DecodeError>>
    requires forall i :: 0 <= i < |items| && items[i].Data? ==> WireOk(items[i].msg)
  {
    if items == [] then [] else [Ok(ItemMeta(items[0], id))] + ItemMetas(items[1..], [])
  }

  lemma {:induction false} SuffixYieldsItems(data: bytes, pos: nat, server: bool, items: seq<Item>, id: bytes)
    requires WellFormed(items) && pos <= |data|
    requires IsDatagram(data[pos..], items, id)
    requires |id| == (if pos == 0 && server then 8 else 0)
    ensures Iterate(data, pos, server) == ItemMetas(items, id)
    decreases |items|
  {
    hide DecodedMeta, ItemMeta, Iterate, IsDatagram, ItemBytes, ControlLength;
    IterateStep(data, pos, server);
    if items == [] {
      NoItems(data[pos..], id);
    } else {
      FrontItem(data, pos, items, id);
      if IsOpenEnded(items[0]) {
        assert |items| == 1;
        NoMoreBytes();
      }
      ItemDecodes(items[0], id, JoinedItems(items[1..]));
      SuffixYieldsItems(data, pos + |ItemBytes(items[0], id)|, server, items[1..], []);
    }
  }

  lemma NoItems(data: bytes, id: bytes)
    ensures IsDatagram(data, [], id) ==> data == []
  {
  }

  lemma NoMoreBytes()
    ensures JoinedItems([]) == []
  {
  }

  /** The bytes of the front item, and behind them a datagram of the rest. */
  lemma FrontItem(data: bytes, pos: nat, items: seq<Item>, id: bytes)
    requires WellFormed(items) && items != [] && pos <= |data| && IsDatagram(data[pos..], items, id)
    ensures var next := pos + |ItemBytes(items[0], id)|;
            && pos < next <= |data| && data[pos..] == ItemBytes(items[0], id) + JoinedItems(items[1..])
            && WellFormed(items[1..]) && IsDatagram(data[next..], items[1..], [])
  {
    hide ItemHeader, ItemBody;
    var item := ItemBytes(items[0], id);
    assert data[pos + |item|..] == data[pos..][|item|..] == JoinedItems(items[1..]);
  }

  /**
    The items of a datagram, concatenated, are exactly what iterating yields; each step
    consumes exactly one item's bytes, so the consumed slices tile the datagram.
   */
  lemma DatagramYieldsItsItems(items: seq<Item>, id: bytes, server: bool)
    requires WellFormed(items) && items != [] && |id| == (if server then 8 else 0)
    ensures Iterate(ItemBytes(items[0], id) + JoinedItems(items[1..]), 0, server) == ItemMetas(items, id)
  {
    var data := ItemBytes(items[0], id) + JoinedItems(items[1..]);
    assert data[0..] == data;
    SuffixYieldsItems(data, 0, server, items, id);
  }

  // ---------------------------------------------------------------- padding

  const MINIMUM_UDP_PAYLOAD := 22

  class PadRng {
    var x: u64
    var y: u64
    var z: u64

    constructor (x: u64, y: u64, z: u64)
    {
      this.x, this.y, this.z := x, y, z;
    }

    method Next() returns (r: u64)
      modifies this
      ensures r == old(x)
    {
      var xp, yp, zp := x, y, z;
      x := (15241094284759029579 * (zp as int)) % 0x1_0000_0000_0000_0000;
      y := Rotl12((yp as int - xp) % 0x1_0000_0000_0000_0000);
      z := Rotl44((zp as int - yp) % 0x1_0000_0000_0000_0000);
      r := xp;
    }
  }

  /** Rotations: the bits shifted out at the top come back in at the bottom. */
  function Rotl12(x: u64): u64 {
    (x % 0x10_0000_0000_0000) as int * 0x1000 + x / 0x10_0000_0000_0000
  }

  function Rotl44(x: u64): u64 {
    (x % 0x10_0000) as int * 0x1000_0000_0000 + x / 0x10_0000
  }

  method WritePaddingBytes(writer: ByteWriter, rng: PadRng, count: nat)
    modifies writer, rng
    ensures old(writer.written) <= writer.written && |writer.written| == |old(writer.written)| + count
  {
    var filled := 0;
    while filled < count
      invariant filled <= count
      invariant old(writer.written) <= writer.written && |writer.written| == |old(writer.written)| + filled
    {
      var rand := rng.Next();
      var toWrite := if 8 < count - filled then 8 else count - filled;
      writer.WriteBytes(LE64(rand)[..toWrite]);
      filled := filled + toWrite;
    }
  }

  method WritePadMessage(writer: ByteWriter, rng: PadRng, count: nat)
    requires count > 0
    modifies writer, rng
    ensures |writer.written| == |old(writer.written)| + count
    ensures old(writer.written) + [MSG_PADDING] <= writer.written
  {
    writer.WriteU8(MSG_PADDING);
    WritePaddingBytes(writer, rng, count - 1);
  }

  /** Appends nothing, or one padding item that brings the datagram to the minimum. */
  method PadMessageToMinimum(writer: ByteWriter, rng: PadRng)
    modifies writer, rng
    ensures IsPadded(old(writer.written), writer.written)
  {
    if |writer.written| < MINIMUM_UDP_PAYLOAD {
      WritePadMessage(writer, rng, MINIMUM_UDP_PAYLOAD - |writer.written|);
      ghost var filler := writer.written[|old(writer.written)| + 1..];
      assert writer.written == old(writer.written) + [MSG_PADDING] + filler;
    }
  }

  ghost predicate IsPadded(data: bytes, padded: bytes) {
    && |padded| == (if |data| < 22 then 22 else |data|)
    && (if |data| < 22
        then exists filler :: padded == data + [MSG_PADDING] + filler
        else padded == data)
  }

  /** A control message with a padding item behind it yields the two. */
  lemma PaddedYieldsTwo(typ: byte, body: bytes, id: bytes, filler: bytes)
    requires ItemOk(Control(typ, body)) && |id| in {0, 8}
    ensures var control := Control(typ, body);
            Iterate(ItemBytes(control, id) + [MSG_PADDING] + filler, 0, |id| == 8)
            == [Ok(ItemMeta(control, id)), Ok(ItemMeta(Pad(filler), []))]
  {
    hide Iterate, ItemMeta;
    var items := [Control(typ, body), Pad(filler)];
    assert items[1..] == [Pad(filler)] && items[1..][1..] == [];
    assert JoinedItems(items[1..]) == [MSG_PADDING] + filler;
    Regroup(ItemBytes(items[0], id), [MSG_PADDING], filler);
    DatagramYieldsItsItems(items, id, |id| == 8);
    assert ItemMetas(items[1..], []) == [Ok(ItemMeta(Pad(filler), []))];
  }

  lemma UnpaddedYieldsOne(typ: byte, body: bytes, id: bytes)
    requires ItemOk(Control(typ, body)) && |id| in {0, 8}
    ensures var control := Control(typ, body);
            Iterate(ItemBytes(control, id), 0, |id| == 8) == [Ok(ItemMeta(control, id))]
  {
    hide Iterate, ItemMeta, ItemBytes;
    var items := [Control(typ, body)];
    assert items[1..] == [];
    assert ItemBytes(items[0], id) + [] == ItemBytes(items[0], id);
    DatagramYieldsItsItems(items, id, |id| == 8);
  }

  /** A padded control message yields itself, and at most one padding item after it. */
  lemma PaddingAddsAtMostOneItem(typ: byte, body: bytes, id: bytes, padded: bytes)
    requires ItemOk(Control(typ, body)) && |id| in {0, 8}
    requires IsPadded(ItemBytes(Control(typ, body), id), padded)
    ensures var yielded := Iterate(padded, 0, |id| == 8);
            && 1 <= |yielded| <= 2
            && yielded[0] == Ok(ItemMeta(Control(typ, body), id))
            && (|yielded| == 2 ==> yielded[1].Ok? && yielded[1].value.typ == MSG_PADDING)
            && (|yielded| == 2 <==> |ItemBytes(Control(typ, body), id)| < 22)
  {
    hide Iterate, ItemOk, ItemBytes;
    var data := ItemBytes(Control(typ, body), id);
    if |data| < 22 {
      var filler :| padded == data + [MSG_PADDING] + filler;
      PaddedYieldsTwo(typ, body, id, filler);
    } else {
      UnpaddedYieldsOne(typ, body, id);
    }
  }
}
