/** Headers of data messages on the wire: encoding, decoding, and that one undoes the other. */
module MessageCodec {
  import opened Wrappers
  import opened Bytes
  import opened MessageTypes
  import opened ControlMessages

  const BOUNDARY_BIT := 0x08
  const RELIABILITY_BIT := 0x10
  const FRAGMENTATION_BIT := 0x20

  // ---------------------------------------------------------------- encoding

  function KindBits(kind: CompressionType): (b: byte)
    ensures 1 <= b <= 3
  {
    match kind case Zstd => 1 case ZstdNoDict => 2 case Lz4 => 3
  }

  function KindOf(bits: byte): Option<CompressionType> {
    match bits case 1 => Some(Zstd) case 2 => Some(ZstdNoDict) case 3 => Some(Lz4) case _ => None
  }

  function HeaderByte(comp: Option<CompressionHeader>, rel: Option<ReliabilityHeader>): byte {
    0x80 + (if comp.Some? then KindBits(comp.value.kind) else 0) + (if rel.Some? then RELIABILITY_BIT else 0)
  }

  function CompBytes(comp: Option<CompressionHeader>): bytes {
    if comp.Some? then LE32(comp.value.uncompressedSize) else []
  }

  function AckBytes(acks: seq<u16>): (s: bytes)
    ensures |s| == 2 * |acks|
  {
    if acks == [] then [] else LE16(acks[0]) + AckBytes(acks[1..])
  }

  function RelBytes(rel: Option<ReliabilityHeader>): bytes {
    if rel.Some? then LE16(rel.value.messageId) + LE16(rel.value.ackCount) + AckBytes(rel.value.acks) else []
  }

  function ConnIdBytes(connectionId: u64): bytes {
    if connectionId != 0 then LE64(connectionId) else []
  }

  /** The header of a data message; fragments after the first omit the optional headers. */
  function DataHeader(msg: DataMessage, connectionId: u64, omitHeaders: bool): (r: bytes)
    ensures r != []
  {
    if omitHeaders then [MSG_DATA] + ConnIdBytes(connectionId)
    else [HeaderByte(msg.comp, msg.rel)] + CompBytes(msg.comp) + ConnIdBytes(connectionId) + RelBytes(msg.rel)
  }

  ghost predicate MessageOk(msg: DataMessage) {
    msg.rel.Some? ==> msg.rel.value.Valid()
  }

  /** All headers the program can have: the acks are those it announces, or the eight there is room for. */
  ghost predicate HeaderHeld(rel: Option<ReliabilityHeader>) {
    rel.Some? ==> |rel.value.acks| == HeldAcks(rel.value.ackCount)
  }

  lemma AckBytesAppend(acks: seq<u16>, a: u16)
    ensures AckBytes(acks + [a]) == AckBytes(acks) + LE16(a)
  {
    if acks != [] {
      assert (acks + [a])[1..] == acks[1..] + [a];
    }
  }

  method EncodeDataHeader(writer: ByteWriter, msg: DataMessage, connectionId: u64, omitHeaders: bool)
    requires HeaderHeld(msg.rel)
    modifies writer
    ensures writer.written == old(writer.written) + DataHeader(msg, connectionId, omitHeaders)
  {
    var hdr: byte := MSG_DATA;
    if !omitHeaders {
      if msg.comp.Some? {
        hdr := hdr + KindBits(msg.comp.value.kind);
      }
      if msg.rel.Some? {
        hdr := hdr + RELIABILITY_BIT;
      }
    }
    writer.WriteU8(hdr);
    if !omitHeaders {
      WriteCompressionHeader(writer, msg.comp);
      WriteConnectionId(writer, connectionId);
      WriteReliabilityHeader(writer, msg.rel);
      assert hdr == HeaderByte(msg.comp, msg.rel);
      RegroupAll(old(writer.written), [hdr], CompBytes(msg.comp), ConnIdBytes(connectionId), RelBytes(msg.rel));
    } else {
      WriteConnectionId(writer, connectionId);
      Regroup(old(writer.written), [hdr], ConnIdBytes(connectionId));
    }
  }

  lemma RegroupAll(a: bytes, b: bytes, c: bytes, d: bytes, e: bytes)
    ensures a + b + c + d + e == a + (b + c + d + e)
  {
  }

  method WriteCompressionHeader(writer: ByteWriter, comp: Option<CompressionHeader>)
    modifies writer
    ensures writer.written == old(writer.written) + CompBytes(comp)
  {
    if comp.Some? {
      writer.WriteU32(comp.value.uncompressedSize);
    }
  }

  method WriteConnectionId(writer: ByteWriter, connectionId: u64)
    modifies writer
    ensures writer.written == old(writer.written) + ConnIdBytes(connectionId)
  {
    if connectionId != 0 {
      writer.WriteU64(connectionId);
    }
  }

  method WriteReliabilityHeader(writer: ByteWriter, header: Option<ReliabilityHeader>)
    requires HeaderHeld(header)
    modifies writer
    ensures writer.written == old(writer.written) + RelBytes(header)
  {
    if header.Some? {
      var rel := header.value;
      writer.WriteU16(rel.messageId);
      writer.WriteU16(rel.ackCount);
      var i: nat := 0;
      ghost var before := writer.written;
      while i < rel.ackCount && i < 8
        invariant 0 <= i <= |rel.acks|
        invariant writer.written == before + AckBytes(rel.acks[..i])
      {
        ghost var acks := rel.acks[..i];
        writer.WriteU16(rel.acks[i]);
        AckBytesAppend(acks, rel.acks[i]);
        assert rel.acks[..i + 1] == acks + [rel.acks[i]];
        Regroup(before, AckBytes(acks), LE16(rel.acks[i]));
        i := i + 1;
      }
      assert rel.acks[..i] == rel.acks;
      Regroup(old(writer.written), LE16(rel.messageId), LE16(rel.ackCount));
      Regroup(old(writer.written), LE16(rel.messageId) + LE16(rel.ackCount), AckBytes(rel.acks));
    }
  }

  // ---------------------------------------------------------------- decoding

  predicate HasBit(header: byte, bit: nat)
    requires bit > 0
  {
    (header / bit) % 2 == 1
  }

  function ParseComp(header: byte, body: bytes): Option<(Option<CompressionHeader>, nat)> {
    var kind := KindOf(header % 4);
    if kind == None then Some((None, 0))
    else if 4 <= |body| then Some((Some(CompressionHeader(kind.value, At32(body, 0))), 4))
    else None
  }

  function ParseAcks(body: bytes, p: nat, n: nat): (acks: seq<u16>)
    requires p + 2 * n <= |body|
    ensures |acks| == n
    ensures forall i :: 0 <= i < n ==> acks[i] == At16(body, p + 2 * i)
  {
    seq(n, i requires 0 <= i < n => At16(body, p + 2 * i))
  }

  function ParseRel(header: byte, body: bytes, p: nat): Option<(Option<ReliabilityHeader>, nat)> {
    if !HasBit(header, RELIABILITY_BIT) then Some((None, p))
    else if p + 4 > |body| then None
    else
      var held := HeldAcks(At16(body, p + 2));
      if p + 4 + 2 * held > |body| then None
      else Some((Some(ReliabilityHeader(At16(body, p), At16(body, p + 2), ParseAcks(body, p + 4, held))), p + 4 + 2 * held))
  }

  function ParseFrag(header: byte, body: bytes, p: nat): Option<(Option<FragmentationHeader>, nat)> {
    if !HasBit(header, FRAGMENTATION_BIT) then Some((None, p))
    else if p + 4 > |body| then None
    else
      var index := At16(body, p + 2);
      Some((Some(FragmentationHeader(At16(body, p), index % LAST_FRAGMENT_MASK, index >= LAST_FRAGMENT_MASK)), p + 4))
  }

  function ParseBoundary(header: byte, body: bytes, p: nat): Option<(Option<u16>, nat)> {
    if !HasBit(header, BOUNDARY_BIT) then Some((None, p))
    else if p + 2 > |body| then None
    else Some((Some(At16(body, p)), p + 2))
  }

  /** The offset the decoder claims: it counts two bytes for every announced ack, read or not. */
  function ClaimedOffset(start: nat, comp: Option<CompressionHeader>, rel: Option<ReliabilityHeader>,
                         frag: Option<FragmentationHeader>, boundary: Option<u16>): nat {
    start + (if comp.Some? then 4 else 0) + (if rel.Some? then 4 + rel.value.ackCount * 2 else 0)
    + (if frag.Some? then 4 else 0) + (if boundary.Some? then 2 else 0)
  }

  function DecodeData(header: byte, body: bytes, start: nat): Result<MessageMeta, DecodeError> {
    match ParseComp(header, body)
    case None => Err(InvalidData)
    case Some((comp, p1)) =>
      match ParseRel(header, body, p1)
      case None => Err(InvalidData)
      case Some((rel, p2)) =>
        match ParseFrag(header, body, p2)
        case None => Err(InvalidData)
        case Some((frag, p3)) =>
          match ParseBoundary(header, body, p3)
          case None => Err(InvalidData)
          case Some((boundary, p4)) =>
            Finished(body, p4, start, comp, rel, frag, boundary)
  }

  /** The payload: up to the boundary if there is one, else all that is left. */
  function Finished(body: bytes, p: nat, start: nat, comp: Option<CompressionHeader>, rel: Option<ReliabilityHeader>,
                    frag: Option<FragmentationHeader>, boundary: Option<u16>): Result<MessageMeta, DecodeError> {
    var rest := if p <= |body| then body[p..] else [];
    if boundary.Some? && |rest| < boundary.value then Err(InvalidData)
    else
      var data := if boundary.Some? then rest[..boundary.value] else rest;
      Ok(MessageMeta(MSG_DATA, comp, rel, frag, data, ClaimedOffset(start, comp, rel, frag, boundary)))
  }

  function HeaderStart(udpConnId: bool): nat {
    if udpConnId then 9 else 1
  }

  function DecodedMeta(data: bytes, udpConnId: bool): Result<MessageMeta, DecodeError>
    requires data != []
  {
    var start := HeaderStart(udpConnId);
    if |data| < start then Err(NotEnoughData)
    else
      var body := data[start..];
      if data[0] < MSG_DATA then DecodeControl(data[0], body, start) else DecodeData(data[0], body, start)
  }

  function DecodeControl(typ: byte, body: bytes, start: nat): Result<MessageMeta, DecodeError> {
    match ControlLength(typ, body)
    case Err(e) => Err(e)
    case Ok(n) =>
      if |body| < n then Err(NotEnoughData)
      else Ok(MessageMeta(typ, None, None, None, body[..n], start))
  }

  lemma DataBranch(data: bytes, udpConnId: bool)
    requires data != [] && data[0] >= MSG_DATA && |data| >= HeaderStart(udpConnId)
    ensures DecodedMeta(data, udpConnId) == DecodeData(data[0], data[HeaderStart(udpConnId)..], HeaderStart(udpConnId))
  {
  }

  method DecodeMeta(data: bytes, udpConnId: bool) returns (r: Result<MessageMeta, DecodeError>)
    requires data != []
    ensures r == DecodedMeta(data, udpConnId)
  {
    var dataStart := if udpConnId then 9 else 1;
    if |data| < dataStart {
      return Err(NotEnoughData);
    }
    var header := data[0];
    var body := data[dataStart..];
    var reader := new ByteReader(body);
    if header < MSG_DATA {
      var size := LengthForNonDataMessage(reader, header);
      if size.Err? {
        return Err(size.error);
      }
      if |body| < size.value {
        return Err(NotEnoughData);
      }
      return Ok(MessageMeta(header, None, None, None, body[..size.value], dataStart));
    }
    r := DecodeDataMeta(reader, header, dataStart);
  }

  method DecodeDataMeta(reader: ByteReader, header: byte, dataStart: nat) returns (r: Result<MessageMeta, DecodeError>)
    requires reader.Valid() && reader.pos == 0
    modifies reader
    ensures r == DecodeData(header, reader.data, dataStart)
  {
    hide ParseComp, ParseRel, ParseFrag, ParseBoundary;
    var offset: nat := dataStart;
    var comp := ReadCompressionHeader(reader, header);
    if comp.Err? {
      return Err(InvalidData);
    }
    if comp.value.Some? {
      offset := offset + 4;
    }
    ghost var p1 := reader.pos;
    var rel := ReadReliabilityHeader(reader, header);
    if rel.Err? {
      return Err(InvalidData);
    }
    if rel.value.Some? {
      offset := offset + 4 + (rel.value.value.ackCount as int) * 2;
    }
    ghost var p2 := reader.pos;
    var frag := ReadFragmentationHeader(reader, header);
    if frag.Err? {
      return Err(InvalidData);
    }
    if frag.value.Some? {
      offset := offset + 4;
    }
    ghost var p3 := reader.pos;
    var boundary := ReadBoundary(reader, header);
    if boundary.Err? {
      return Err(InvalidData);
    }
    if boundary.value.Some? {
      offset := offset + 2;
    }
    assert DecodeData(header, reader.data, dataStart)
        == Finished(reader.data, reader.pos, dataStart, comp.value, rel.value, frag.value, boundary.value);
    var data := reader.ReadToEnd();
    if boundary.value.Some? {
      if |data| < boundary.value.value {
        return Err(InvalidData);
      }
      data := data[..boundary.value.value];
    }
    r := Ok(MessageMeta(MSG_DATA, comp.value, rel.value, frag.value, data, offset));
  }

  method ReadCompressionHeader(reader: ByteReader, header: byte)
    returns (r: Result<Option<CompressionHeader>, DecodeError>)
    requires reader.Valid() && reader.pos == 0
    modifies reader
    ensures reader.Valid()
    ensures var parsed := ParseComp(header, reader.data);
            if parsed.Some? then r == Ok(parsed.value.0) && reader.pos == parsed.value.1 else r == Err(InvalidData)
  {
    var kind := KindOf(header % 4);
    if kind == None {
      return Ok(None);
    }
    var size := reader.ReadU32();
    if size.Err? {
      return Err(InvalidData);
    }
    r := Ok(Some(CompressionHeader(kind.value, size.value)));
  }

  method ReadBoundary(reader: ByteReader, header: byte) returns (r: Result<Option<u16>, DecodeError>)
    requires reader.Valid()
    modifies reader
    ensures reader.Valid()
    ensures var parsed := ParseBoundary(header, reader.data, old(reader.pos));
            if parsed.Some? then r == Ok(parsed.value.0) && reader.pos == parsed.value.1 else r == Err(InvalidData)
  {
    if !HasBit(header, BOUNDARY_BIT) {
      return Ok(None);
    }
    var b := reader.ReadU16();
    if b.Err? {
      return Err(InvalidData);
    }
    r := Ok(Some(b.value));
  }

  method ReadReliabilityHeader(reader: ByteReader, header: byte)
    returns (r: Result<Option<ReliabilityHeader>, DecodeError>)
    requires reader.Valid()
    modifies reader
    ensures reader.Valid()
    ensures var parsed := ParseRel(header, reader.data, old(reader.pos));
            if parsed.Some? then r == Ok(parsed.value.0) && reader.pos == parsed.value.1 else r == Err(InvalidData)
  {
    if !HasBit(header, RELIABILITY_BIT) {
      return Ok(None);
    }
    ghost var p := reader.pos;
    var id := reader.ReadU16();
    if id.Err? {
      return Err(InvalidData);
    }
    var count := reader.ReadU16();
    if count.Err? {
      return Err(InvalidData);
    }
    var held: nat := if count.value < 8 then count.value else 8;
    var acks: seq<u16> := [];
    var i: nat := 0;
    while i < held
      invariant reader.Valid() && 0 <= i <= held && reader.pos == p + 4 + 2 * i
      invariant acks == ParseAcks(reader.data, p + 4, i)
    {
      var ack := reader.ReadU16();
      if ack.Err? {
        return Err(InvalidData);
      }
      acks := acks + [ack.value];
      i := i + 1;
    }
    r := Ok(Some(ReliabilityHeader(id.value, count.value, acks)));
  }

  method ReadFragmentationHeader(reader: ByteReader, header: byte)
    returns (r: Result<Option<FragmentationHeader>, DecodeError>)
    requires reader.Valid()
    modifies reader
    ensures reader.Valid()
    ensures var parsed := ParseFrag(header, reader.data, old(reader.pos));
            if parsed.Some? then r == Ok(parsed.value.0) && reader.pos == parsed.value.1 else r == Err(InvalidData)
  {
    if !HasBit(header, FRAGMENTATION_BIT) {
      return Ok(None);
    }
    var id := reader.ReadU16();
    if id.Err? {
      return Err(InvalidData);
    }
    var index := reader.ReadU16();
    if index.Err? {
      return Err(InvalidData);
    }
    r := Ok(Some(FragmentationHeader(id.value, index.value % 0x8000, index.value >= 0x8000)));
  }

  // ---------------------------------------------------------------- round trips

  /** All the parts of a data message as the decoder expects them, in its order. */
  datatype WireMessage = WireMessage(
    comp: Option<CompressionHeader>,
    rel: Option<ReliabilityHeader>,
    frag: Option<FragmentationHeader>,
    boundary: bool,
    data: bytes)

  ghost predicate WireOk(m: WireMessage) {
    && (m.rel.Some? ==> m.rel.value.Valid())
    && (m.frag.Some? ==> m.frag.value.fragmentIndex < LAST_FRAGMENT_MASK)
    && (m.boundary ==> |m.data| < 0x1_0000)
  }

  function WireHeaderByte(m: WireMessage): byte {
    HeaderByte(m.comp, m.rel) + (if m.frag.Some? then FRAGMENTATION_BIT else 0) + (if m.boundary then BOUNDARY_BIT else 0)
  }

  function FragBytes(frag: Option<FragmentationHeader>): bytes
    requires frag.Some? ==> frag.value.fragmentIndex < LAST_FRAGMENT_MASK
  {
    if frag.Some? then
      LE16(frag.value.messageId)
      + LE16(frag.value.fragmentIndex + if frag.value.lastFragment then LAST_FRAGMENT_MASK else 0)
    else []
  }

  function BoundaryBytes(m: WireMessage): bytes
    requires m.boundary ==> |m.data| < 0x1_0000
  {
    if m.boundary then LE16(|m.data|) else []
  }

  function HeaderBytes(m: WireMessage): bytes
    requires WireOk(m)
  {
    CompBytes(m.comp) + RelBytes(m.rel) + FragBytes(m.frag) + BoundaryBytes(m)
  }

  ghost predicate Announces(h: byte, m: WireMessage) {
    && KindOf(h % 4) == (if m.comp.Some? then Some(m.comp.value.kind) else None)
    && (HasBit(h, RELIABILITY_BIT) <==> m.rel.Some?)
    && (HasBit(h, FRAGMENTATION_BIT) <==> m.frag.Some?)
    && (HasBit(h, BOUNDARY_BIT) <==> m.boundary)
  }

  lemma HeaderBits(m: WireMessage)
    ensures WireHeaderByte(m) >= MSG_DATA && Announces(WireHeaderByte(m), m)
  {
  }

  lemma {:induction false} ParsedAcks(body: bytes, p: nat, acks: seq<u16>)
    requires HoldsAt(body, p, AckBytes(acks))
    ensures p + 2 * |acks| <= |body| && ParseAcks(body, p, |acks|) == acks
    decreases |acks|
  {
    if acks != [] {
      HoldsSplit(body, p, LE16(acks[0]), AckBytes(acks[1..]));
      At16Holds(body, p, acks[0]);
      ParsedAcks(body, p + 2, acks[1..]);
      assert ParseAcks(body, p, |acks|) == [acks[0]] + ParseAcks(body, p + 2, |acks| - 1);
    }
  }

  lemma ParsedRel(header: byte, body: bytes, p: nat, rel: Option<ReliabilityHeader>)
    requires HasBit(header, RELIABILITY_BIT) <==> rel.Some?
    requires rel.Some? ==> rel.value.Valid()
    requires HoldsAt(body, p, RelBytes(rel))
    ensures ParseRel(header, body, p) == Some((rel, p + |RelBytes(rel)|))
  {
    if rel.Some? {
      var h := rel.value;
      HoldsSplit(body, p, LE16(h.messageId) + LE16(h.ackCount), AckBytes(h.acks));
      HoldsSplit(body, p, LE16(h.messageId), LE16(h.ackCount));
      At16Holds(body, p, h.messageId);
      At16Holds(body, p + 2, h.ackCount);
      ParsedAcks(body, p + 4, h.acks);
    }
  }

  lemma ParsedFrag(header: byte, body: bytes, p: nat, frag: Option<FragmentationHeader>)
    requires HasBit(header, FRAGMENTATION_BIT) <==> frag.Some?
    requires frag.Some? ==> frag.value.fragmentIndex < LAST_FRAGMENT_MASK
    requires HoldsAt(body, p, FragBytes(frag))
    ensures ParseFrag(header, body, p) == Some((frag, p + |FragBytes(frag)|))
  {
    if frag.Some? {
      var index := frag.value.fragmentIndex + if frag.value.lastFragment then LAST_FRAGMENT_MASK else 0;
      HoldsSplit(body, p, LE16(frag.value.messageId), LE16(index));
      At16Holds(body, p, frag.value.messageId);
      At16Holds(body, p + 2, index);
    }
  }

  /** The decoded metadata of a well-formed message whose first body byte is at `start`. */
  function WireMeta(m: WireMessage, data: bytes, start: nat): MessageMeta
    requires WireOk(m)
  {
    MessageMeta(MSG_DATA, m.comp, m.rel, m.frag, data, start + |HeaderBytes(m)|)
  }

  /** Where the parts of the header lie. */
  lemma HeaderParts(m: WireMessage, body: bytes)
    requires WireOk(m) && HoldsAt(body, 0, HeaderBytes(m))
    ensures var c, r, f := |CompBytes(m.comp)|, |RelBytes(m.rel)|, |FragBytes(m.frag)|;
            && HoldsAt(body, 0, CompBytes(m.comp))
            && HoldsAt(body, c, RelBytes(m.rel))
            && HoldsAt(body, c + r, FragBytes(m.frag))
            && HoldsAt(body, c + r + f, BoundaryBytes(m))
  {
    var c, r, f, b := CompBytes(m.comp), RelBytes(m.rel), FragBytes(m.frag), BoundaryBytes(m);
    HoldsSplit(body, 0, c + r + f, b);
    HoldsSplit(body, 0, c + r, f);
    HoldsSplit(body, 0, c, r);
  }

  lemma ParsedComp(h: byte, m: WireMessage, body: bytes)
    requires KindOf(h % 4) == (if m.comp.Some? then Some(m.comp.value.kind) else None) && HoldsAt(body, 0, CompBytes(m.comp))
    ensures ParseComp(h, body) == Some((m.comp, |CompBytes(m.comp)|))
  {
    hide KindOf;
    if m.comp.Some? {
      At32Holds(body, 0, m.comp.value.uncompressedSize);
    }
  }

  lemma ParsedBoundary(h: byte, m: WireMessage, body: bytes, p: nat)
    requires WireOk(m) && (HasBit(h, BOUNDARY_BIT) <==> m.boundary) && HoldsAt(body, p, BoundaryBytes(m))
    ensures ParseBoundary(h, body, p) == Some((if m.boundary then Some(|m.data|) else None, p + |BoundaryBytes(m)|))
  {
    if m.boundary {
      At16Holds(body, p, |m.data|);
    }
  }

  lemma ParsedParts(h: byte, m: WireMessage, body: bytes)
    requires WireOk(m) && HoldsAt(body, 0, HeaderBytes(m)) && Announces(h, m)
    ensures var c, r, f := |CompBytes(m.comp)|, |RelBytes(m.rel)|, |FragBytes(m.frag)|;
            && ParseComp(h, body) == Some((m.comp, c))
            && ParseRel(h, body, c) == Some((m.rel, c + r))
            && ParseFrag(h, body, c + r) == Some((m.frag, c + r + f))
            && ParseBoundary(h, body, c + r + f)
               == Some((if m.boundary then Some(|m.data|) else None, |HeaderBytes(m)|))
  {
    hide ParseComp, ParseRel, ParseFrag, ParseBoundary, HoldsAt, CompBytes, RelBytes, FragBytes, BoundaryBytes, KindOf, HasBit;
    HeaderParts(m, body);
    ParsedComp(h, m, body);
    ParsedRel(h, body, |CompBytes(m.comp)|, m.rel);
    ParsedFrag(h, body, |CompBytes(m.comp)| + |RelBytes(m.rel)|, m.frag);
    ParsedBoundary(h, m, body, |CompBytes(m.comp)| + |RelBytes(m.rel)| + |FragBytes(m.frag)|);
  }

  /** Decoding undoes the layout; without a boundary the payload runs to the end of the datagram. */
  lemma DecodeDataUndoesLayout(h: byte, m: WireMessage, tail: bytes, start: nat)
    requires WireOk(m) && Announces(h, m)
    ensures DecodeData(h, HeaderBytes(m) + m.data + tail, start)
            == Ok(WireMeta(m, if m.boundary then m.data else m.data + tail, start))
  {
    hide ParseComp, ParseRel, ParseFrag, ParseBoundary, HeaderBytes, ClaimedOffset, HasBit, KindOf;
    var header := HeaderBytes(m);
    var body := header + m.data + tail;
    ConcatParts(header, m.data, tail);
    ParsedParts(h, m, body);
    var boundary: Option<u16> := if m.boundary then Some(|m.data|) else None;
    assert DecodeData(h, body, start) == Finished(body, |header|, start, m.comp, m.rel, m.frag, boundary);
    OffsetIsHeaderLength(m, start);
  }

  lemma ConcatParts(a: bytes, b: bytes, c: bytes)
    ensures HoldsAt(a + b + c, 0, a)
    ensures (a + b + c)[|a|..] == b + c
    ensures (b + c)[..|b|] == b
  {
  }

  lemma OffsetIsHeaderLength(m: WireMessage, start: nat)
    requires WireOk(m)
    ensures ClaimedOffset(start, m.comp, m.rel, m.frag, if m.boundary then Some(|m.data|) else None)
            == start + |HeaderBytes(m)|
  {
  }

  /** A datagram as the sender builds it: the header, the fragmentation header if any, the payload. */
  function Datagram(msg: DataMessage, connectionId: u64, frag: Option<FragmentationHeader>, payload: bytes): (d: bytes)
    requires frag.Some? ==> frag.value.fragmentIndex < LAST_FRAGMENT_MASK
    ensures d != []
  {
    var header := DataHeader(msg, connectionId, false);
    [header[0] + if frag.Some? then FRAGMENTATION_BIT else 0] + header[1..] + FragBytes(frag) + payload
  }

  function SentMeta(msg: DataMessage, connectionId: u64, frag: Option<FragmentationHeader>, payload: bytes): MessageMeta
    requires frag.Some? ==> frag.value.fragmentIndex < LAST_FRAGMENT_MASK
  {
    MessageMeta(MSG_DATA, msg.comp, msg.rel, frag, payload, |DataHeader(msg, connectionId, false)| + |FragBytes(frag)|)
  }

  lemma DatagramBody(msg: DataMessage, connectionId: u64, frag: Option<FragmentationHeader>, payload: bytes)
    requires frag.Some? ==> frag.value.fragmentIndex < LAST_FRAGMENT_MASK
    ensures var d := Datagram(msg, connectionId, frag, payload);
            && d[0] == WireHeaderByte(WireMessage(msg.comp, msg.rel, frag, false, payload))
            && d[1..] == (CompBytes(msg.comp) + ConnIdBytes(connectionId)) + (RelBytes(msg.rel) + FragBytes(frag) + payload)
  {
    Reshape(HeaderByte(msg.comp, msg.rel), Datagram(msg, connectionId, frag, payload)[0],
            CompBytes(msg.comp), ConnIdBytes(connectionId), RelBytes(msg.rel), FragBytes(frag), payload);
  }

  lemma Reshape(h: byte, x: byte, c: bytes, i: bytes, r: bytes, f: bytes, p: bytes)
    ensures ([h] + c + i + r)[0] == h
    ensures ([x] + ([h] + c + i + r)[1..] + f + p)[0] == x
    ensures ([x] + ([h] + c + i + r)[1..] + f + p)[1..] == (c + i) + (r + f + p)
  {
    assert ([h] + c + i + r)[1..] == c + i + r;
  }

  lemma DropWithin(d: bytes, id: bytes, rest: bytes)
    requires d != [] && d[1..] == id + rest
    ensures d[1 + |id|..] == rest
  {
    assert d[1..][|id|..] == d[1 + |id|..];
  }

  /** The datagram decodes as message `m`, whose id and compression field occupy the same bytes. */
  lemma DecodesAs(msg: DataMessage, connectionId: u64, frag: Option<FragmentationHeader>, payload: bytes,
                  m: WireMessage, id: bytes)
    requires MessageOk(msg) && (frag.Some? ==> frag.value.fragmentIndex < LAST_FRAGMENT_MASK)
    requires m.rel == msg.rel && m.frag == frag && !m.boundary && m.data == payload
    requires if m.comp.Some? then msg.comp.Some? && m.comp.value.kind == msg.comp.value.kind else msg.comp == None
    requires |id| == if connectionId != 0 then 8 else 0
    requires id + CompBytes(m.comp) == CompBytes(msg.comp) + ConnIdBytes(connectionId)
    ensures DecodedMeta(Datagram(msg, connectionId, frag, payload), connectionId != 0)
            == Ok(SentMeta(msg, connectionId, frag, payload).(comp := m.comp))
  {
    hide DecodedMeta, DecodeData, Datagram, Announces, HeaderBytes, CompBytes, ConnIdBytes;
    var d := Datagram(msg, connectionId, frag, payload);
    var start := HeaderStart(connectionId != 0);
    DatagramBodyAs(msg, connectionId, frag, payload, m, id);
    DecodeDataUndoesLayout(d[0], m, [], start);
    DataBranch(d, connectionId != 0);
    assert payload + [] == payload;
    SentOffset(msg, connectionId, frag, payload, m);
  }

  lemma DatagramBodyAs(msg: DataMessage, connectionId: u64, frag: Option<FragmentationHeader>, payload: bytes,
                       m: WireMessage, id: bytes)
    requires MessageOk(msg) && (frag.Some? ==> frag.value.fragmentIndex < LAST_FRAGMENT_MASK)
    requires m.rel == msg.rel && m.frag == frag && !m.boundary && m.data == payload
    requires if m.comp.Some? then msg.comp.Some? && m.comp.value.kind == msg.comp.value.kind else msg.comp == None
    requires |id| == if connectionId != 0 then 8 else 0
    requires id + CompBytes(m.comp) == CompBytes(msg.comp) + ConnIdBytes(connectionId)
    ensures var d := Datagram(msg, connectionId, frag, payload);
            && |d| >= 1 + |id| && d[0] >= MSG_DATA && Announces(d[0], m)
            && d[1 + |id|..] == HeaderBytes(m) + payload + []
  {
    var d := Datagram(msg, connectionId, frag, payload);
    DatagramBody(msg, connectionId, frag, payload);
    HeaderBits(m);
    BodyShape(d, id, CompBytes(m.comp), RelBytes(m.rel), FragBytes(m.frag), BoundaryBytes(m), payload);
  }

  lemma BodyShape(d: bytes, id: bytes, c: bytes, r: bytes, f: bytes, b: bytes, p: bytes)
    requires d != [] && d[1..] == (id + c) + (r + f + p) && b == []
    ensures |d| >= 1 + |id| && d[1 + |id|..] == (c + r + f + b) + p + []
  {
    assert (id + c) + (r + f + p) == id + ((c + r + f + b) + p + []);
    DropWithin(d, id, (c + r + f + b) + p + []);
  }

  lemma SentOffset(msg: DataMessage, connectionId: u64, frag: Option<FragmentationHeader>, payload: bytes,
                   m: WireMessage)
    requires MessageOk(msg) && (frag.Some? ==> frag.value.fragmentIndex < LAST_FRAGMENT_MASK)
    requires m.rel == msg.rel && m.frag == frag && !m.boundary && m.comp.Some? == msg.comp.Some?
    ensures SentMeta(msg, connectionId, frag, payload).dataOffset == HeaderStart(connectionId != 0) + |HeaderBytes(m)|
  {
  }

  lemma PlainRoundTrip(msg: DataMessage, connectionId: u64, frag: Option<FragmentationHeader>, payload: bytes)
    requires MessageOk(msg) && (frag.Some? ==> frag.value.fragmentIndex < LAST_FRAGMENT_MASK)
    requires connectionId == 0 || msg.comp == None
    ensures DecodedMeta(Datagram(msg, connectionId, frag, payload), connectionId != 0)
            == Ok(SentMeta(msg, connectionId, frag, payload))
  {
    var m := WireMessage(msg.comp, msg.rel, frag, false, payload);
    DecodesAs(msg, connectionId, frag, payload, m, ConnIdBytes(connectionId));
  }

  /** With both a connection id and a compression header, the id's upper half is taken for the size. */
  lemma MisplacedIdDecodes(msg: DataMessage, connectionId: u64, frag: Option<FragmentationHeader>, payload: bytes)
    requires MessageOk(msg) && (frag.Some? ==> frag.value.fragmentIndex < LAST_FRAGMENT_MASK)
    requires connectionId != 0 && msg.comp.Some?
    ensures DecodedMeta(Datagram(msg, connectionId, frag, payload), true)
            == Ok(SentMeta(msg, connectionId, frag, payload).(
                    comp := Some(msg.comp.value.(uncompressedSize := connectionId / 0x1_0000_0000))))
  {
    var low, high := LE32(connectionId % 0x1_0000_0000), LE32(connectionId / 0x1_0000_0000);
    var comp := Some(msg.comp.value.(uncompressedSize := connectionId / 0x1_0000_0000));
    var m := WireMessage(comp, msg.rel, frag, false, payload);
    var size := CompBytes(msg.comp);
    assert ConnIdBytes(connectionId) == low + high;
    assert (size + low) + high == size + (low + high);
    DecodesAs(msg, connectionId, frag, payload, m, size + low);
  }

  /**
    Decoding undoes encoding exactly when there is no connection id, or no compression
    header, or the uncompressed size happens to be the upper half of the connection id.
   */
  lemma DataHeaderRoundTrip(msg: DataMessage, connectionId: u64, frag: Option<FragmentationHeader>, payload: bytes)
    requires MessageOk(msg) && (frag.Some? ==> frag.value.fragmentIndex < LAST_FRAGMENT_MASK)
    ensures DecodedMeta(Datagram(msg, connectionId, frag, payload), connectionId != 0)
            == Ok(SentMeta(msg, connectionId, frag, payload))
            <==> connectionId == 0 || msg.comp == None
                 || msg.comp.value.uncompressedSize == connectionId / 0x1_0000_0000
  {
    if connectionId == 0 || msg.comp == None {
      PlainRoundTrip(msg, connectionId, frag, payload);
    } else {
      MisplacedIdDecodes(msg, connectionId, frag, payload);
    }
  }

  /** A concrete message whose header does not survive: 300 bytes unpacked, connection id 1. */
  lemma CompressedWithIdIsMisread()
    ensures var msg := DataMessage([7], Some(CompressionHeader(Lz4, 300)), None);
            DecodedMeta(Datagram(msg, 1, None, [7]), true)
            == Ok(SentMeta(msg, 1, None, [7]).(comp := Some(CompressionHeader(Lz4, 0))))
  {
    MisplacedIdDecodes(DataMessage([7], Some(CompressionHeader(Lz4, 300)), None), 1, None, [7]);
  }

  // ---------------------------------------------------------------- offsets

  function UnreadAcks(meta: MessageMeta): nat {
    if meta.rel.Some? && meta.rel.value.ackCount > MAX_ACKS then meta.rel.value.ackCount - MAX_ACKS else 0
  }

  /**
    For any bytes that decode, the payload is a slice of them, and the claimed offset is
    where it starts plus two bytes for each announced ack beyond the eighth. So offset and
    payload delimit what was consumed exactly when at most eight acks are announced.
   */
  lemma ClaimedOffsetIsExact(data: bytes, udpConnId: bool)
    requires data != [] && DecodedMeta(data, udpConnId).Ok?
    ensures var meta := DecodedMeta(data, udpConnId).value;
            var begin := meta.dataOffset - 2 * UnreadAcks(meta);
            && 1 <= begin && begin + |meta.data| <= |data|
            && meta.data == data[begin..begin + |meta.data|]
            && (meta.dataOffset == begin <==> meta.rel.Some? ==> meta.rel.value.ackCount <= MAX_ACKS)
  {
    hide DecodedMeta, SliceAt;
    if data[0] >= MSG_DATA {
      DataSlice(data, udpConnId);
    } else {
      ControlSlice(data, udpConnId);
    }
    SliceOfWhole(DecodedMeta(data, udpConnId).value, data, HeaderStart(udpConnId));
  }

  lemma DataSlice(data: bytes, udpConnId: bool)
    requires data != [] && data[0] >= MSG_DATA && DecodedMeta(data, udpConnId).Ok?
    ensures var start := HeaderStart(udpConnId);
            start <= |data| && SliceAt(DecodedMeta(data, udpConnId).value, data[start..], start)
  {
    hide DecodeData, SliceAt, DecodeControl;
    var start := HeaderStart(udpConnId);
    DecodedSlice(data[0], data[start..], start);
  }

  ghost predicate SliceAt(meta: MessageMeta, body: bytes, start: nat) {
    var p := meta.dataOffset - 2 * UnreadAcks(meta) - start;
    0 <= p && p + |meta.data| <= |body| && meta.data == body[p..p + |meta.data|]
  }

  lemma SliceOfWhole(meta: MessageMeta, data: bytes, start: nat)
    requires start <= |data| && SliceAt(meta, data[start..], start)
    ensures var begin := meta.dataOffset - 2 * UnreadAcks(meta);
            && start <= begin && begin + |meta.data| <= |data|
            && meta.data == data[begin..begin + |meta.data|]
  {
  }

  lemma ControlSlice(data: bytes, udpConnId: bool)
    requires data != [] && data[0] < MSG_DATA && DecodedMeta(data, udpConnId).Ok?
    ensures var start := HeaderStart(udpConnId);
            start <= |data| && SliceAt(DecodedMeta(data, udpConnId).value, data[start..], start)
  {
  }

  function ParsedRelSize(rel: Option<ReliabilityHeader>): nat {
    if rel.Some? then 4 + 2 * HeldAcks(rel.value.ackCount) else 0
  }

  /** How far each part of the header moves the position. */
  lemma ParseSteps(header: byte, body: bytes, p: nat)
    ensures var c := ParseComp(header, body);
            c.Some? ==> c.value.1 == (if c.value.0.Some? then 4 else 0) && c.value.1 <= |body|
    ensures var r := ParseRel(header, body, p);
            r.Some? && p <= |body| ==>
              r.value.1 <= |body| && r.value.1 == p + ParsedRelSize(r.value.0)
    ensures var f := ParseFrag(header, body, p);
            f.Some? && p <= |body| ==> f.value.1 == p + (if f.value.0.Some? then 4 else 0) && f.value.1 <= |body|
    ensures var b := ParseBoundary(header, body, p);
            b.Some? && p <= |body| ==> b.value.1 == p + (if b.value.0.Some? then 2 else 0) && b.value.1 <= |body|
  {
  }

  lemma FinishedSlice(body: bytes, p: nat, start: nat, comp: Option<CompressionHeader>, rel: Option<ReliabilityHeader>,
                      frag: Option<FragmentationHeader>, boundary: Option<u16>)
    requires p <= |body| && Finished(body, p, start, comp, rel, frag, boundary).Ok?
    ensures var meta := Finished(body, p, start, comp, rel, frag, boundary).value;
            p + |meta.data| <= |body| && meta.data == body[p..p + |meta.data|] && meta.rel == rel
            && meta.dataOffset == ClaimedOffset(start, comp, rel, frag, boundary)
  {
  }

  lemma DecodedSlice(header: byte, body: bytes, start: nat)
    requires DecodeData(header, body, start).Ok?
    ensures SliceAt(DecodeData(header, body, start).value, body, start)
  {
    hide ParseComp, ParseRel, ParseFrag, ParseBoundary, Finished;
    var (comp, p1) := ParseComp(header, body).value;
    var (rel, p2) := ParseRel(header, body, p1).value;
    var (frag, p3) := ParseFrag(header, body, p2).value;
    var (boundary, p4) := ParseBoundary(header, body, p3).value;
    ParseSteps(header, body, p1);
    ParseSteps(header, body, p2);
    ParseSteps(header, body, p3);
    FinishedSlice(body, p4, start, comp, rel, frag, boundary);
  }

  // ---------------------------------------------------------------- announced acks

  /** The ack count that stands in the bytes of a datagram; zero where the header has no room for one. */
  function AnnouncedAcks(data: bytes, udpConnId: bool): nat
    requires data != []
  {
    var at := HeaderStart(udpConnId) + (if KindOf(data[0] % 4).Some? then 4 else 0) + 2;
    if data[0] >= MSG_DATA && HasBit(data[0], RELIABILITY_BIT) && at + 2 <= |data| then At16(data, at) else 0
  }

  lemma DecodedRel(data: bytes, udpConnId: bool)
    requires data != [] && data[0] >= MSG_DATA && DecodedMeta(data, udpConnId).Ok?
    ensures var start := HeaderStart(udpConnId);
            && start <= |data|
            && var comp, rel := ParseComp(data[0], data[start..]), DecodedMeta(data, udpConnId).value.rel;
            && comp.Some? && ParseRel(data[0], data[start..], comp.value.1).Some?
            && rel == ParseRel(data[0], data[start..], comp.value.1).value.0
  {
    hide ParseComp, ParseRel, ParseFrag, ParseBoundary;
  }

  /**
    What the decoder makes of the announced count, for any bytes that decode: it keeps the
    count as it is, and of the acks themselves no more than eight.
   */
  lemma DecodedAcks(data: bytes, udpConnId: bool)
    requires data != [] && DecodedMeta(data, udpConnId).Ok?
    ensures var rel := DecodedMeta(data, udpConnId).value.rel;
            && (rel.Some? <==> data[0] >= MSG_DATA && HasBit(data[0], RELIABILITY_BIT))
            && (rel.Some? ==>
                  rel.value.ackCount == AnnouncedAcks(data, udpConnId) && |rel.value.acks| == HeldAcks(rel.value.ackCount))
  {
    hide ParseFrag, ParseBoundary, HasBit, KindOf, DecodedMeta;
    if data[0] >= MSG_DATA {
      DecodedRel(data, udpConnId);
    } else {
      ControlHasNoRel(data, udpConnId);
    }
  }

  lemma ControlHasNoRel(data: bytes, udpConnId: bool)
    requires data != [] && data[0] < MSG_DATA && DecodedMeta(data, udpConnId).Ok?
    ensures DecodedMeta(data, udpConnId).value.rel == None
  {
    hide ControlLength;
  }
}
