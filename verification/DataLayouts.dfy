/**
  The layout of data messages, part by part, and that the decoder accepts exactly the bytes
  laid out so. A header may announce more acks than it can hold; eight are held.
 */
module DataLayouts {
  import opened Wrappers
  import opened Bytes
  import opened MessageTypes
  import opened ControlMessages
  import opened MessageCodec

  // ---------------------------------------------------------------- one part at a time

  /** The parts that may stand between the header byte and the payload. */
  datatype Parts = Parts(
    comp: Option<CompressionHeader>,
    rel: Option<ReliabilityHeader>,
    frag: Option<FragmentationHeader>,
    boundary: Option<u16>)

  predicate PartsOk(x: Parts) {
    && (x.rel.Some? ==> |x.rel.value.acks| == HeldAcks(x.rel.value.ackCount))
    && (x.frag.Some? ==> x.frag.value.fragmentIndex < LAST_FRAGMENT_MASK)
  }

  /** Which parts the header byte announces: compression kind, and a bit for each of the others. */
  predicate AnnouncesParts(h: byte, x: Parts) {
    && h % 4 == (if x.comp == None then 0 else match x.comp.value.kind case Zstd => 1 case ZstdNoDict => 2 case Lz4 => 3)
    && (h / 0x10 % 2 == 1 <==> x.rel.Some?) && (h / 0x20 % 2 == 1 <==> x.frag.Some?)
    && (h / 8 % 2 == 1 <==> x.boundary.Some?)
  }

  function LimitBytes(boundary: Option<u16>): bytes {
    if boundary.Some? then LE16(boundary.value) else []
  }

  function PartsSize(x: Parts): nat
    requires PartsOk(x)
  {
    |CompBytes(x.comp)| + |RelBytes(x.rel)| + |FragBytes(x.frag)| + |LimitBytes(x.boundary)|
  }

  /** The parts stand one behind the other from the beginning of the body. */
  predicate PartsAt(body: bytes, x: Parts)
    requires PartsOk(x)
  {
    var c, r, f := |CompBytes(x.comp)|, |RelBytes(x.rel)|, |FragBytes(x.frag)|;
    && HoldsAt(body, 0, CompBytes(x.comp)) && HoldsAt(body, c, RelBytes(x.rel))
    && HoldsAt(body, c + r, FragBytes(x.frag)) && HoldsAt(body, c + r + f, LimitBytes(x.boundary))
  }

  lemma {:induction false} AcksAreHeld(body: bytes, p: nat, n: nat)
    requires p + 2 * n <= |body|
    ensures HoldsAt(body, p, AckBytes(ParseAcks(body, p, n)))
    decreases n
  {
    if n > 0 {
      AcksAreHeld(body, p + 2, n - 1);
      Holds16(body, p);
      var acks := ParseAcks(body, p, n);
      assert acks[1..] == ParseAcks(body, p + 2, n - 1);
      HoldsBoth(body, p, LE16(acks[0]), AckBytes(acks[1..]));
    } else {
      assert body[p..p] == [];
    }
  }

  lemma CompPart(h: byte, body: bytes, comp: Option<CompressionHeader>)
    requires h % 4 == (if comp == None then 0 else match comp.value.kind case Zstd => 1 case ZstdNoDict => 2 case Lz4 => 3)
    ensures ParseComp(h, body) == Some((comp, |CompBytes(comp)|)) <==> HoldsAt(body, 0, CompBytes(comp))
  {
    if comp.Some? && |body| >= 4 {
      Holds32(body, 0);
      hide At32, LE32;
      if HoldsAt(body, 0, LE32(comp.value.uncompressedSize)) {
        At32Holds(body, 0, comp.value.uncompressedSize);
      }
    } else if comp == None {
      assert body[0..0] == [];
    }
  }

  lemma RelPart(h: byte, body: bytes, p: nat, rel: Option<ReliabilityHeader>)
    requires p <= |body| && (rel.Some? ==> |rel.value.acks| == HeldAcks(rel.value.ackCount))
    requires h / 0x10 % 2 == 1 <==> rel.Some?
    ensures ParseRel(h, body, p) == Some((rel, p + |RelBytes(rel)|)) <==> HoldsAt(body, p, RelBytes(rel))
  {
    if rel == None {
      assert body[p..p] == [];
    } else {
      if HoldsAt(body, p, RelBytes(rel)) {
        RelIsRead(body, p, rel.value);
      }
      if ParseRel(h, body, p) == Some((rel, p + |RelBytes(rel)|)) {
        RelIsHeld(body, p, rel.value);
      }
    }
  }

  lemma RelIsRead(body: bytes, p: nat, rel: ReliabilityHeader)
    requires |rel.acks| == HeldAcks(rel.ackCount) && HoldsAt(body, p, RelBytes(Some(rel)))
    ensures p + 4 + 2 * |rel.acks| <= |body| && At16(body, p) == rel.messageId && At16(body, p + 2) == rel.ackCount
    ensures ParseAcks(body, p + 4, |rel.acks|) == rel.acks
  {
    hide At16, LE16;
    HoldsSplit(body, p, LE16(rel.messageId) + LE16(rel.ackCount), AckBytes(rel.acks));
    HoldsSplit(body, p, LE16(rel.messageId), LE16(rel.ackCount));
    At16Holds(body, p, rel.messageId);
    At16Holds(body, p + 2, rel.ackCount);
    ParsedAcks(body, p + 4, rel.acks);
  }

  lemma RelIsHeld(body: bytes, p: nat, rel: ReliabilityHeader)
    requires p + 4 + 2 * |rel.acks| <= |body| && At16(body, p) == rel.messageId && At16(body, p + 2) == rel.ackCount
    requires ParseAcks(body, p + 4, |rel.acks|) == rel.acks
    ensures HoldsAt(body, p, RelBytes(Some(rel)))
  {
    hide At16, LE16, HoldsAt, AckBytes;
    Holds16(body, p);
    Holds16(body, p + 2);
    AcksAreHeld(body, p + 4, |rel.acks|);
    HoldsBoth(body, p, LE16(rel.messageId), LE16(rel.ackCount));
    HoldsBoth(body, p, LE16(rel.messageId) + LE16(rel.ackCount), AckBytes(rel.acks));
  }

  lemma IndexIs(index: u16, fragmentIndex: u16, last: bool)
    requires fragmentIndex < LAST_FRAGMENT_MASK
    ensures index == fragmentIndex + (if last then LAST_FRAGMENT_MASK else 0)
            <==> index % LAST_FRAGMENT_MASK == fragmentIndex && (index >= LAST_FRAGMENT_MASK <==> last)
  {
  }

  lemma TwoHeld(body: bytes, p: nat, a: u16, b: u16)
    requires p + 4 <= |body|
    ensures HoldsAt(body, p, LE16(a) + LE16(b)) <==> At16(body, p) == a && At16(body, p + 2) == b
  {
    hide At16, LE16, HoldsAt;
    if HoldsAt(body, p, LE16(a) + LE16(b)) {
      HoldsSplit(body, p, LE16(a), LE16(b));
      At16Holds(body, p, a);
      At16Holds(body, p + 2, b);
    }
    Holds16(body, p);
    Holds16(body, p + 2);
    HoldsBoth(body, p, LE16(At16(body, p)), LE16(At16(body, p + 2)));
  }

  lemma FragPart(h: byte, body: bytes, p: nat, frag: Option<FragmentationHeader>)
    requires p <= |body| && (frag.Some? ==> frag.value.fragmentIndex < LAST_FRAGMENT_MASK)
    requires h / 0x20 % 2 == 1 <==> frag.Some?
    ensures ParseFrag(h, body, p) == Some((frag, p + |FragBytes(frag)|)) <==> HoldsAt(body, p, FragBytes(frag))
  {
    if frag == None {
      assert body[p..p] == [];
    } else if p + 4 <= |body| {
      hide At16, LE16, HoldsAt;
      var x := frag.value;
      IndexIs(At16(body, p + 2), x.fragmentIndex, x.lastFragment);
      TwoHeld(body, p, x.messageId, x.fragmentIndex + if x.lastFragment then LAST_FRAGMENT_MASK else 0);
    }
  }

  lemma BoundaryPart(h: byte, body: bytes, p: nat, boundary: Option<u16>)
    requires p <= |body| && (h / 8 % 2 == 1 <==> boundary.Some?)
    ensures ParseBoundary(h, body, p) == Some((boundary, p + |LimitBytes(boundary)|))
            <==> HoldsAt(body, p, LimitBytes(boundary))
  {
    if boundary == None {
      assert body[p..p] == [];
    } else if p + 2 <= |body| {
      Holds16(body, p);
      if HoldsAt(body, p, LE16(boundary.value)) {
        At16Holds(body, p, boundary.value);
      }
    }
  }

  // ---------------------------------------------------------------- whole messages

  /** The payload stands behind the parts: to the end, or as long as the boundary says, if there is so much. */
  predicate IsDataLayout(h: byte, body: bytes, x: Parts, data: bytes) {
    && PartsOk(x) && AnnouncesParts(h, x) && PartsAt(body, x) && PartsSize(x) <= |body|
    && var rest := body[PartsSize(x)..];
    if x.boundary == None then data == rest else x.boundary.value <= |rest| && data == rest[..x.boundary.value]
  }

  /** The parts that the decoder finds. */
  ghost predicate Finds(h: byte, body: bytes, x: Parts)
    requires PartsOk(x)
  {
    var c, r, f := |CompBytes(x.comp)|, |RelBytes(x.rel)|, |FragBytes(x.frag)|;
    && ParseComp(h, body) == Some((x.comp, c)) && ParseRel(h, body, c) == Some((x.rel, c + r))
    && ParseFrag(h, body, c + r) == Some((x.frag, c + r + f))
    && ParseBoundary(h, body, c + r + f) == Some((x.boundary, PartsSize(x)))
  }

  lemma FindsIffThere(h: byte, body: bytes, x: Parts)
    requires PartsOk(x) && AnnouncesParts(h, x)
    ensures Finds(h, body, x) && PartsSize(x) <= |body| <==> PartsAt(body, x)
  {
    hide ParseComp, ParseRel, ParseFrag, ParseBoundary, CompBytes, RelBytes, FragBytes, LimitBytes, HoldsAt;
    var c, r, f := |CompBytes(x.comp)|, |RelBytes(x.rel)|, |FragBytes(x.frag)|;
    HeldFits(body, 0, CompBytes(x.comp));
    CompPart(h, body, x.comp);
    if c <= |body| {
      HeldFits(body, c, RelBytes(x.rel));
      RelPart(h, body, c, x.rel);
      if c + r <= |body| {
        HeldFits(body, c + r, FragBytes(x.frag));
        FragPart(h, body, c + r, x.frag);
        if c + r + f <= |body| {
          HeldFits(body, c + r + f, LimitBytes(x.boundary));
          BoundaryPart(h, body, c + r + f, x.boundary);
        }
      }
    }
    NotHeldBeyond(body, c, RelBytes(x.rel));
    NotHeldBeyond(body, c + r, FragBytes(x.frag));
    NotHeldBeyond(body, c + r + f, LimitBytes(x.boundary));
  }

  lemma HeldFits(body: bytes, p: nat, part: bytes)
    ensures HoldsAt(body, p, part) ==> p + |part| <= |body|
  {
  }

  lemma NotHeldBeyond(body: bytes, p: nat, part: bytes)
    ensures HoldsAt(body, p, part) ==> p <= |body|
  {
  }

  lemma CompFound(h: byte, body: bytes, comp: Option<CompressionHeader>, p: nat)
    requires ParseComp(h, body) == Some((comp, p))
    ensures p == |CompBytes(comp)| <= |body|
    ensures h % 4 == if comp == None then 0 else match comp.value.kind case Zstd => 1 case ZstdNoDict => 2 case Lz4 => 3
  {
    hide At32, LE32;
  }

  lemma RelFound(h: byte, body: bytes, p: nat, rel: Option<ReliabilityHeader>, q: nat)
    requires p <= |body| && ParseRel(h, body, p) == Some((rel, q))
    ensures (rel.Some? ==> |rel.value.acks| == HeldAcks(rel.value.ackCount)) && q == p + |RelBytes(rel)| <= |body|
    ensures h / 0x10 % 2 == 1 <==> rel.Some?
  {
    hide At16, LE16;
  }

  lemma FragFound(h: byte, body: bytes, p: nat, frag: Option<FragmentationHeader>, q: nat)
    requires p <= |body| && ParseFrag(h, body, p) == Some((frag, q))
    ensures (frag.Some? ==> frag.value.fragmentIndex < LAST_FRAGMENT_MASK) && q == p + |FragBytes(frag)| <= |body|
    ensures h / 0x20 % 2 == 1 <==> frag.Some?
  {
    hide At16, LE16;
  }

  lemma BoundaryFound(h: byte, body: bytes, p: nat, boundary: Option<u16>, q: nat)
    requires p <= |body| && ParseBoundary(h, body, p) == Some((boundary, q))
    ensures q == p + |LimitBytes(boundary)| <= |body| && (h / 8 % 2 == 1 <==> boundary.Some?)
  {
    hide At16, LE16;
  }

  /** Whatever the decoder finds has these sizes, and the header byte announces it. */
  lemma FoundParts(h: byte, body: bytes, comp: Option<CompressionHeader>, p1: nat, rel: Option<ReliabilityHeader>,
                   p2: nat, frag: Option<FragmentationHeader>, p3: nat, boundary: Option<u16>, p4: nat)
    requires ParseComp(h, body) == Some((comp, p1)) && ParseRel(h, body, p1) == Some((rel, p2))
    requires ParseFrag(h, body, p2) == Some((frag, p3)) && ParseBoundary(h, body, p3) == Some((boundary, p4))
    ensures var x := Parts(comp, rel, frag, boundary);
            PartsOk(x) && AnnouncesParts(h, x) && Finds(h, body, x) && p4 <= |body|
    ensures PartsSize(Parts(comp, rel, frag, boundary)) == p4
  {
    hide ParseComp, ParseRel, ParseFrag, ParseBoundary, CompBytes, RelBytes, FragBytes, LimitBytes;
    CompFound(h, body, comp, p1);
    RelFound(h, body, p1, rel, p2);
    FragFound(h, body, p2, frag, p3);
    BoundaryFound(h, body, p3, boundary, p4);
  }

  /**
    The decoder of data messages, for every header byte and all bytes behind it: it succeeds
    exactly if the parts that the header byte announces stand there, and enough payload if
    there is a boundary; then it yields those parts and that payload. Otherwise the data is
    invalid.
   */
  lemma DecodedIsWhatIsLaidOut(h: byte, body: bytes, start: nat)
    ensures var r := DecodeData(h, body, start);
            && (r.Ok? ==>
                  && r.value.typ == MSG_DATA
                  && exists boundary :: IsDataLayout(h, body, Parts(r.value.comp, r.value.rel, r.value.frag, boundary),
                                                     r.value.data))
            && (r.Err? ==> r == Err(InvalidData) && forall x, data :: !IsDataLayout(h, body, x, data))
  {
    hide ParseComp, ParseRel, ParseFrag, ParseBoundary, PartsAt, PartsSize, AnnouncesParts, PartsOk;
    var r := DecodeData(h, body, start);
    if r.Ok? {
      var (comp, p1) := ParseComp(h, body).value;
      var (rel, p2) := ParseRel(h, body, p1).value;
      var (frag, p3) := ParseFrag(h, body, p2).value;
      var (boundary, p4) := ParseBoundary(h, body, p3).value;
      var x := Parts(comp, rel, frag, boundary);
      FoundParts(h, body, comp, p1, rel, p2, frag, p3, boundary, p4);
      FindsIffThere(h, body, x);
      assert IsDataLayout(h, body, x, r.value.data);
    }
    if exists x, data :: IsDataLayout(h, body, x, data) {
      var x, data :| IsDataLayout(h, body, x, data);
      FindsIffThere(h, body, x);
      assert r.Ok?;
    }
  }

  // ---------------------------------------------------------------- where the sender writes what

  /** The first bytes of a datagram: the header byte, then what it announces, at these places. */
  lemma HeaderPlaces(msg: DataMessage, connectionId: u64)
    requires MessageOk(msg)
    ensures var h := DataHeader(msg, connectionId, false);
            var c, i := if msg.comp.Some? then 4 else 0, if connectionId != 0 then 8 else 0;
            && h[0] >= 0x80 && AnnouncesParts(h[0], Parts(msg.comp, msg.rel, None, None))
            && (msg.comp.Some? ==> HoldsAt(h, 1, LE32(msg.comp.value.uncompressedSize)))
            && (connectionId != 0 ==> HoldsAt(h, 1 + c, LE64(connectionId)))
            && (msg.rel.Some? ==>
                  && HoldsAt(h, 1 + c + i, LE16(msg.rel.value.messageId) + LE16(msg.rel.value.ackCount)
                                           + AckBytes(msg.rel.value.acks))
                  && |h| == 1 + c + i + 4 + 2 * msg.rel.value.ackCount as int)
            && (msg.rel == None ==> |h| == 1 + c + i)
    ensures var h := DataHeader(msg, connectionId, true);
            h[0] == 0x80 && if connectionId != 0 then |h| == 9 && HoldsAt(h, 1, LE64(connectionId)) else |h| == 1
  {
    hide LE16, LE32, LE64, AckBytes;
  }

  lemma {:induction false} AckPlaces(acks: seq<u16>, i: nat)
    requires i < |acks|
    ensures HoldsAt(AckBytes(acks), 2 * i, LE16(acks[i]))
    decreases i
  {
    hide LE16;
    if i > 0 {
      AckPlaces(acks[1..], i - 1);
      assert AckBytes(acks)[2 * i..2 * i + 2] == AckBytes(acks[1..])[2 * (i - 1)..2 * (i - 1) + 2];
    }
  }
}
