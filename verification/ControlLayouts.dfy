/**
  The layout of control messages, field by field, and that the decoder accepts exactly the
  bodies laid out so, and reads from them exactly those fields.
 */
module ControlLayouts {
  import opened Wrappers
  import opened Bytes
  import opened MessageTypes
  import opened ControlMessages

  /** What carries each message on the wire. */
  function TypeOf(m: ControlMessage): byte {
    match m
    case Keepalive(_) => 3
    case KeepaliveResponse(_, _) => 4
    case HandshakeFinish(_, _) => 6
    case HandshakeFailed(_, _) => 7
    case ServerClose(_, _) => 9
    case ConnectionError(_) => 11
    case ReconnectSuccess => 14
    case ReconnectFailure => 15
    case SetMtu(_) => 16
    case PmtudProbe(_) => 16
    case Padding => 127
  }

  // ---------------------------------------------------------------- fields at their places

  predicate CountedAt(b: bytes, p: nat, text: bytes) {
    && |text| < 0x1_0000 && |b| == p + 2 + |text|
    && HoldsAt(b, p, LE16(|text|)) && HoldsAt(b, p + 2, text)
  }

  /** The part behind the flag byte: four fields and the chunk. */
  predicate QdbAt(b: bytes, q: QdbData) {
    && |q.chunkData| == q.chunkSize && |b| == 25 + q.chunkSize as int
    && HoldsAt(b, 9, LE32(q.uncompressedSize)) && HoldsAt(b, 13, LE32(q.compressedSize))
    && HoldsAt(b, 17, LE32(q.chunkOffset)) && HoldsAt(b, 21, LE32(q.chunkSize)) && HoldsAt(b, 25, q.chunkData)
  }

  /** Only code zero comes with a text. */
  predicate CodeAndTextAt(b: bytes, code: u32, text: bytes) {
    HoldsAt(b, 0, LE32(code)) && if code == 0 then CountedAt(b, 4, text) else text == [] && |b| == 4
  }

  /**
    The body `b` is that of message `m`. The keepalive's flags may be anything, and so may the
    upper byte of a connection control code.
   */
  predicate IsLaidOut(m: ControlMessage, b: bytes) {
    match m
    case Keepalive(timestamp) => |b| == 9 && HoldsAt(b, 0, LE64(timestamp))
    case KeepaliveResponse(timestamp, data) => HoldsAt(b, 0, LE64(timestamp)) && CountedAt(b, 8, data)
    case HandshakeFinish(id, None) => |b| == 9 && HoldsAt(b, 0, LE64(id)) && b[8] == 0
    case HandshakeFinish(id, Some(qdb)) => |b| >= 9 && HoldsAt(b, 0, LE64(id)) && b[8] != 0 && QdbAt(b, qdb)
    case HandshakeFailed(code, text) => CodeAndTextAt(b, code, text)
    case ServerClose(code, text) => CodeAndTextAt(b, code, text)
    case ConnectionError(code) => |b| == 4 && HoldsAt(b, 0, LE32(code))
    case ReconnectSuccess => b == []
    case ReconnectFailure => b == []
    case SetMtu(mtu) => |b| == 4 && b[0] == 1 && HoldsAt(b, 2, LE16(mtu))
    case PmtudProbe(data) => |b| >= 2 && b[0] == 0x40 && CountedAt(b, 2, data)
    case Padding => false
  }

  lemma PrefixHolds(s: bytes, n: nat, p: nat, part: bytes)
    requires n <= |s| && p + |part| <= n
    ensures HoldsAt(s[..n], p, part) <==> HoldsAt(s, p, part)
  {
    assert s[..n][p..p + |part|] == s[p..p + |part|];
  }

  lemma ReadIffHeld16(s: bytes, p: nat, x: u16)
    requires p + 2 <= |s|
    ensures HoldsAt(s, p, LE16(x)) <==> At16(s, p) == x
  {
    Holds16(s, p);
    if HoldsAt(s, p, LE16(x)) {
      At16Holds(s, p, x);
    }
  }

  lemma ReadIffHeld32(s: bytes, p: nat, x: u32)
    requires p + 4 <= |s|
    ensures HoldsAt(s, p, LE32(x)) <==> At32(s, p) == x
  {
    Holds32(s, p);
    if HoldsAt(s, p, LE32(x)) {
      At32Holds(s, p, x);
    }
  }

  lemma ReadIffHeld64(s: bytes, p: nat, x: u64)
    requires p + 8 <= |s|
    ensures HoldsAt(s, p, LE64(x)) <==> At64(s, p) == x
  {
    Holds64(s, p);
    if HoldsAt(s, p, LE64(x)) {
      At64Holds(s, p, x);
    }
  }

  /** A counted field ends where it says, and holds what stands there. */
  lemma CountedIffEnds(s: bytes, n: nat, p: nat, text: bytes)
    requires n <= |s|
    ensures CountedAt(s[..n], p, text) <==> EndOfString(s, p) == Some(n) && s[p + 2..n] == text
  {
    if p + 2 <= n {
      PrefixHolds(s, n, p, LE16(At16(s, p)));
      ReadIffHeld16(s[..n], p, At16(s, p));
      if |text| < 0x1_0000 {
        ReadIffHeld16(s[..n], p, |text|);
      }
      assert s[..n][p + 2..n] == s[p + 2..n];
    }
  }

  lemma QdbIffRead(s: bytes, n: nat, q: QdbData)
    requires n <= |s|
    ensures QdbAt(s[..n], q)
            <==> && Fits(s, 9, 16) && Fits(s, 25, At32(s, 21)) && n == 25 + At32(s, 21) as int
                 && q == QdbData(At32(s, 9), At32(s, 13), At32(s, 17), At32(s, 21), s[25..n])
  {
    var b := s[..n];
    hide HoldsAt, At32;
    if n >= 25 {
      QdbFields(s, n, q);
      PrefixHolds(s, n, 25, s[25..n]);
      assert HoldsAt(s, 25, s[25..n]) by { HoldsSlice(s, 25, n); }
      if HoldsAt(b, 25, q.chunkData) && |q.chunkData| == n - 25 {
        HeldIsSlice(b, 25, q.chunkData);
        assert b[25..n] == s[25..n];
      }
    }
  }

  lemma HoldsSlice(s: bytes, p: nat, n: nat)
    requires p <= n <= |s|
    ensures HoldsAt(s, p, s[p..n])
  {
  }

  lemma HeldIsSlice(b: bytes, p: nat, part: bytes)
    requires HoldsAt(b, p, part)
    ensures p + |part| <= |b| && b[p..p + |part|] == part
  {
  }

  lemma QdbFields(s: bytes, n: nat, q: QdbData)
    requires 25 <= n <= |s|
    ensures HoldsAt(s[..n], 9, LE32(q.uncompressedSize)) <==> At32(s, 9) == q.uncompressedSize
    ensures HoldsAt(s[..n], 13, LE32(q.compressedSize)) <==> At32(s, 13) == q.compressedSize
    ensures HoldsAt(s[..n], 17, LE32(q.chunkOffset)) <==> At32(s, 17) == q.chunkOffset
    ensures HoldsAt(s[..n], 21, LE32(q.chunkSize)) <==> At32(s, 21) == q.chunkSize
  {
    hide HoldsAt, At32, LE32;
    PrefixHolds(s, n, 9, LE32(q.uncompressedSize));
    PrefixHolds(s, n, 13, LE32(q.compressedSize));
    PrefixHolds(s, n, 17, LE32(q.chunkOffset));
    PrefixHolds(s, n, 21, LE32(q.chunkSize));
    ReadIffHeld32(s, 9, q.uncompressedSize);
    ReadIffHeld32(s, 13, q.compressedSize);
    ReadIffHeld32(s, 17, q.chunkOffset);
    ReadIffHeld32(s, 21, q.chunkSize);
  }

  lemma Field64(s: bytes, n: nat, x: u64)
    requires n <= |s|
    ensures HoldsAt(s[..n], 0, LE64(x)) <==> n >= 8 && At64(s, 0) == x
  {
    if n >= 8 {
      PrefixHolds(s, n, 0, LE64(x));
      ReadIffHeld64(s, 0, x);
    }
  }

  lemma Field32(s: bytes, n: nat, x: u32)
    requires n <= |s|
    ensures HoldsAt(s[..n], 0, LE32(x)) <==> n >= 4 && At32(s, 0) == x
  {
    if n >= 4 {
      PrefixHolds(s, n, 0, LE32(x));
      ReadIffHeld32(s, 0, x);
    }
  }

  lemma Field16(s: bytes, n: nat, x: u16)
    requires n <= |s|
    ensures HoldsAt(s[..n], 2, LE16(x)) <==> n >= 4 && At16(s, 2) == x
  {
    if n >= 4 {
      PrefixHolds(s, n, 2, LE16(x));
      ReadIffHeld16(s, 2, x);
    }
  }

  lemma TextIffRead(s: bytes, n: nat, code: u32, text: bytes)
    requires n <= |s|
    ensures CodeAndTextAt(s[..n], code, text)
            <==> DecodedText(s).Some? && At32(s, 0) == code && DecodedText(s).value.0 == text && DecodedText(s).value.1 == n
    ensures DecodedText(s).Some? ==> Fits(s, 0, 4)
  {
    hide CountedAt, EndOfString, At32, LE32, HoldsAt;
    Field32(s, n, code);
    CountedIffEnds(s, n, 4, text);
    assert EndOfString(s, 4).Some? ==> EndOfString(s, 4).value <= |s| && EndOfString(s, 4).value >= 6;
  }

  /** A message's body is laid out in the first `n` bytes exactly if the decoder reads that message and that many bytes. */
  lemma DecodesIffLaidOut(s: bytes, m: ControlMessage, n: nat)
    requires n <= |s| && !m.Padding?
    ensures Decoded(TypeOf(m), s) == Ok((m, n)) <==> IsLaidOut(m, s[..n])
  {
    hide CountedAt, EndOfString, At32, At64, At16, LE32, LE64, LE16, HoldsAt, QdbAt, CodeAndTextAt, DecodedText;
    match m
    case Keepalive(timestamp) => Field64(s, n, timestamp);
    case KeepaliveResponse(timestamp, data) =>
      Field64(s, n, timestamp);
      CountedIffEnds(s, n, 8, data);
      CountedEnds(s, n, 8, data);
    case HandshakeFinish(id, qdb) =>
      Field64(s, n, id);
      if qdb.Some? {
        QdbIffRead(s, n, qdb.value);
      }
    case HandshakeFailed(code, text) => TextIffRead(s, n, code, text);
    case ServerClose(code, text) => TextIffRead(s, n, code, text);
    case ConnectionError(code) => Field32(s, n, code);
    case ReconnectSuccess =>
    case ReconnectFailure =>
    case SetMtu(mtu) => Field16(s, n, mtu);
    case PmtudProbe(data) =>
      CountedIffEnds(s, n, 2, data);
      CountedEnds(s, n, 2, data);
  }

  lemma CountedEnds(s: bytes, n: nat, p: nat, text: bytes)
    requires n <= |s|
    ensures CountedAt(s[..n], p, text) ==> p + 2 <= n
    ensures EndOfString(s, p).Some? ==> p + 2 <= EndOfString(s, p).value <= |s|
  {
  }

  /**
    The client's decoder, for every type and all bytes: it succeeds exactly if the type is one
    the client knows and the bytes begin with the layout of a message of that type, and then
    yields that message and the length of the layout; otherwise the data or the type is invalid.
   */
  lemma DecodedIsWhatIsLaidOut(typ: byte, s: bytes)
    requires typ != MSG_PADDING
    ensures var r := Decoded(typ, s);
            && (r.Ok? ==> var (m, n) := r.value; TypeOf(m) == typ && n <= |s| && IsLaidOut(m, s[..n]))
            && (r.Err? ==>
                  && r == Err(if IsDecodable(typ) then InvalidData else InvalidMessageType)
                  && forall m, n: nat :: TypeOf(m) == typ && n <= |s| ==> !IsLaidOut(m, s[..n]))
  {
    hide CountedAt, At32, At64, At16, LE32, LE64, LE16, HoldsAt, QdbAt, CodeAndTextAt, IsLaidOut;
    var r := Decoded(typ, s);
    if r.Ok? {
      assert TypeOf(r.value.0) == typ && r.value.1 <= |s|;
      DecodesIffLaidOut(s, r.value.0, r.value.1);
    } else {
      forall m, n: nat | TypeOf(m) == typ && n <= |s|
        ensures !IsLaidOut(m, s[..n])
      {
        DecodesIffLaidOut(s, m, n);
      }
    }
  }

  // ---------------------------------------------------------------- the bytes of each message

  function Counted(text: bytes): bytes
    requires |text| < 0x1_0000
  {
    LE16(|text|) + text
  }

  predicate HasLayout(m: ControlMessage) {
    match m
    case KeepaliveResponse(_, data) => |data| < 0x1_0000
    case HandshakeFinish(_, Some(qdb)) => |qdb.chunkData| == qdb.chunkSize
    case HandshakeFailed(code, text) => if code == 0 then |text| < 0x1_0000 else text == []
    case ServerClose(code, text) => if code == 0 then |text| < 0x1_0000 else text == []
    case PmtudProbe(data) => |data| < 0x1_0000
    case Padding => false
    case _ => true
  }

  /** The body as the other side writes it; the connection control code takes two bytes. */
  function Laid(m: ControlMessage): bytes
    requires HasLayout(m)
  {
    match m
    case Keepalive(timestamp) => LE64(timestamp) + [0]
    case KeepaliveResponse(timestamp, data) => LE64(timestamp) + Counted(data)
    case HandshakeFinish(id, None) => LE64(id) + [0]
    case HandshakeFinish(id, Some(q)) =>
      LE64(id) + [1] + LE32(q.uncompressedSize) + LE32(q.compressedSize) + LE32(q.chunkOffset) + LE32(q.chunkSize)
      + q.chunkData
    case HandshakeFailed(code, text) => LE32(code) + if code == 0 then Counted(text) else []
    case ServerClose(code, text) => LE32(code) + if code == 0 then Counted(text) else []
    case ConnectionError(code) => LE32(code)
    case ReconnectSuccess => []
    case ReconnectFailure => []
    case SetMtu(mtu) => LE16(1) + LE16(mtu)
    case PmtudProbe(data) => LE16(0x40) + Counted(data)
  }

  lemma Places(a: bytes, b: bytes, c: bytes)
    ensures HoldsAt(a + b + c, 0, a) && HoldsAt(a + b + c, |a|, b) && HoldsAt(a + b + c, |a| + |b|, c)
  {
  }

  lemma TwoPlaces(a: bytes, b: bytes)
    ensures HoldsAt(a + b, 0, a) && HoldsAt(a + b, |a|, b) && (a == [] ==> a + b == b) && (b == [] ==> a + b == a)
  {
  }

  lemma CountedIsPlaced(a: bytes, text: bytes)
    requires |text| < 0x1_0000
    ensures HoldsAt(a + Counted(text), 0, a) && CountedAt(a + Counted(text), |a|, text)
  {
    assert a + Counted(text) == a + LE16(|text|) + text;
    Places(a, LE16(|text|), text);
  }

  lemma FinishIsPlaced(id: u64, q: QdbData)
    requires |q.chunkData| == q.chunkSize
    ensures var b := Laid(HandshakeFinish(id, Some(q)));
            |b| >= 9 && HoldsAt(b, 0, LE64(id)) && b[8] == 1 && QdbAt(b, q)
  {
    hide LE64, LE32;
    var b := Laid(HandshakeFinish(id, Some(q)));
  }

  lemma LaidIsLaidOut(m: ControlMessage)
    requires HasLayout(m)
    ensures IsLaidOut(m, Laid(m))
  {
    hide LE64, LE32, CountedAt, Counted, QdbAt, HoldsAt;
    match m
    case Keepalive(timestamp) => TwoPlaces(LE64(timestamp), [0]);
    case KeepaliveResponse(timestamp, data) => CountedIsPlaced(LE64(timestamp), data);
    case HandshakeFinish(id, None) => TwoPlaces(LE64(id), [0]);
    case HandshakeFinish(id, Some(q)) => FinishIsPlaced(id, q);
    case HandshakeFailed(code, text) => CodeIsPlaced(code, text);
    case ServerClose(code, text) => CodeIsPlaced(code, text);
    case ConnectionError(code) => TwoPlaces(LE32(code), []);
    case ReconnectSuccess =>
    case ReconnectFailure =>
    case SetMtu(mtu) => TwoPlaces(LE16(1), LE16(mtu));
    case PmtudProbe(data) => CountedIsPlaced(LE16(0x40), data);
  }

  lemma CodeIsPlaced(code: u32, text: bytes)
    requires if code == 0 then |text| < 0x1_0000 else text == []
    ensures CodeAndTextAt(LE32(code) + if code == 0 then Counted(text) else [], code, text)
  {
    hide LE32, CountedAt, Counted, HoldsAt;
    if code == 0 {
      CountedIsPlaced(LE32(code), text);
    } else {
      TwoPlaces(LE32(code), []);
    }
  }

  /**
    Every message the client can receive, with any field values: decoding its bytes, whatever
    follows them, gives back exactly that message and its length, and the length computed from
    the first bytes is the same.
   */
  lemma LaidOutDecodes(m: ControlMessage, tail: bytes)
    requires HasLayout(m)
    ensures Decoded(TypeOf(m), Laid(m) + tail) == Ok((m, |Laid(m)|))
    ensures ControlLength(TypeOf(m), Laid(m) + tail) == Ok(|Laid(m)|)
  {
    hide Laid, IsLaidOut, Decoded, ControlLength, At16;
    var s := Laid(m) + tail;
    assert s[..|Laid(m)|] == Laid(m);
    LaidIsLaidOut(m);
    DecodesIffLaidOut(s, m, |Laid(m)|);
    DecodingConsumesTheLength(TypeOf(m), s);
    CodeIsBelow256(m, tail);
  }

  lemma CodeIsBelow256(m: ControlMessage, tail: bytes)
    requires HasLayout(m)
    ensures TypeOf(m) == MSG_CONNECTION_CONTROL ==> |Laid(m)| >= 2 && At16(Laid(m) + tail, 0) < 0x100
    ensures IsDecodable(TypeOf(m))
  {
  }

  // ---------------------------------------------------------------- lengths of the others

  /** A pong: an id, the number of protocols and three bytes for each, and a counted field. */
  lemma PongLength(id: u32, protocols: bytes, count: byte, data: bytes, tail: bytes)
    requires |protocols| == 3 * count as int && |data| < 0x1_0000
    ensures var body := LE32(id) + [count] + protocols + Counted(data);
            ControlLength(2, body + tail) == Ok(|body|)
  {
    var front := LE32(id) + [count] + protocols;
    var body := front + Counted(data);
    var s := body + tail;
    assert s[4] == count;
    CountedIsPlaced(front, data);
    assert s[..|body|] == body;
    CountedIffEnds(s, |body|, |front|, data);
  }

  /** A chunk of the database, preceded by its offset and its size. */
  lemma ChunkResponseLength(offset: u32, data: bytes, tail: bytes)
    requires |data| < 0x1_0000_0000
    ensures var body := LE32(offset) + LE32(|data|) + data; ControlLength(13, body + tail) == Ok(|body|)
  {
    var s := LE32(offset) + LE32(|data|) + data + tail;
    assert HoldsAt(s, 4, LE32(|data|));
    At32Holds(s, 4, |data|);
  }

  /** The messages of fixed length that only clients send, and padding, which takes the rest. */
  lemma FixedLengths(s: bytes)
    ensures ControlLength(1, s) == Ok(5) && ControlLength(5, s) == Ok(22) && ControlLength(8, s) == Ok(1)
    ensures ControlLength(10, s) == Ok(8) && ControlLength(12, s) == Ok(8) && ControlLength(127, s) == Ok(|s|)
  {
  }

  /** A type that is neither one of the sixteen nor padding has no length, and no decoder. */
  lemma UnknownTypes(typ: byte, s: bytes)
    requires typ < MSG_DATA && !(1 <= typ <= 16) && typ != 127
    ensures ControlLength(typ, s) == Err(InvalidMessageType) && Decoded(typ, s) == Err(InvalidMessageType)
  {
  }
}
