/** Control messages: how long each is, how each is decoded, and how some are encoded. */
module ControlMessages {
  import opened Wrappers
  import opened Bytes
  import opened MessageTypes

  datatype DecodeError = InvalidMessageType | InvalidData | InvalidConnCtlCode | NotEnoughData

  // ---------------------------------------------------------------- lengths

  /** A field of `size` bytes at `p` lies within `s`. */
  predicate Fits(s: bytes, p: nat, size: nat) {
    p + size <= |s|
  }

  /** A u16 count at `p` followed by that many bytes: where it ends. */
  function EndOfString(s: bytes, p: nat): (r: Option<nat>)
    ensures r.Some? ==> p + 2 <= r.value <= |s|
  {
    if !Fits(s, p, 2) then None
    else if !Fits(s, p + 2, At16(s, p)) then None
    else Some(p + 2 + At16(s, p))
  }

  function ToLength(end: Option<nat>): Result<nat, DecodeError> {
    if end == None then Err(InvalidData) else Ok(end.value)
  }

  function EndOfPong(s: bytes): Option<nat> {
    if !Fits(s, 0, 5) then None
    else
      var protocols: nat := s[4];
      if !Fits(s, 5, 3 * protocols) then None else EndOfString(s, 5 + 3 * protocols)
  }

  function EndOfHandshakeFinish(s: bytes): Option<nat> {
    if !Fits(s, 0, 9) then None
    else if s[8] == 0 then Some(9)
    else if !Fits(s, 9, 16) || !Fits(s, 25, At32(s, 21)) then None
    else Some(25 + At32(s, 21))
  }

  function EndOfCodeAndText(s: bytes): Option<nat> {
    if !Fits(s, 0, 4) then None
    else if At32(s, 0) == 0 then EndOfString(s, 4)
    else Some(4)
  }

  function EndOfChunkResponse(s: bytes): Option<nat> {
    if !Fits(s, 0, 8) || !Fits(s, 8, At32(s, 4)) then None else Some(8 + At32(s, 4))
  }

  /** The length of a control message's body, from its type and its first bytes. */
  function ControlLength(typ: byte, s: bytes): Result<nat, DecodeError> {
    if typ == MSG_PING then Ok(5)
    else if typ == MSG_PONG then ToLength(EndOfPong(s))
    else if typ == MSG_KEEPALIVE then Ok(9)
    else if typ == MSG_KEEPALIVE_RESPONSE then ToLength(if Fits(s, 0, 8) then EndOfString(s, 8) else None)
    else if typ == MSG_HANDSHAKE_START then Ok(2 + 2 + 2 + 16)
    else if typ == MSG_HANDSHAKE_FINISH then ToLength(EndOfHandshakeFinish(s))
    else if typ == MSG_HANDSHAKE_FAILURE then ToLength(EndOfCodeAndText(s))
    else if typ == MSG_CLIENT_CLOSE then Ok(1)
    else if typ == MSG_SERVER_CLOSE then ToLength(EndOfCodeAndText(s))
    else if typ == MSG_CLIENT_RECONNECT then Ok(8)
    else if typ == MSG_CONNECTION_ERROR then Ok(4)
    else if typ == MSG_QDB_CHUNK_REQUEST then Ok(8)
    else if typ == MSG_QDB_CHUNK_RESPONSE then ToLength(EndOfChunkResponse(s))
    else if typ == MSG_RECONNECT_SUCCESS || typ == MSG_RECONNECT_FAILURE then Ok(0)
    else if typ == MSG_CONNECTION_CONTROL then
      if !Fits(s, 0, 2) then Err(InvalidData)
      else if At16(s, 0) == CONNCTL_SET_MTU then ToLength(if Fits(s, 2, 2) then Some(4) else None)
      else if At16(s, 0) == CONNCTL_PMTUD_PROBE then ToLength(EndOfString(s, 2))
      else Err(InvalidConnCtlCode)
    else if typ == MSG_PADDING then Ok(|s|)
    else Err(InvalidMessageType)
  }

  /** Skips a u16-counted field and adds its size to a running total. */
  method SkipCounted(reader: ByteReader, total: nat) returns (r: Result<nat, DecodeError>)
    requires reader.Valid() && reader.pos == total
    modifies reader
    ensures reader.Valid() && r == ToLength(EndOfString(reader.data, total))
  {
    var len := reader.ReadU16();
    if len.Err? {
      return Err(InvalidData);
    }
    var skipped := reader.Skip(len.value);
    if skipped.Err? {
      return Err(InvalidData);
    }
    r := Ok(total + 2 + len.value);
  }

  method CodeAndTextLength(reader: ByteReader) returns (r: Result<nat, DecodeError>)
    requires reader.Valid() && reader.pos == 0
    modifies reader
    ensures r == ToLength(EndOfCodeAndText(reader.data))
  {
    var code := reader.ReadU32();
    if code.Err? {
      return Err(InvalidData);
    }
    if code.value == 0 {
      r := SkipCounted(reader, 4);
    } else {
      r := Ok(4);
    }
  }

  method LengthForNonDataMessage(reader: ByteReader, typ: byte) returns (r: Result<nat, DecodeError>)
    requires reader.Valid() && reader.pos == 0
    modifies reader
    ensures r == ControlLength(typ, reader.data)
  {
    if typ == MSG_PING {
      return Ok(5);
    } else if typ == MSG_PONG {
      var total: nat := 4;
      var skipped := reader.Skip(4);
      if skipped.Err? {
        return Err(InvalidData);
      }
      var protocols := reader.ReadU8();
      if protocols.Err? {
        return Err(InvalidData);
      }
      var listed: nat := 3 * (protocols.value as int);
      total := total + 1 + listed;
      skipped := reader.Skip(listed);
      if skipped.Err? {
        return Err(InvalidData);
      }
      r := SkipCounted(reader, total);
    } else if typ == MSG_KEEPALIVE {
      return Ok(9);
    } else if typ == MSG_KEEPALIVE_RESPONSE {
      var skipped := reader.Skip(8);
      if skipped.Err? {
        return Err(InvalidData);
      }
      r := SkipCounted(reader, 8);
    } else if typ == MSG_HANDSHAKE_START {
      return Ok(2 + 2 + 2 + 16);
    } else if typ == MSG_HANDSHAKE_FINISH {
      var total: nat := 8;
      var skipped := reader.Skip(8);
      if skipped.Err? {
        return Err(InvalidData);
      }
      total := total + 1;
      var hasQdb := reader.ReadU8();
      if hasQdb.Err? {
        return Err(InvalidData);
      }
      if hasQdb.value != 0 {
        total := total + 12;
        skipped := reader.Skip(12);
        if skipped.Err? {
          return Err(InvalidData);
        }
        var len := reader.ReadU32();
        if len.Err? {
          return Err(InvalidData);
        }
        total := total + 4 + len.value;
        skipped := reader.Skip(len.value);
        if skipped.Err? {
          return Err(InvalidData);
        }
      }
      r := Ok(total);
    } else if typ == MSG_HANDSHAKE_FAILURE || typ == MSG_SERVER_CLOSE {
      r := CodeAndTextLength(reader);
    } else if typ == MSG_CLIENT_CLOSE {
      return Ok(1);
    } else if typ == MSG_CLIENT_RECONNECT || typ == MSG_QDB_CHUNK_REQUEST {
      return Ok(8);
    } else if typ == MSG_CONNECTION_ERROR {
      return Ok(4);
    } else if typ == MSG_QDB_CHUNK_RESPONSE {
      var skipped := reader.Skip(4);
      if skipped.Err? {
        return Err(InvalidData);
      }
      var len := reader.ReadU32();
      if len.Err? {
        return Err(InvalidData);
      }
      skipped := reader.Skip(len.value);
      if skipped.Err? {
        return Err(InvalidData);
      }
      r := Ok(4 + 4 + len.value as int);
    } else if typ == MSG_RECONNECT_SUCCESS || typ == MSG_RECONNECT_FAILURE {
      return Ok(0);
    } else if typ == MSG_CONNECTION_CONTROL {
      var code := reader.ReadU16();
      if code.Err? {
        return Err(InvalidData);
      }
      if code.value == CONNCTL_SET_MTU {
        var skipped := reader.Skip(2);
        if skipped.Err? {
          return Err(InvalidData);
        }
        r := Ok(2 + 2);
      } else if code.value == CONNCTL_PMTUD_PROBE {
        r := SkipCounted(reader, 2);
      } else {
        r := Err(InvalidConnCtlCode);
      }
    } else if typ == MSG_PADDING {
      r := Ok(|reader.data| - reader.pos);
    } else {
      r := Err(InvalidMessageType);
    }
  }

  // ---------------------------------------------------------------- decoding

  datatype QdbData = QdbData(uncompressedSize: u32, compressedSize: u32, chunkOffset: u32, chunkSize: u32, chunkData: bytes)

  datatype ControlMessage =
    | Keepalive(timestamp: u64)
    | KeepaliveResponse(timestamp: u64, data: bytes)
    | HandshakeFinish(connectionId: u64, qdb: Option<QdbData>)
    | HandshakeFailed(code: u32, text: bytes)
    | ServerClose(code: u32, text: bytes)
    | ConnectionError(code: u32)
    | ReconnectSuccess
    | ReconnectFailure
    | SetMtu(mtu: u16)
    | PmtudProbe(data: bytes)
    | Padding

  /** What the client can decode, apart from padding, of which it reads nothing. */
  predicate IsDecodable(typ: byte) {
    typ in {MSG_KEEPALIVE, MSG_KEEPALIVE_RESPONSE, MSG_HANDSHAKE_FINISH, MSG_HANDSHAKE_FAILURE, MSG_SERVER_CLOSE,
            MSG_CONNECTION_ERROR, MSG_RECONNECT_SUCCESS, MSG_RECONNECT_FAILURE, MSG_CONNECTION_CONTROL}
  }

  method ReadCounted(reader: ByteReader) returns (r: Result<bytes, DecodeError>)
    requires reader.Valid()
    modifies reader
    ensures reader.Valid()
    ensures var end := EndOfString(reader.data, old(reader.pos));
            if end.Some? then r == Ok(reader.data[old(reader.pos) + 2..end.value]) && reader.pos == end.value
            else r == Err(InvalidData)
  {
    var len := reader.ReadU16();
    if len.Err? {
      return Err(InvalidData);
    }
    var text := reader.ReadBytes(len.value);
    if text.Err? {
      return Err(InvalidData);
    }
    r := Ok(text.value);
  }

  method ReadQdb(reader: ByteReader) returns (r: Result<QdbData, DecodeError>)
    requires reader.Valid() && reader.pos == 9
    modifies reader
    ensures reader.Valid()
    ensures r.Ok? <==> Fits(reader.data, 9, 16) && Fits(reader.data, 25, At32(reader.data, 21))
    ensures r.Err? ==> r == Err(InvalidData)
    ensures r.Ok? ==> var s := reader.data;
            && r.value == QdbData(At32(s, 9), At32(s, 13), At32(s, 17), At32(s, 21), s[25..25 + At32(s, 21)])
            && reader.pos == 25 + At32(s, 21)
  {
    var uncompressed := reader.ReadU32();
    if uncompressed.Err? {
      return Err(InvalidData);
    }
    var compressed := reader.ReadU32();
    if compressed.Err? {
      return Err(InvalidData);
    }
    var offset := reader.ReadU32();
    if offset.Err? {
      return Err(InvalidData);
    }
    var size := reader.ReadU32();
    if size.Err? {
      return Err(InvalidData);
    }
    var data: bytes := [];
    if size.value > 0 {
      var read := reader.ReadBytes(size.value);
      if read.Err? {
        return Err(InvalidData);
      }
      data := read.value;
    }
    r := Ok(QdbData(uncompressed.value, compressed.value, offset.value, size.value, data));
  }

  /** The decoded message and how many bytes of the body it took. */
  method DecodeWithMeta(typ: byte, body: bytes) returns (r: Result<(ControlMessage, nat), DecodeError>)
    ensures r == Decoded(typ, body)
  {
    var reader := new ByteReader(body);
    if typ == MSG_KEEPALIVE {
      var timestamp := reader.ReadU64();
      if timestamp.Err? {
        return Err(InvalidData);
      }
      var flags := reader.ReadU8();
      if flags.Err? {
        return Err(InvalidData);
      }
      r := Ok((Keepalive(timestamp.value), reader.pos));
    } else if typ == MSG_KEEPALIVE_RESPONSE {
      var timestamp := reader.ReadU64();
      if timestamp.Err? {
        return Err(InvalidData);
      }
      var data := ReadCounted(reader);
      if data.Err? {
        return Err(InvalidData);
      }
      r := Ok((KeepaliveResponse(timestamp.value, data.value), reader.pos));
    } else if typ == MSG_HANDSHAKE_FINISH {
      var id := reader.ReadU64();
      if id.Err? {
        return Err(InvalidData);
      }
      var hasQdb := reader.ReadU8();
      if hasQdb.Err? {
        return Err(InvalidData);
      }
      if hasQdb.value != 0 {
        var qdb := ReadQdb(reader);
        if qdb.Err? {
          return Err(InvalidData);
        }
        r := Ok((HandshakeFinish(id.value, Some(qdb.value)), reader.pos));
      } else {
        r := Ok((HandshakeFinish(id.value, None), reader.pos));
      }
    } else if typ == MSG_HANDSHAKE_FAILURE || typ == MSG_SERVER_CLOSE {
      var code := reader.ReadU32();
      if code.Err? {
        return Err(InvalidData);
      }
      var text: bytes := [];
      if code.value == 0 {
        var read := ReadCounted(reader);
        if read.Err? {
          return Err(InvalidData);
        }
        text := read.value;
      }
      r := Ok((if typ == MSG_SERVER_CLOSE then ServerClose(code.value, text) else HandshakeFailed(code.value, text), reader.pos));
    } else if typ == MSG_CONNECTION_ERROR {
      var code := reader.ReadU32();
      if code.Err? {
        return Err(InvalidData);
      }
      r := Ok((ConnectionError(code.value), reader.pos));
    } else if typ == MSG_RECONNECT_SUCCESS {
      r := Ok((ReconnectSuccess, 0));
    } else if typ == MSG_RECONNECT_FAILURE {
      r := Ok((ReconnectFailure, 0));
    } else if typ == MSG_CONNECTION_CONTROL {
      var code := reader.ReadU16();
      if code.Err? {
        return Err(InvalidData);
      }
      var kind := code.value % 0x100;
      if kind == CONNCTL_SET_MTU {
        var mtu := reader.ReadU16();
        if mtu.Err? {
          return Err(InvalidData);
        }
        r := Ok((SetMtu(mtu.value), reader.pos));
      } else if kind == CONNCTL_PMTUD_PROBE {
        var data := ReadCounted(reader);
        if data.Err? {
          return Err(InvalidData);
        }
        r := Ok((PmtudProbe(data.value), reader.pos));
      } else {
        r := Err(InvalidData);
      }
    } else if typ == MSG_PADDING {
      r := Ok((Padding, 0));
    } else {
      r := Err(InvalidMessageType);
    }
  }

  function DecodedText(s: bytes): Option<(bytes, nat)> {
    if !Fits(s, 0, 4) then None
    else if At32(s, 0) != 0 then Some(([], 4))
    else
      var end := EndOfString(s, 4);
      if end == None then None else Some((s[6..end.value], end.value))
  }

  function Decoded(typ: byte, s: bytes): Result<(ControlMessage, nat), DecodeError> {
    if typ == MSG_KEEPALIVE then
      if Fits(s, 0, 9) then Ok((Keepalive(At64(s, 0)), 9)) else Err(InvalidData)
    else if typ == MSG_KEEPALIVE_RESPONSE then
      var end := if Fits(s, 0, 8) then EndOfString(s, 8) else None;
      if end.Some? then Ok((KeepaliveResponse(At64(s, 0), s[10..end.value]), end.value)) else Err(InvalidData)
    else if typ == MSG_HANDSHAKE_FINISH then
      if !Fits(s, 0, 9) then Err(InvalidData)
      else if s[8] == 0 then Ok((HandshakeFinish(At64(s, 0), None), 9))
      else if !Fits(s, 9, 16) || !Fits(s, 25, At32(s, 21)) then Err(InvalidData)
      else
        var end := 25 + At32(s, 21);
        Ok((HandshakeFinish(At64(s, 0), Some(QdbData(At32(s, 9), At32(s, 13), At32(s, 17), At32(s, 21), s[25..end]))), end))
    else if typ == MSG_HANDSHAKE_FAILURE then
      var t := DecodedText(s);
      if t.Some? then Ok((HandshakeFailed(At32(s, 0), t.value.0), t.value.1)) else Err(InvalidData)
    else if typ == MSG_SERVER_CLOSE then
      var t := DecodedText(s);
      if t.Some? then Ok((ServerClose(At32(s, 0), t.value.0), t.value.1)) else Err(InvalidData)
    else if typ == MSG_CONNECTION_ERROR then
      if Fits(s, 0, 4) then Ok((ConnectionError(At32(s, 0)), 4)) else Err(InvalidData)
    else if typ == MSG_RECONNECT_SUCCESS then Ok((ReconnectSuccess, 0))
    else if typ == MSG_RECONNECT_FAILURE then Ok((ReconnectFailure, 0))
    else if typ == MSG_CONNECTION_CONTROL then
      if !Fits(s, 0, 2) then Err(InvalidData)
      else if s[0] == CONNCTL_SET_MTU then
        if Fits(s, 2, 2) then Ok((SetMtu(At16(s, 2)), 4)) else Err(InvalidData)
      else if s[0] == CONNCTL_PMTUD_PROBE then
        var end := EndOfString(s, 2);
        if end.Some? then Ok((PmtudProbe(s[4..end.value]), end.value)) else Err(InvalidData)
      else Err(InvalidData)
    else if typ == MSG_PADDING then Ok((Padding, 0))
    else Err(InvalidMessageType)
  }

  // ---------------------------------------------------------------- the two agree

  /** Fields read at fixed places of a prefix are those of the whole. */
  lemma PrefixFields(s: bytes, n: nat)
    requires n <= |s|
    ensures forall p: nat :: p + 2 <= n ==> At16(s[..n], p) == At16(s, p)
    ensures forall p: nat :: p + 4 <= n ==> At32(s[..n], p) == At32(s, p)
  {
  }

  /**
    Wherever the length computation finds a body of a decodable type, decoding exactly that
    many bytes succeeds and consumes them all.
   */
  lemma LengthIsWhatDecodingConsumes(typ: byte, s: bytes)
    requires IsDecodable(typ) && ControlLength(typ, s).Ok? && ControlLength(typ, s).value <= |s|
    ensures var n := ControlLength(typ, s).value;
            Decoded(typ, s[..n]).Ok? && Decoded(typ, s[..n]).value.1 == n
  {
    PrefixFields(s, ControlLength(typ, s).value);
  }

  /** The other way round; only a connection control code above 255 decodes without having a length. */
  lemma DecodingConsumesTheLength(typ: byte, s: bytes)
    requires IsDecodable(typ) && Decoded(typ, s).Ok?
    ensures ControlLength(typ, s) == Ok(Decoded(typ, s).value.1)
            <==> (typ == MSG_CONNECTION_CONTROL ==> At16(s, 0) < 0x100)
  {
  }

  /** A body with control code 0x0101 and an MTU of 1500: its decoder looks at one byte of the code, its length at both. */
  lemma WideCodeHasNoLength()
    ensures Decoded(MSG_CONNECTION_CONTROL, [1, 1, 0xDC, 5]) == Ok((SetMtu(1500), 4))
    ensures ControlLength(MSG_CONNECTION_CONTROL, [1, 1, 0xDC, 5]) == Err(InvalidConnCtlCode)
  {
    var s: bytes := [1, 1, 0xDC, 5];
    assert At16(s, 0) == 0x0101 && At16(s, 2) == 1500;
  }

  /** What follows a body does not change its length. */
  lemma LengthIgnoresTail(typ: byte, body: bytes, tail: bytes)
    requires ControlLength(typ, body) == Ok(|body|) && typ != MSG_PADDING
    ensures ControlLength(typ, body + tail) == Ok(|body|)
  {
    var s := body + tail;
    assert s[..|body|] == body;
    PrefixFields(s, |body|);
  }

  // ---------------------------------------------------------------- encoding

  function Encoded(m: ControlMessage): bytes
    requires m.Keepalive? || m.ConnectionError? || m.SetMtu? || (m.PmtudProbe? && |m.data| < 0x1_0000)
  {
    match m
    case Keepalive(timestamp) => LE64(timestamp) + [0]
    case ConnectionError(code) => LE32(code)
    case SetMtu(mtu) => [CONNCTL_SET_MTU] + LE16(mtu)
    case PmtudProbe(data) => [CONNCTL_PMTUD_PROBE] + LE16(|data|) + data
  }

  lemma KeepaliveRoundTrip(timestamp: u64)
    ensures Decoded(MSG_KEEPALIVE, Encoded(Keepalive(timestamp))) == Ok((Keepalive(timestamp), 9))
  {
    var s := Encoded(Keepalive(timestamp));
    assert HoldsAt(s, 0, LE64(timestamp));
    At64Holds(s, 0, timestamp);
  }

  lemma ConnectionErrorRoundTrip(code: u32)
    ensures Decoded(MSG_CONNECTION_ERROR, Encoded(ConnectionError(code))) == Ok((ConnectionError(code), 4))
  {
    var s := Encoded(ConnectionError(code));
    assert HoldsAt(s, 0, LE32(code));
    At32Holds(s, 0, code);
  }

  /**
    Connection control messages never survive: the code is written as one byte and read as
    two, so the fields after it are read one byte late.
   */
  lemma ConnectionControlNeverRoundTrips(m: ControlMessage)
    requires m.SetMtu? || (m.PmtudProbe? && |m.data| < 0x1_0000)
    ensures Decoded(MSG_CONNECTION_CONTROL, Encoded(m)).Ok? ==> Decoded(MSG_CONNECTION_CONTROL, Encoded(m)).value.0 != m
  {
    var s := Encoded(m);
    if m.PmtudProbe? && Decoded(MSG_CONNECTION_CONTROL, s).Ok? {
      assert |Decoded(MSG_CONNECTION_CONTROL, s).value.0.data| <= |s| - 4 < |m.data|;
    }
  }
}
