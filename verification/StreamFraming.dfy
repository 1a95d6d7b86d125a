/**
  Length-prefixed messages over a byte stream. Reads from the stream may end anywhere; what
  is received depends only on the bytes, not on where the reads end.
 */
module StreamFraming {
  import opened Wrappers
  import opened Bytes
  import opened MessageTypes
  import opened ControlMessages
  import opened ControlLayouts
  import opened MessageCodec
  import opened Compression
  import opened UdpTransports
  import opened Fragmentation
  import opened FragmentProofs

  // ---------------------------------------------------------------- what the bytes say

  datatype Parse =
    | NeedMore(rest: bytes)
    | Oversized(rest: bytes)
    | Frame(frame: bytes, rest: bytes)

  /** The first non-empty frame of a byte string; a limit of zero is no limit. */
  function ParseFrame(s: bytes, limit: nat): Parse
    decreases |s|
  {
    if |s| < 4 then NeedMore(s)
    else
      var length := At32(s, 0);
      if length == 0 then ParseFrame(s[4..], limit)
      else if limit != 0 && length > limit then Oversized(s)
      else if |s| < 4 + length then NeedMore(s)
      else Frame(s[4..4 + length], s[4 + length..])
  }

  lemma FieldOfPrefix(s: bytes, t: bytes)
    requires |s| >= 4
    ensures At32(s + t, 0) == At32(s, 0)
  {
  }

  /** More bytes only add to the rest; as long as more are needed, parsing can start over from the rest. */
  lemma {:induction false} ParseExtends(s: bytes, t: bytes, limit: nat)
    ensures match ParseFrame(s, limit)
            case Frame(frame, rest) => ParseFrame(s + t, limit) == Frame(frame, rest + t)
            case Oversized(rest) => ParseFrame(s + t, limit) == Oversized(rest + t)
            case NeedMore(rest) => ParseFrame(s + t, limit) == ParseFrame(rest + t, limit)
    decreases |s|
  {
    if |s| >= 4 {
      FieldOfPrefix(s, t);
      var length := At32(s, 0);
      if length == 0 {
        assert (s + t)[4..] == s[4..] + t;
        ParseExtends(s[4..], t, limit);
      } else if !(limit != 0 && length > limit) && |s| >= 4 + length {
        assert (s + t)[4..4 + length] == s[4..4 + length];
        assert (s + t)[4 + length..] == s[4 + length..] + t;
      }
    }
  }

  // ---------------------------------------------------------------- frames

  /** What the transport makes of a frame. */
  function FrameMessage(codec: Codec, limit: nat, frame: bytes): Result<Received, TransportError>
    requires frame != []
  {
    match DecodedMeta(frame, false)
    case Err(_) => Err(DecodeFailed)
    case Ok(meta) =>
      if meta.typ != MSG_DATA then
        match Decoded(meta.typ, meta.data)
        case Ok((msg, _)) => Ok(FromControl(msg))
        case Err(_) => Err(DecodeFailed)
      else
        match FinalMessage(codec, limit, meta)
        case Ok(m) => Ok(m.value)
        case Err(e) => Err(e)
  }

  datatype ReceiveResult =
    | Message(result: Result<Received, TransportError>)
    | TooLong
    | StreamClosed
    | Pending

  /** The receive buffer: a queue of bytes, stored in a ring, so that a read may come in two parts. */
  class CircularByteBuffer {
    var data: bytes
    var seam: nat // bytes from the read position to the end of the ring

    constructor (seam: nat)
      ensures data == []
    {
      data, this.seam := [], seam;
    }

    method Peek(n: nat) returns (first: bytes, second: bytes)
      requires n <= |data|
      ensures first + second == data[..n]
    {
      if n <= seam {
        first, second := data[..n], [];
      } else {
        first, second := data[..seam], data[seam..n];
      }
    }

    method Skip(n: nat)
      requires n <= |data|
      modifies this
      ensures data == old(data)[n..]
    {
      data := data[n..];
    }

    method Append(s: bytes, seam: nat)
      modifies this
      ensures data == old(data) + s
    {
      data, this.seam := data + s, seam;
    }
  }

  /** The socket: the reads that will succeed, in order; an empty one means it was closed. */
  class ByteStream {
    var pending: seq<bytes>

    constructor (pending: seq<bytes>)
      ensures this.pending == pending
    {
      this.pending := pending;
    }

    method Receive() returns (r: Option<bytes>)
      modifies this
      ensures r == if old(pending) == [] then None else Some(old(pending)[0])
      ensures pending == if old(pending) == [] then [] else old(pending)[1..]
    {
      if pending == [] {
        return None;
      }
      r := Some(pending[0]);
      pending := pending[1..];
    }
  }

  /** The reads before the stream closes. */
  function Usable(chunks: seq<bytes>): seq<bytes> {
    if chunks == [] || chunks[0] == [] then [] else [chunks[0]] + Usable(chunks[1..])
  }

  function Closes(chunks: seq<bytes>): bool {
    chunks != [] && (chunks[0] == [] || Closes(chunks[1..]))
  }

  /** All bytes that can still be parsed: those buffered, and those of the reads to come. */
  ghost function Available(buffer: CircularByteBuffer, stream: ByteStream): bytes
    reads buffer, stream
  {
    buffer.data + Flatten(Usable(stream.pending))
  }

  ghost predicate IsReceived(codec: Codec, limit: nat, all: bytes, closes: bool, r: ReceiveResult, rest: bytes) {
    match ParseFrame(all, limit)
    case Frame(frame, after) => frame != [] && r == Message(FrameMessage(codec, limit, frame)) && rest == after
    case Oversized(after) => r == TooLong && rest == after
    case NeedMore(after) => r == (if closes then StreamClosed else Pending)
  }

  lemma UsableStep(chunks: seq<bytes>)
    requires chunks != [] && chunks[0] != []
    ensures Flatten(Usable(chunks)) == chunks[0] + Flatten(Usable(chunks[1..]))
  {
    assert Usable(chunks)[1..] == Usable(chunks[1..]);
  }

  lemma {:induction false} FrameIsNonEmpty(s: bytes, limit: nat)
    ensures ParseFrame(s, limit).Frame? ==> ParseFrame(s, limit).frame != []
    decreases |s|
  {
    if |s| >= 4 && At32(s, 0) == 0 {
      FrameIsNonEmpty(s[4..], limit);
    }
  }

  /**
    Receives one message. The result, and what is left for the next one, is a function of the
    available bytes alone: it does not depend on how they are divided into reads, nor on where
    the ring buffer wraps; a frame that fails to decode consumes its own bytes and no others.
   */
  method ReceiveMessage(codec: Codec, limit: nat, buffer: CircularByteBuffer, stream: ByteStream, seam: nat)
    returns (r: ReceiveResult)
    modifies buffer, stream
    ensures IsReceived(codec, limit, old(Available(buffer, stream)), old(Closes(stream.pending)), r, Available(buffer, stream))
    ensures r.Message? || r.TooLong? ==> Closes(stream.pending) == old(Closes(stream.pending))
    ensures r.Message? ==> |Available(buffer, stream)| < |old(Available(buffer, stream))|
  {
    hide FrameMessage, ParseFrame, Usable, Closes;
    ghost var all := Available(buffer, stream);
    while true
      invariant ParseFrame(Available(buffer, stream), limit) == ParseFrame(all, limit)
      invariant |Available(buffer, stream)| <= |all|
      invariant Closes(stream.pending) == old(Closes(stream.pending))
      decreases |stream.pending|
    {
      ghost var before, later := buffer.data, Flatten(Usable(stream.pending));
      ParseExtends(before, later, limit);
      FrameIsNonEmpty(before, limit);
      RestIsShorter(before, limit);
      var parsed := TakeFrame(limit, buffer);
      if parsed.Frame? {
        return Message(FrameMessage(codec, limit, parsed.frame));
      } else if parsed.Oversized? {
        return TooLong;
      }
      PendingStep(stream.pending);
      var chunk := stream.Receive();
      if chunk == None {
        assert buffer.data + [] == buffer.data;
        NeedsMore(before, limit);
        return Pending;
      } else if chunk.value == [] {
        assert buffer.data + [] == buffer.data;
        NeedsMore(before, limit);
        return StreamClosed;
      }
      ghost var rest := buffer.data;
      buffer.Append(chunk.value, seam);
      Regroup(rest, chunk.value, Flatten(Usable(stream.pending)));
    }
  }

  /** What one read does to the usable reads. */
  lemma PendingStep(chunks: seq<bytes>)
    ensures chunks == [] ==> Usable(chunks) == [] && !Closes(chunks)
    ensures chunks != [] && chunks[0] == [] ==> Usable(chunks) == [] && Closes(chunks)
    ensures chunks != [] && chunks[0] != [] ==>
      Flatten(Usable(chunks)) == chunks[0] + Flatten(Usable(chunks[1..])) && Closes(chunks) == Closes(chunks[1..])
  {
    if chunks != [] && chunks[0] != [] {
      UsableStep(chunks);
    }
  }

  /** What is left when more is needed needs more itself, and is no longer. */
  lemma {:induction false} NeedsMore(s: bytes, limit: nat)
    ensures var p := ParseFrame(s, limit);
            |p.rest| <= |s| && (p.NeedMore? ==> ParseFrame(p.rest, limit) == p)
    decreases |s|
  {
    if |s| >= 4 && At32(s, 0) == 0 {
      NeedsMore(s[4..], limit);
    }
  }

  /** The part of the loop that parses what is already buffered: empty frames are skipped, a whole one is taken. */
  method TakeFrame(limit: nat, buffer: CircularByteBuffer) returns (r: Parse)
    modifies buffer
    ensures r == ParseFrame(old(buffer.data), limit) && buffer.data == r.rest && |r.rest| <= |old(buffer.data)|
  {
    while true
      invariant ParseFrame(buffer.data, limit) == ParseFrame(old(buffer.data), limit)
      invariant |buffer.data| <= |old(buffer.data)|
      decreases |buffer.data|
    {
      if |buffer.data| < 4 {
        return NeedMore(buffer.data);
      }
      var lenFirst, lenSecond := buffer.Peek(4);
      var length := At32(lenFirst + lenSecond, 0);
      assert length == At32(buffer.data, 0);
      if length == 0 {
        buffer.Skip(4);
        continue;
      } else if limit != 0 && length > limit {
        return Oversized(buffer.data);
      }
      if |buffer.data| < 4 + length {
        return NeedMore(buffer.data);
      }
      ghost var before := buffer.data;
      buffer.Skip(4);
      var first, second := buffer.Peek(length);
      buffer.Skip(length);
      assert first + second == before[4..4 + length];
      assert buffer.data == before[4 + length..];
      return Frame(first + second, buffer.data);
    }
  }

  // ---------------------------------------------------------------- whole streams

  /** All frames of a byte string, in order, up to one that is too long or incomplete. */
  function AllFrames(s: bytes, limit: nat): seq<bytes>
    decreases |s|
  {
    match ParseFrame(s, limit)
    case Frame(frame, rest) => if |rest| < |s| then [frame] + AllFrames(rest, limit) else [frame]
    case _ => []
  }

  lemma {:induction false} RestIsShorter(s: bytes, limit: nat)
    ensures ParseFrame(s, limit).Frame? ==> |ParseFrame(s, limit).rest| < |s|
    decreases |s|
  {
    if |s| >= 4 && At32(s, 0) == 0 {
      RestIsShorter(s[4..], limit);
    }
  }

  ghost predicate AreMessages(codec: Codec, limit: nat, frames: seq<bytes>, rs: seq<Result<Received, TransportError>>) {
    && |frames| == |rs|
    && forall i :: 0 <= i < |rs| ==> frames[i] != [] && rs[i] == FrameMessage(codec, limit, frames[i])
  }

  // ---------------------------------------------------------------- sending

  /** The bytes of a frame; the length field holds 32 bits. */
  function Framed(content: bytes): bytes {
    LE32(|content| % 0x1_0000_0000) + content
  }

  /** Reserves the length field, writes the message and fills the field in afterwards. */
  method SendFrame(content: bytes, hasLength: bool) returns (wire: bytes)
    ensures wire == if hasLength then Framed(content) else content
  {
    var writer := new ByteWriter();
    if hasLength {
      writer.WriteU32(0);
    }
    var preMessagePos := |writer.written|;
    writer.WriteBytes(content);
    if hasLength {
      var messageSize: u32 := (|writer.written| - preMessagePos) % 0x1_0000_0000;
      writer.Patch(preMessagePos - 4, LE32(messageSize));
    }
    wire := writer.written;
  }

  function Wire(frames: seq<bytes>): bytes {
    if frames == [] then [] else Framed(frames[0]) + Wire(frames[1..])
  }

  function NonEmpty(frames: seq<bytes>): seq<bytes> {
    if frames == [] then []
    else if frames[0] == [] then NonEmpty(frames[1..])
    else [frames[0]] + NonEmpty(frames[1..])
  }

  ghost predicate WithinLimit(frames: seq<bytes>, limit: nat) {
    forall i :: 0 <= i < |frames| ==> |frames[i]| < 0x1_0000_0000 && (limit != 0 ==> |frames[i]| <= limit)
  }

  lemma ParseFramed(frame: bytes, tail: bytes, limit: nat)
    requires WithinLimit([frame], limit)
    ensures var s := Framed(frame) + tail;
            ParseFrame(s, limit) == if frame == [] then ParseFrame(tail, limit) else Frame(frame, tail)
  {
    assert [frame][0] == frame;
    var s := Framed(frame) + tail;
    assert HoldsAt(s, 0, LE32(|frame|));
    At32Holds(s, 0, |frame|);
    if frame == [] {
      assert s[4..] == tail;
    } else {
      assert s[4..4 + |frame|] == frame;
      assert s[4 + |frame|..] == tail;
    }
  }

  lemma SameFramesFrom(s: bytes, t: bytes, limit: nat)
    requires ParseFrame(s, limit) == ParseFrame(t, limit)
    ensures AllFrames(s, limit) == AllFrames(t, limit)
  {
    RestIsShorter(s, limit);
    RestIsShorter(t, limit);
  }

  /** The frames sent are the frames found, in order; zero-length ones vanish. */
  lemma {:induction false} FramesOfWire(frames: seq<bytes>, limit: nat)
    requires WithinLimit(frames, limit)
    ensures AllFrames(Wire(frames), limit) == NonEmpty(frames)
  {
    if frames != [] {
      var tail := Wire(frames[1..]);
      FramesOfWire(frames[1..], limit);
      assert WithinLimit([frames[0]], limit);
      ParseFramed(frames[0], tail, limit);
      if frames[0] == [] {
        SameFramesFrom(Wire(frames), tail, limit);
      }
    }
  }

  /** The reads that deliver the bytes of the frames, divided in whatever way; an empty read would end the stream. */
  ghost predicate Delivers(chunks: seq<bytes>, frames: seq<bytes>, limit: nat) {
    && WithinLimit(frames, limit) && Flatten(chunks) == Wire(frames)
    && forall i :: 0 <= i < |chunks| ==> chunks[i] != []
  }

  lemma DeliveredFramesAreFound(chunks: seq<bytes>, frames: seq<bytes>, limit: nat)
    requires Delivers(chunks, frames, limit)
    ensures AllFrames(Flatten(Usable(chunks)), limit) == NonEmpty(frames)
  {
    AllUsable(chunks);
    FramesOfWire(frames, limit);
  }

  lemma {:induction false} AllUsable(chunks: seq<bytes>)
    requires forall i :: 0 <= i < |chunks| ==> chunks[i] != []
    ensures Usable(chunks) == chunks
  {
    if chunks != [] {
      AllUsable(chunks[1..]);
    }
  }

  /** What one more received message adds to those received, or that there was none left. */
  lemma ReceivedNext(codec: Codec, limit: nat, all: bytes, closes: bool, r: ReceiveResult, rest: bytes,
                     frames: seq<bytes>,
                     rs: seq<Result<Received, TransportError>>)
    requires IsReceived(codec, limit, all, closes, r, rest) && AreMessages(codec, limit, frames, rs)
    ensures !r.Message? ==> frames + AllFrames(all, limit) == frames
    ensures r.Message? ==>
      && ParseFrame(all, limit).Frame?
      && var frame := ParseFrame(all, limit).frame;
      && frames + AllFrames(all, limit) == (frames + [frame]) + AllFrames(rest, limit)
      && AreMessages(codec, limit, frames + [frame], rs + [r.result])
  {
    hide FrameMessage, ParseFrame;
    RestIsShorter(all, limit);
    if r.Message? {
      var frame := ParseFrame(all, limit).frame;
      assert frames + ([frame] + AllFrames(rest, limit)) == (frames + [frame]) + AllFrames(rest, limit);
    }
  }

  /**
    Receives until nothing more comes: what is received are the frames of the stream's bytes.
    So framing does not depend on read boundaries: however the bytes of the sent frames are
    divided into reads, the messages received are those of the non-empty frames sent, in order.
   */
  method ReceiveAll(codec: Codec, limit: nat, stream: ByteStream, seam: nat) returns (rs: seq<Result<Received,
                    TransportError>>)
    modifies stream
    ensures AreMessages(codec, limit, AllFrames(Flatten(Usable(old(stream.pending))), limit), rs)
    ensures forall frames :: Delivers(old(stream.pending), frames, limit) ==> AreMessages(codec, limit, NonEmpty(frames), rs)
  {
    hide FrameMessage, ParseFrame, AllFrames, Usable, Closes, IsReceived;
    var buffer := new CircularByteBuffer(seam);
    rs := [];
    ghost var frames: seq<bytes> := [];
    ghost var all := Flatten(Usable(stream.pending));
    forall sent | Delivers(stream.pending, sent, limit)
      ensures AllFrames(all, limit) == NonEmpty(sent)
    {
      DeliveredFramesAreFound(stream.pending, sent, limit);
    }
    assert AreMessages(codec, limit, [], []);
    assert [] + AllFrames(all, limit) == AllFrames(all, limit);
    hide Delivers, NonEmpty, AreMessages;
    assert Available(buffer, stream) == all;
    while true
      invariant AllFrames(all, limit) == frames + AllFrames(Available(buffer, stream), limit)
      invariant AreMessages(codec, limit, frames, rs)
      invariant fresh(buffer)
      decreases |Available(buffer, stream)|
    {
      ghost var before, closes := Available(buffer, stream), Closes(stream.pending);
      var r := ReceiveMessage(codec, limit, buffer, stream, seam);
      ReceivedNext(codec, limit, before, closes, r, Available(buffer, stream), frames, rs);
      if !r.Message? {
        return;
      }
      rs := rs + [r.result];
      frames := frames + [ParseFrame(before, limit).frame];
    }
  }

  /** A data message sent over a stream is received as its payload, unless it unpacks beyond the limit. */
  lemma StreamedPayloadRecovers(codec: Codec, limit: nat, payload: bytes, uncompressed: bool)
    requires Lawful(codec) && |payload| < 0x1_0000_0000 && |payload| <= limit
    ensures var frame := PlainDatagram(Prepared(codec, payload, uncompressed), 0);
            frame != [] && FrameMessage(codec, limit, frame) == Ok(Payload(payload))
  {
    hide DecodedMeta, DataHeader, Datagram, Prepared, FinalData;
    var msg := Prepared(codec, payload, uncompressed);
    PreparedHasNoRel(codec, payload, uncompressed);
    PlainIsDatagram(msg, 0);
    PlainRoundTrip(msg, 0, None, msg.data);
    FinalDataUndoesPrepared(codec, limit, payload, uncompressed);
  }

  lemma PreparedHasNoRel(codec: Codec, payload: bytes, uncompressed: bool)
    ensures Prepared(codec, payload, uncompressed).rel == None
  {
  }

  /** A control message in a frame of its own is received as it was sent. */
  lemma StreamedControlRecovers(codec: Codec, limit: nat, m: ControlMessage)
    requires HasLayout(m)
    ensures FrameMessage(codec, limit, [TypeOf(m)] + Laid(m)) == Ok(FromControl(m))
  {
    hide Laid, ControlLength, Decoded;
    LaidOutDecodes(m, []);
    assert Laid(m) + [] == Laid(m);
    var frame := [TypeOf(m)] + Laid(m);
    assert frame[1..] == Laid(m) && Laid(m)[..|Laid(m)|] == Laid(m);
  }

  /** A frame that announces more than the limit is refused, and no byte of it is taken. */
  lemma OversizedIsRefused(size: u32, tail: bytes, limit: nat)
    requires limit != 0 && size > limit
    ensures ParseFrame(LE32(size) + tail, limit) == Oversized(LE32(size) + tail)
  {
    var s := LE32(size) + tail;
    assert HoldsAt(s, 0, LE32(size));
    At32Holds(s, 0, size);
  }

  /** A frame that is not there as a whole is waited for, and no byte of it is taken. */
  lemma PartialIsAwaited(frame: bytes, k: nat, limit: nat)
    requires WithinLimit([frame], limit) && frame != [] && k < |Framed(frame)|
    ensures ParseFrame(Framed(frame)[..k], limit) == NeedMore(Framed(frame)[..k])
  {
    assert [frame][0] == frame;
    var s := Framed(frame)[..k];
    if k >= 4 {
      assert s[..4] == LE32(|frame|);
      assert HoldsAt(s, 0, LE32(|frame|));
      At32Holds(s, 0, |frame|);
    }
  }

  /** A frame that does not decode, or whose payload does not unpack, yields an error in place of a message. */
  lemma BadFramesAreErrors(codec: Codec, limit: nat, frame: bytes)
    requires frame != []
    ensures DecodedMeta(frame, false).Err? ==> FrameMessage(codec, limit, frame) == Err(DecodeFailed)
    ensures var r := DecodedMeta(frame, false);
            r.Ok? && r.value.typ == MSG_DATA ==>
              match FinalData(codec, limit, r.value.comp, r.value.data)
              case Ok(payload) => FrameMessage(codec, limit, frame) == Ok(Payload(payload))
              case Err(e) => FrameMessage(codec, limit, frame) == Err(e)
  {
    hide DecodedMeta, Decoded, FinalData;
  }

  /** While no frame is whole, the end of the stream is reported, or else that nothing has come yet. */
  lemma EndIsReported(codec: Codec, frame: bytes, k: nat, limit: nat, closes: bool, r: ReceiveResult, rest: bytes)
    requires WithinLimit([frame], limit) && frame != [] && k < |Framed(frame)|
    requires IsReceived(codec, limit, Framed(frame)[..k], closes, r, rest)
    ensures r == if closes then StreamClosed else Pending
  {
    hide ParseFrame, Framed;
    PartialIsAwaited(frame, k, limit);
  }
}
