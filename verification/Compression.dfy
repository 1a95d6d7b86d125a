/**
  The optional compression step of the sender and its inverse at the receiver. The
  compressors themselves are parameters: any pair of functions of which one undoes the other.
 */
module Compression {
  import opened Wrappers
  import opened Bytes
  import opened MessageTypes

  datatype Codec = Codec(
    compress: (CompressionType, bytes) -> bytes,
    decompress: (CompressionType, bytes, nat) -> Option<bytes>)

  /** Decompressing to the right size undoes compressing, for every kind. */
  ghost predicate Lawful(codec: Codec) {
    forall kind, data :: codec.decompress(kind, codec.compress(kind, data), |data|) == Some(data)
  }

  /** The choice of compressor, from the size and a trial run of lz4. */
  function ShouldCompress(codec: Codec, data: bytes): Option<CompressionType> {
    var size := |data|;
    if size < 128 then None
    else
      var trial := |codec.compress(Lz4, data)|;
      if trial >= size && size < 1024 then None
      else if size >= 512 then Some(Zstd)
      else if trial + trial / 16 < size then Some(Zstd)
      else Some(Lz4)
  }

  /** Replaces payload and header, unless that would not make the message smaller. */
  function Compressed(codec: Codec, kind: CompressionType, msg: DataMessage): DataMessage {
    var size: u32 := |msg.data| % 0x1_0000_0000;
    var out := codec.compress(kind, msg.data[..size]);
    if |out| >= size then msg
    else msg.(data := out, comp := Some(CompressionHeader(kind, size)))
  }

  /** What the sender makes of an outgoing payload. */
  function Prepared(codec: Codec, payload: bytes, uncompressed: bool): DataMessage {
    var msg := DataMessage(payload, None, None);
    var kind := if uncompressed then None else ShouldCompress(codec, payload);
    if kind == None then msg else Compressed(codec, kind.value, msg)
  }

  /** The sender's message object, whose payload and header are replaced in place. */
  class OutgoingMessage {
    var data: bytes
    var comp: Option<CompressionHeader>
    var rel: Option<ReliabilityHeader>

    ghost function Value(): DataMessage
      reads this
    {
      DataMessage(data, comp, rel)
    }

    constructor (payload: bytes)
      ensures Value() == DataMessage(payload, None, None)
    {
      data, comp, rel := payload, None, None;
    }

    method DoCompress(codec: Codec, kind: CompressionType)
      modifies this
      ensures Value() == Compressed(codec, kind, old(Value()))
    {
      var uncSize: u32 := |data| % 0x1_0000_0000;
      var compressedData := codec.compress(kind, data[..uncSize]);
      if |compressedData| >= uncSize {
        return;
      }
      data := compressedData;
      comp := Some(CompressionHeader(kind, uncSize));
    }

    method Prepare(codec: Codec, uncompressed: bool)
      requires comp == None && rel == None
      modifies this
      ensures Value() == Prepared(codec, old(data), uncompressed)
    {
      if !uncompressed {
        var kind := ShouldCompress(codec, data);
        if kind.Some? {
          DoCompress(codec, kind.value);
        }
      }
    }
  }

  /** The receiver's side: decompression to the announced size, within the size limit. */
  function FinalData(codec: Codec, limit: nat, comp: Option<CompressionHeader>, data: bytes): Result<bytes,
                     TransportError> {
    if comp == None then Ok(data)
    else if comp.value.uncompressedSize > limit then Err(MessageTooLong)
    else
      var plain := codec.decompress(comp.value.kind, data, comp.value.uncompressedSize);
      if plain == None then Err(DecodeFailed) else Ok(plain.value)
  }

  /**
    The receiver gets back the payload, except that a compressed message beyond its size
    limit is refused. Payloads of 4 GiB and more are outside: their size does not fit the header.
   */
  lemma FinalDataUndoesPrepared(codec: Codec, limit: nat, payload: bytes, uncompressed: bool)
    requires Lawful(codec) && |payload| < 0x1_0000_0000
    ensures var msg := Prepared(codec, payload, uncompressed);
            FinalData(codec, limit, msg.comp, msg.data)
            == if msg.comp.Some? && |payload| > limit then Err(MessageTooLong) else Ok(payload)
  {
    assert payload[..|payload|] == payload;
  }

  /** Compression is kept exactly where it shortens the message. */
  lemma PreparedIsNoLonger(codec: Codec, payload: bytes, uncompressed: bool)
    ensures var msg := Prepared(codec, payload, uncompressed);
            |msg.data| <= |payload| && (msg.comp.Some? <==> |msg.data| < |payload|)
  {
  }

  /** What compressing with a kind makes of a payload: that, if it is shorter, else the payload as it is. */
  ghost predicate IsCompressedWith(codec: Codec, kind: CompressionType, payload: bytes, msg: DataMessage)
    requires |payload| < 0x1_0000_0000
  {
    var packed := codec.compress(kind, payload);
    msg == if |packed| < |payload| then DataMessage(packed, Some(CompressionHeader(kind, |payload|)), None)
           else DataMessage(payload, None, None)
  }

  /**
    When which compressor is used, by the size of the payload and of what lz4 makes of it:
    none below 128 bytes, nor below 1024 if lz4 does not help; zstd from 512 bytes on, and
    below that if lz4 saves more than a sixteenth of what it leaves; else lz4.
   */
  lemma CompressorBySize(codec: Codec, payload: bytes)
    requires |payload| < 0x1_0000_0000
    ensures Prepared(codec, payload, true) == DataMessage(payload, None, None)
    ensures var msg, n, trial := Prepared(codec, payload, false), |payload|, |codec.compress(Lz4, payload)|;
            && (n < 128 || (trial >= n && n < 1024) ==> msg == DataMessage(payload, None, None))
            && ((512 <= n < 1024 && trial < n) || n >= 1024 ==> IsCompressedWith(codec, Zstd, payload, msg))
            && (128 <= n < 512 && trial + trial / 16 < n ==> IsCompressedWith(codec, Zstd, payload, msg))
            && (128 <= n < 512 && trial < n <= trial + trial / 16 ==> IsCompressedWith(codec, Lz4, payload, msg))
  {
    assert payload[..|payload|] == payload;
  }

  /** What the receiver refuses: a message announced beyond its limit, and one that does not unpack; nothing else. */
  lemma RefusedData(codec: Codec, limit: nat, kind: CompressionType, size: u32, data: bytes)
    ensures FinalData(codec, limit, None, data) == Ok(data)
    ensures var r := FinalData(codec, limit, Some(CompressionHeader(kind, size)), data);
            && (size > limit ==> r == Err(MessageTooLong))
            && (size <= limit && codec.decompress(kind, data, size) == None ==> r == Err(DecodeFailed))
            && (size <= limit && codec.decompress(kind, data, size).Some? ==>
                  r == Ok(codec.decompress(kind, data, size).value))
  {
  }
}
