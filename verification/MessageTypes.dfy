/** Message metadata, headers and protocol constants. */
module MessageTypes {
  import opened Wrappers
  import opened Bytes

  // Message types; a data message has the top bit set
  const MSG_PING: byte := 1
  const MSG_PONG: byte := 2
  const MSG_KEEPALIVE: byte := 3
  const MSG_KEEPALIVE_RESPONSE: byte := 4
  const MSG_HANDSHAKE_START: byte := 5
  const MSG_HANDSHAKE_FINISH: byte := 6
  const MSG_HANDSHAKE_FAILURE: byte := 7
  const MSG_CLIENT_CLOSE: byte := 8
  const MSG_SERVER_CLOSE: byte := 9
  const MSG_CLIENT_RECONNECT: byte := 10
  const MSG_CONNECTION_ERROR: byte := 11
  const MSG_QDB_CHUNK_REQUEST: byte := 12
  const MSG_QDB_CHUNK_RESPONSE: byte := 13
  const MSG_RECONNECT_SUCCESS: byte := 14
  const MSG_RECONNECT_FAILURE: byte := 15
  const MSG_CONNECTION_CONTROL: byte := 16
  const MSG_PADDING: byte := 127
  const MSG_DATA: byte := 0x80

  const CONNCTL_SET_MTU: u16 := 0x0001
  const CONNCTL_PMTUD_PROBE: u16 := 0x0040

  const MAX_ACKS := 8
  const UDP_SAFE_MTU := 1200
  const LAST_FRAGMENT_MASK := 0x8000

  datatype CompressionType = Zstd | ZstdNoDict | Lz4

  datatype CompressionHeader = CompressionHeader(kind: CompressionType, uncompressedSize: u32)

  /**
    `ackCount` is the count field of the wire; only the first eight acks have room in the
    header, so a decoded header can announce more acks than it holds.
   */
  datatype ReliabilityHeader = ReliabilityHeader(messageId: u16, ackCount: u16, acks: seq<u16>) {
    /** The header holds as many acks as it announces, so that going through them stays inside. */
    predicate Complete() {
      |acks| == ackCount
    }

    predicate Valid() {
      ackCount <= MAX_ACKS && Complete()
    }
  }

  function HeldAcks(ackCount: u16): nat {
    if ackCount < MAX_ACKS then ackCount else MAX_ACKS
  }

  datatype FragmentationHeader = FragmentationHeader(messageId: u16, fragmentIndex: u16, lastFragment: bool)

  datatype MessageMeta = MessageMeta(
    typ: byte,
    comp: Option<CompressionHeader>,
    rel: Option<ReliabilityHeader>,
    frag: Option<FragmentationHeader>,
    data: bytes,
    dataOffset: nat)

  datatype DataMessage = DataMessage(data: bytes, comp: Option<CompressionHeader>, rel: Option<ReliabilityHeader>)

  datatype TransportError =
    | TooUnreliable
    | DefragmentationError
    | HandshakeFailure
    | MessageTooLong
    | Closed
    | DecodeFailed
    | ZeroLengthMessage
}
