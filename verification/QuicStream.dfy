/** Send accounting of a QUIC stream: written, sent and acknowledged bytes, and none lost between. */
module QuicStreams {
  import opened Bytes

  const INITIAL_BUFFER_SIZE := 16384
  const MAX_BUFFER_SIZE := 0x100_0000

  /**
    The stream's fields, with two histories: all bytes ever accepted from the application,
    and all bytes ever handed to the network, in that order.
   */
  datatype StreamState = StreamState(
    sendBuffer: bytes,
    capacity: nat,
    unacked: nat,
    streamOffset: nat,
    ackOffset: nat,
    written: bytes,
    offered: bytes)

  const Fresh := StreamState([], INITIAL_BUFFER_SIZE, 0, 0, 0, [], [])

  ghost predicate StreamInv(s: StreamState) {
    && s.ackOffset <= s.streamOffset <= |s.written|
    && s.sendBuffer == s.written[s.ackOffset..]
    && s.unacked == s.streamOffset - s.ackOffset
    && s.offered == s.written[..s.streamOffset]
    && |s.sendBuffer| <= s.capacity <= MAX_BUFFER_SIZE
  }

  /** The buffer is not grown while data is in flight. */
  function SendCapacity(s: StreamState): int {
    (if s.unacked > 0 then s.capacity else MAX_BUFFER_SIZE) - |s.sendBuffer|
  }

  /** Bytes offered to the network next: what is buffered behind the unacknowledged ones. */
  function UnsentBytes(s: StreamState): bytes {
    if s.unacked <= |s.sendBuffer| then s.sendBuffer[s.unacked..] else []
  }

  /** How the ring buffer grows is not part of this model; it grows only when it must. */
  predicate GrowsTo(s: StreamState, size: nat, capacity: nat) {
    size <= capacity <= MAX_BUFFER_SIZE && s.capacity <= capacity && (size <= s.capacity ==> capacity == s.capacity)
  }

  function TakenFrom(s: StreamState, data: bytes): nat {
    var free := SendCapacity(s);
    if free <= 0 then 0 else if |data| < free then |data| else free
  }

  function AfterWrite(s: StreamState, data: bytes, capacity: nat): StreamState {
    var chunk := data[..TakenFrom(s, data)];
    s.(sendBuffer := s.sendBuffer + chunk, capacity := capacity, written := s.written + chunk)
  }

  /** The network takes the first `n` unsent bytes. */
  function AfterSend(s: StreamState, n: nat): StreamState
    requires n <= |UnsentBytes(s)|
  {
    s.(unacked := s.unacked + n, streamOffset := s.streamOffset + n, offered := s.offered + UnsentBytes(s)[..n])
  }

  function AfterAck(s: StreamState, offset: nat, n: nat): StreamState
    requires n <= s.unacked && n <= |s.sendBuffer|
  {
    s.(sendBuffer := s.sendBuffer[n..], unacked := s.unacked - n, ackOffset := offset + n)
  }

  // ---------------------------------------------------------------- runs

  datatype Op =
    | Write(data: bytes, capacity: nat)
    | Send(count: nat)
    | Ack(offset: nat, count: nat)

  /** Sends take at most what is unsent; acks are contiguous and cover sent bytes only. */
  predicate Enabled(s: StreamState, op: Op) {
    match op
    case Write(data, capacity) => GrowsTo(s, |s.sendBuffer| + TakenFrom(s, data), capacity)
    case Send(n) => n <= |UnsentBytes(s)|
    case Ack(offset, n) => offset == s.ackOffset && n <= s.unacked && n <= |s.sendBuffer|
  }

  function Apply(s: StreamState, op: Op): StreamState
    requires Enabled(s, op)
  {
    match op
    case Write(data, capacity) => AfterWrite(s, data, capacity)
    case Send(n) => AfterSend(s, n)
    case Ack(offset, n) => AfterAck(s, offset, n)
  }

  lemma ApplyKeepsInv(s: StreamState, op: Op)
    requires StreamInv(s) && Enabled(s, op)
    ensures StreamInv(Apply(s, op))
  {
    var t := Apply(s, op);
    match op
    case Write(data, _) =>
      assert t.written[t.ackOffset..] == s.written[s.ackOffset..] + data[..TakenFrom(s, data)];
      assert t.written[..t.streamOffset] == s.written[..s.streamOffset];
    case Send(n) =>
      assert UnsentBytes(s) == s.written[s.streamOffset..];
      assert t.written[..t.streamOffset] == s.written[..s.streamOffset] + s.written[s.streamOffset..][..n];
    case Ack(_, n) =>
      assert s.written[s.ackOffset..][n..] == s.written[s.ackOffset + n..];
  }

  predicate IsRun(s: StreamState, ops: seq<Op>)
    decreases |ops|
  {
    ops == [] || (Enabled(s, ops[0]) && IsRun(Apply(s, ops[0]), ops[1..]))
  }

  function After(s: StreamState, ops: seq<Op>): StreamState
    requires IsRun(s, ops)
    decreases |ops|
  {
    if ops == [] then s else After(Apply(s, ops[0]), ops[1..])
  }

  lemma {:induction false} RunKeepsInv(s: StreamState, ops: seq<Op>)
    requires StreamInv(s) && IsRun(s, ops)
    ensures StreamInv(After(s, ops))
    decreases |ops|
  {
    if ops != [] {
      ApplyKeepsInv(s, ops[0]);
      RunKeepsInv(Apply(s, ops[0]), ops[1..]);
    }
  }

  /** What an operation adds to the bytes written by the application. */
  function WrittenIn(s: StreamState, op: Op): bytes {
    if op.Write? then op.data[..TakenFrom(s, op.data)] else []
  }

  /** What an operation hands to the network. */
  function OfferedIn(s: StreamState, op: Op): bytes
    requires Enabled(s, op)
  {
    if op.Send? then UnsentBytes(s)[..op.count] else []
  }

  function WrittenBy(s: StreamState, ops: seq<Op>): bytes
    requires IsRun(s, ops)
    decreases |ops|
  {
    if ops == [] then [] else WrittenIn(s, ops[0]) + WrittenBy(Apply(s, ops[0]), ops[1..])
  }

  function OfferedBy(s: StreamState, ops: seq<Op>): bytes
    requires IsRun(s, ops)
    decreases |ops|
  {
    if ops == [] then [] else OfferedIn(s, ops[0]) + OfferedBy(Apply(s, ops[0]), ops[1..])
  }

  lemma ApplyRecords(s: StreamState, op: Op)
    requires Enabled(s, op)
    ensures Apply(s, op).written == s.written + WrittenIn(s, op)
    ensures Apply(s, op).offered == s.offered + OfferedIn(s, op)
  {
  }

  lemma {:induction false} HistoriesAreRecords(s: StreamState, ops: seq<Op>)
    requires IsRun(s, ops)
    ensures After(s, ops).written == s.written + WrittenBy(s, ops)
    ensures After(s, ops).offered == s.offered + OfferedBy(s, ops)
    decreases |ops|
  {
    hide Enabled, Apply, WrittenIn, OfferedIn;
    if ops == [] {
      EmptyPlus(s.written);
      EmptyPlus(s.offered);
    } else {
      var t := Apply(s, ops[0]);
      ApplyRecords(s, ops[0]);
      HistoriesAreRecords(t, ops[1..]);
      Regroup(s.written, WrittenIn(s, ops[0]), WrittenBy(t, ops[1..]));
      Regroup(s.offered, OfferedIn(s, ops[0]), OfferedBy(t, ops[1..]));
    }
  }

  /** Where every written byte is, given all bytes written and all bytes offered to the network. */
  ghost predicate Conserved(s: StreamState, written: bytes, offered: bytes) {
    && s.ackOffset <= |written| && s.sendBuffer == written[s.ackOffset..]
    && s.unacked == s.streamOffset - s.ackOffset <= |s.sendBuffer|
    && |written| == s.ackOffset + s.unacked + |UnsentBytes(s)|
    && offered <= written && |offered| == s.streamOffset
    && SendCapacity(s) >= 0
  }

  lemma InvConserves(s: StreamState)
    requires StreamInv(s)
    ensures Conserved(s, s.written, s.offered)
  {
  }

  /**
    Conservation over any interleaving of writes, sends and contiguous acks: the send buffer
    holds exactly the written bytes not yet acknowledged; written = acknowledged +
    unacknowledged + unflushed; and the network was offered the written stream from its
    start, without gap or repeat. The capacity never goes negative.
   */
  lemma StreamConservation(ops: seq<Op>)
    requires IsRun(Fresh, ops)
    ensures Conserved(After(Fresh, ops), WrittenBy(Fresh, ops), OfferedBy(Fresh, ops))
  {
    hide After, WrittenBy, OfferedBy, IsRun, StreamInv, Conserved;
    FreshInv();
    RunKeepsInv(Fresh, ops);
    HistoriesAreRecords(Fresh, ops);
    InvConserves(After(Fresh, ops));
    EmptyPlus(WrittenBy(Fresh, ops));
    EmptyPlus(OfferedBy(Fresh, ops));
  }

  lemma FreshInv()
    ensures StreamInv(Fresh)
  {
  }

  lemma EmptyPlus(s: bytes)
    ensures [] + s == s && s + [] == s
  {
  }

  /**
    How much a write takes, in bytes: all of it while there is room, where the buffer may grow
    to 16 MiB if nothing is in flight and not at all if something is.
   */
  lemma WriteTakesWhatFits(s: StreamState, data: bytes)
    requires StreamInv(s)
    ensures var room := (if s.unacked == 0 then 0x100_0000 else s.capacity) - |s.sendBuffer|;
            && room >= 0
            && TakenFrom(s, data) == (if |data| <= room then |data| else room)
  {
  }

  // ---------------------------------------------------------------- the class

  class QuicStream {
    var sendBuffer: bytes
    var capacity: nat
    var unackedBytes: nat
    var streamOffset: nat
    var ackOffset: nat
    var closed: bool
    ghost var written: bytes
    ghost var offered: bytes

    ghost function State(): StreamState
      reads this
    {
      StreamState(sendBuffer, capacity, unackedBytes, streamOffset, ackOffset, written, offered)
    }

    ghost predicate Valid()
      reads this
    {
      StreamInv(State())
    }

    constructor ()
      ensures Valid() && State() == Fresh && !closed
    {
      sendBuffer, capacity := [], INITIAL_BUFFER_SIZE;
      unackedBytes, streamOffset, ackOffset, closed := 0, 0, 0, false;
      written, offered := [], [];
    }

    method UnflushedBytes() returns (n: nat)
      requires Valid()
      ensures n == if closed then 0 else |written| - streamOffset
    {
      n := if closed then 0 else |sendBuffer| - unackedBytes;
    }

    method Capacity() returns (n: nat)
      requires Valid()
      ensures n == SendCapacity(State())
    {
      n := (if unackedBytes > 0 then capacity else MAX_BUFFER_SIZE) - |sendBuffer|;
    }

    /** `grown` is the capacity the ring buffer chooses for the new size. */
    method Write(data: bytes, grown: nat) returns (n: nat)
      requires Valid() && GrowsTo(State(), |sendBuffer| + TakenFrom(State(), data), grown)
      modifies this
      ensures Valid() && closed == old(closed)
      ensures n == TakenFrom(old(State()), data)
      ensures State() == AfterWrite(old(State()), data, if n == 0 then old(capacity) else grown)
    {
      ghost var before := State();
      var maxWrite := Capacity();
      if maxWrite == 0 {
        n := 0;
        assert data[..0] == [];
        assert State() == AfterWrite(before, data, capacity);
        return;
      }
      n := if |data| < maxWrite then |data| else maxWrite;
      ApplyKeepsInv(before, Op.Write(data, grown));
      sendBuffer := sendBuffer + data[..n];
      capacity := if n == 0 then capacity else grown;
      written := written + data[..n];
      assert n == 0 ==> grown == before.capacity;
    }

    method PeekUnsentData() returns (s: bytes)
      requires Valid()
      ensures s == UnsentBytes(State()) == written[streamOffset..]
    {
      s := sendBuffer[unackedBytes..];
      assert written[ackOffset..][unackedBytes..] == written[streamOffset..];
    }

    method AdvanceSentData(n: nat)
      requires Valid() && n <= |UnsentBytes(State())|
      modifies this
      ensures Valid() && closed == old(closed)
      ensures State() == AfterSend(old(State()), n)
    {
      ApplyKeepsInv(State(), Send(n));
      offered := offered + UnsentBytes(State())[..n];
      unackedBytes := unackedBytes + n;
      streamOffset := streamOffset + n;
    }

    /** Acks are contiguous and never beyond what was sent; that is the QUIC library's promise. */
    method OnAck(offset: nat, ackedBytes: nat)
      requires Valid() && offset == ackOffset && ackedBytes <= unackedBytes
      modifies this
      ensures Valid() && closed == old(closed)
      ensures State() == AfterAck(old(State()), offset, ackedBytes)
    {
      ApplyKeepsInv(State(), Ack(offset, ackedBytes));
      sendBuffer := sendBuffer[ackedBytes..];
      unackedBytes := unackedBytes - ackedBytes;
      ackOffset := offset + ackedBytes;
      assert ackOffset <= streamOffset && unackedBytes == streamOffset - ackOffset;
    }
  }
}
