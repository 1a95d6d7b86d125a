/**
  The handshake event by event, for any server: what each kind of message does to a handshake
  that is still going on, in terms of the messages that came before it.
 */
module HandshakeCases {
  import opened Wrappers
  import opened Bytes
  import opened ControlMessages
  import opened HandshakeAssembly

  // ---------------------------------------------------------------- what came so far

  predicate IsChunk(e: Event) {
    e.Arrived? && e.msg.HandshakeFinish? && e.msg.qdb.Some?
  }

  predicate IsOther(e: Event) {
    e.Arrived? && !e.msg.HandshakeFinish? && !e.msg.HandshakeFailed?
  }

  /** The messages that have nothing to do with the handshake, in order of arrival. */
  function Others(events: seq<Event>): seq<ControlMessage> {
    if events == [] then []
    else
      var last := events[|events| - 1];
      Others(events[..|events| - 1]) + if IsOther(last) then [last.msg] else []
  }

  /** The messages with a chunk of the database, in order of arrival. */
  function ChunkMessages(events: seq<Event>): (ms: seq<ControlMessage>)
    ensures forall i :: 0 <= i < |ms| ==> ms[i].HandshakeFinish? && ms[i].qdb.Some?
  {
    if events == [] then []
    else
      var last := events[|events| - 1];
      ChunkMessages(events[..|events| - 1]) + if IsChunk(last) then [last.msg] else []
  }

  predicate IsKnown(chunks: seq<QdbData>, offset: u32) {
    exists i :: 0 <= i < |chunks| && chunks[i].chunkOffset == offset
  }

  /** Of the chunks the first at each offset. */
  function Taken(events: seq<Event>): seq<QdbData> {
    if events == [] then []
    else
      var before, last := Taken(events[..|events| - 1]), events[|events| - 1];
      before + if IsChunk(last) && !IsKnown(before, last.msg.qdb.value.chunkOffset) then [last.msg.qdb.value] else []
  }

  function TotalSize(chunks: seq<QdbData>): nat {
    if chunks == [] then 0 else chunks[|chunks| - 1].chunkSize as int + TotalSize(chunks[..|chunks| - 1])
  }

  // ---------------------------------------------------------------- putting chunks together

  predicate Covers(c: QdbData, p: nat) {
    c.chunkOffset <= p < c.chunkOffset as int + |c.chunkData|
  }

  ghost predicate IsLastAt(chunks: seq<QdbData>, k: nat, p: nat) {
    k < |chunks| && Covers(chunks[k], p) && forall j :: k < j < |chunks| ==> !Covers(chunks[j], p)
  }

  ghost predicate NoneAt(chunks: seq<QdbData>, p: nat) {
    forall j :: 0 <= j < |chunks| ==> !Covers(chunks[j], p)
  }

  function CoveringByte(c: QdbData, p: nat): byte
    requires Covers(c, p)
  {
    c.chunkData[p - c.chunkOffset]
  }

  /** `x` is the byte at `p` of the last chunk which covers it, or `otherwise` without one. */
  ghost predicate IsByteAt(x: byte, otherwise: byte, chunks: seq<QdbData>, p: nat) {
    && (forall k: nat :: IsLastAt(chunks, k, p) ==> x == CoveringByte(chunks[k], p))
    && (NoneAt(chunks, p) ==> x == otherwise)
  }

  ghost predicate IsPutTogether(data: bytes, chunks: seq<QdbData>) {
    forall p: nat :: p < |data| ==> IsByteAt(data[p], 0, chunks, p)
  }

  lemma OverlaidAt(buffer: bytes, c: QdbData, p: nat)
    requires p < |buffer| && c.chunkOffset as int + |c.chunkData| <= |buffer|
    ensures |Overlaid(buffer, c)| == |buffer|
    ensures Overlaid(buffer, c)[p] == if Covers(c, p) then CoveringByte(c, p) else buffer[p]
  {
  }

  /** One chunk more in front counts only where no other covers. */
  lemma ByteWithFirst(x: byte, next: byte, otherwise: byte, chunks: seq<QdbData>, p: nat)
    requires chunks != [] && IsByteAt(x, next, chunks[1..], p)
    requires next == if Covers(chunks[0], p) then CoveringByte(chunks[0], p) else otherwise
    ensures IsByteAt(x, otherwise, chunks, p)
  {
    hide Covers;
    var rest := chunks[1..];
    assert forall j :: 0 <= j < |rest| ==> rest[j] == chunks[j + 1];
    forall k: nat | IsLastAt(chunks, k, p)
      ensures Covers(chunks[k], p)
      ensures x == CoveringByte(chunks[k], p)
    {
      if k > 0 {
        assert IsLastAt(rest, k - 1, p);
      } else {
        assert NoneAt(rest, p);
      }
    }
    if NoneAt(chunks, p) {
      assert NoneAt(rest, p);
    }
  }

  lemma {:induction false} CombinedAt(buffer: bytes, chunks: seq<QdbData>, p: nat)
    requires p < |buffer|
    requires forall i :: 0 <= i < |chunks| ==> chunks[i].chunkOffset as int + |chunks[i].chunkData| <= |buffer|
    ensures |Combined(buffer, chunks)| == |buffer| && IsByteAt(Combined(buffer, chunks)[p], buffer[p], chunks, p)
    decreases |chunks|
  {
    hide Overlaid, IsByteAt;
    if chunks != [] {
      var next := Overlaid(buffer, chunks[0]);
      OverlaidAt(buffer, chunks[0], p);
      CombinedAt(next, chunks[1..], p);
      ByteWithFirst(Combined(buffer, chunks)[p], next[p], buffer[p], chunks, p);
    } else {
      NoByteAt(buffer[p], p);
    }
  }

  lemma NoByteAt(x: byte, p: nat)
    ensures IsByteAt(x, x, [], p)
  {
  }

  /** A chunk that does not lie within the announced size, in the program's 32-bit arithmetic. */
  predicate IsOutside(c: QdbData, size: u32) {
    c.chunkOffset > size || (c.chunkOffset as int + c.chunkSize as int) % 0x1_0000_0000 > size
  }

  /**
    What the chunks held lead to: nothing while their sizes do not add up to the announced
    one; then a failure if one of them lies outside, else the database put together from them.
   */
  ghost predicate LeadTo(chunks: seq<QdbData>, id: u64, uncompressed: u32, size: u32, o: Option<Outcome>) {
    if TotalSize(chunks) != size then o == None
    else if exists i :: 0 <= i < |chunks| && IsOutside(chunks[i], size) then o == Some(Failed)
    else
      && o.Some? && o.value.Finished? && o.value.connectionId == id && o.value.qdb.Some?
      && var qdb := o.value.qdb.value;
      && qdb.uncompressedSize == uncompressed && qdb.compressedSize == size && qdb.chunkOffset == 0 && qdb.chunkSize == size
      && |qdb.chunkData| == size && IsPutTogether(qdb.chunkData, chunks)
  }

  lemma {:induction false} TotalIsSum(chunks: seq<QdbData>)
    ensures TotalSize(chunks) == SizeSum(chunks)
    decreases |chunks|
  {
    if chunks != [] {
      TotalIsSum(chunks[..|chunks| - 1]);
    }
  }

  lemma ConclusionLeadsTo(a: Assembly)
    requires a.chunks != [] && AssemblyOk(a)
    ensures LeadTo(a.chunks, a.connectionId, a.uncompressedSize, a.compressedSize, Conclusion(a))
  {
    TotalIsSum(a.chunks);
    hide SizeSum, TotalSize;
    if SizeSum(a.chunks) == a.compressedSize {
      var size, cs := a.compressedSize, a.chunks;
      forall i | 0 <= i < |cs|
        ensures OutOfBounds(cs[i], size) <==> IsOutside(cs[i], size)
        ensures !IsOutside(cs[i], size) ==> cs[i].chunkOffset as int + |cs[i].chunkData| <= size
      {
        EachWithinSum(cs, i);
      }
      hide OutOfBounds, IsOutside;
      if forall i :: 0 <= i < |cs| ==> !IsOutside(cs[i], size) {
        CombinedIsPutTogether(cs, size);
      }
    }
  }

  lemma CombinedIsPutTogether(chunks: seq<QdbData>, size: u32)
    requires forall i :: 0 <= i < |chunks| ==> chunks[i].chunkOffset as int + |chunks[i].chunkData| <= size
    ensures var data := Combined(Zeros(size), chunks); |data| == size && IsPutTogether(data, chunks)
  {
    hide Combined, IsByteAt;
    var data := Combined(Zeros(size), chunks);
    CombinedLength(Zeros(size), chunks);
    forall p: nat | p < |data|
      ensures IsByteAt(data[p], 0, chunks, p)
    {
      CombinedAt(Zeros(size), chunks, p);
    }
  }

  lemma {:induction false} CombinedLength(buffer: bytes, chunks: seq<QdbData>)
    ensures |Combined(buffer, chunks)| == |buffer|
    decreases |chunks|
  {
    if chunks != [] {
      CombinedLength(Overlaid(buffer, chunks[0]), chunks[1..]);
    }
  }

  // ---------------------------------------------------------------- one event more

  lemma {:induction false} OneMoreRound(a: Assembly, events: seq<Event>, e: Event)
    requires Rounds(a, events).1 == None
    ensures Rounds(a, events + [e]) == Round(Rounds(a, events).0, e)
    decreases |events|
  {
    hide Round;
    var all := events + [e];
    if events == [] {
      assert all[0] == e && all[1..] == [];
      var (b, o) := Round(a, e);
      assert Rounds(b, []) == (b, None);
    } else {
      assert all[0] == events[0] && all[1..] == events[1..] + [e];
      OneMoreRound(Round(a, events[0]).0, events[1..], e);
    }
  }

  /** Once the handshake has ended, nothing that comes later matters. */
  lemma {:induction false} EndedStaysEnded(a: Assembly, events: seq<Event>, more: seq<Event>)
    requires Rounds(a, events).1.Some?
    ensures Rounds(a, events + more) == Rounds(a, events)
    decreases |events|
  {
    hide Round;
    var all := events + more;
    assert all[0] == events[0] && all[1..] == events[1..] + more;
    if Round(a, events[0]).1 == None {
      EndedStaysEnded(Round(a, events[0]).0, events[1..], more);
    }
  }

  /** If it has not ended, no earlier prefix has. */
  lemma GoingOnBefore(events: seq<Event>, e: Event)
    requires Rounds(Empty, events + [e]).1 == None
    ensures Rounds(Empty, events).1 == None
  {
    if Rounds(Empty, events).1.Some? {
      EndedStaysEnded(Empty, events, [e]);
    }
  }

  /** What the program has collected while the handshake goes on. */
  ghost predicate HasCollected(events: seq<Event>, a: Assembly) {
    && a.unexpected == Others(events) && a.chunks == Taken(events) && AssemblyOk(a)
    && (ChunkMessages(events) == [] <==> a.chunks == [])
    && (a.chunks != [] ==>
          var first := ChunkMessages(events)[0];
          && a.connectionId == first.connectionId
          && a.uncompressedSize == first.qdb.value.uncompressedSize && a.compressedSize == first.qdb.value.compressedSize)
  }

  lemma SplitLast(events: seq<Event>, e: Event)
    ensures (events + [e])[..|events + [e]| - 1] == events && (events + [e])[|events + [e]| - 1] == e
  {
  }

  lemma Knowns(chunks: seq<QdbData>, offset: u32)
    ensures IsKnown(chunks, offset) <==> HasOffset(chunks, offset)
  {
  }

  /** Any event but the end keeps the record. */
  lemma CollectsOne(events: seq<Event>, a: Assembly, e: Event)
    requires HasCollected(events, a) && EventOk(e) && Round(a, e).1 == None
    ensures HasCollected(events + [e], Round(a, e).0)
  {
    hide Conclusion, IsKnown, HasOffset;
    SplitLast(events, e);
    if IsChunk(e) {
      Knowns(a.chunks, e.msg.qdb.value.chunkOffset);
      NoneKnown(e.msg.qdb.value.chunkOffset);
      assert [] + [e.msg.qdb.value] == [e.msg.qdb.value];
    }
    assert a.chunks + [] == a.chunks && a.unexpected + [] == a.unexpected;
  }

  lemma NoneKnown(offset: u32)
    ensures !IsKnown([], offset)
  {
  }

  lemma {:induction false} Collected(events: seq<Event>)
    requires Rounds(Empty, events).1 == None && forall i :: 0 <= i < |events| ==> EventOk(events[i])
    ensures HasCollected(events, Rounds(Empty, events).0)
    decreases |events|
  {
    hide Round, HasCollected, EventOk;
    if events == [] {
      CollectedNone();
    } else {
      var n := |events| - 1;
      var before, e := events[..n], events[n];
      assert events == before + [e];
      GoingOnBefore(before, e);
      Collected(before);
      OneMoreRound(Empty, before, e);
      CollectsOne(before, Rounds(Empty, before).0, e);
    }
  }

  lemma CollectedNone()
    ensures HasCollected([], Empty)
  {
  }

  /** What comes next of a handshake that goes on, from what came before. */
  ghost predicate NextOutcome(events: seq<Event>, e: Event, o: Option<Outcome>) {
    match e
    case Timeout => o == None
    case Arrived(msg) =>
      if msg.HandshakeFailed? then o == Some(Refused(msg))
      else if !msg.HandshakeFinish? then o == None
      else if msg.qdb == None then o == Some(Finished(msg.connectionId, None))
      else
        var ms, c := ChunkMessages(events), msg.qdb.value;
        if ms == [] then
          if c.compressedSize > 0x10_0000 then o == Some(Failed)
          else LeadTo([c], msg.connectionId, c.uncompressedSize, c.compressedSize, o)
        else if msg.connectionId != ms[0].connectionId then o == Some(Failed)
        else if IsKnown(Taken(events), c.chunkOffset) then o == None
        else LeadTo(Taken(events) + [c], ms[0].connectionId, ms[0].qdb.value.uncompressedSize,
                    ms[0].qdb.value.compressedSize, o)
  }

  lemma RoundHasOutcome(events: seq<Event>, a: Assembly, e: Event)
    requires HasCollected(events, a) && EventOk(e)
    ensures NextOutcome(events, e, Round(a, e).1) && Round(a, e).0.unexpected == Others(events + [e])
  {
    hide Conclusion, IsKnown, HasOffset, LeadTo, Taken, ChunkMessages;
    SplitLast(events, e);
    assert a.unexpected + [] == a.unexpected;
    if IsChunk(e) {
      var c := e.msg.qdb.value;
      Knowns(a.chunks, c.chunkOffset);
      var b := Round(a, e).0;
      if b.chunks != [] && AssemblyOk(b) {
        ConclusionLeadsTo(b);
      }
    }
  }

  /**
    For every server and every prefix of events that has not ended the handshake, the next
    event does exactly this: a timeout or another message goes on; a refusal ends it with that
    message; a finish without a database ends it with its own connection id; the first chunk
    fails it if it announces too much; a later one fails it with another connection id than
    the first, is ignored at a known offset, and else is taken; and once the sizes add up it
    ends, with the chunks put together. The other messages are kept in order of arrival.
   */
  lemma HandshakeStep(events: seq<Event>, e: Event)
    requires Rounds(Empty, events).1 == None
    requires EventOk(e) && forall i :: 0 <= i < |events| ==> EventOk(events[i])
    ensures var (a, o) := Rounds(Empty, events + [e]); NextOutcome(events, e, o) && a.unexpected == Others(events + [e])
  {
    hide Round, HasCollected, NextOutcome;
    Collected(events);
    OneMoreRound(Empty, events, e);
    RoundHasOutcome(events, Rounds(Empty, events).0, e);
  }

  /** A server whose database the client has: its connection id is the one in the answer. */
  lemma CurrentDatabaseFinishes(id: u64)
    ensures Rounds(Empty, [Arrived(HandshakeFinish(id, None))]).1 == Some(Finished(id, None))
  {
    hide Round, LeadTo, ChunkMessages, Taken, Others, IsKnown;
    var e := Arrived(HandshakeFinish(id, None));
    assert [] + [e] == [e];
    HandshakeStep([], e);
  }
}
