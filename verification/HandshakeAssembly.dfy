/**
  The UDP handshake: the server's answer may come in chunks of its database, in any order and
  repeatedly; the client collects them until their sizes add up.
 */
module HandshakeAssembly {
  import opened Wrappers
  import opened Bytes
  import opened ControlMessages
  import opened FragmentProofs

  const MAX_QDB_SIZE := 0x10_0000

  datatype Event = Timeout | Arrived(msg: ControlMessage)

  datatype Outcome =
    | Refused(msg: ControlMessage)
    | Finished(connectionId: u64, qdb: Option<QdbData>)
    | Failed

  /** The chunks so far, and what the first one announced. */
  datatype Assembly = Assembly(
    connectionId: u64,
    uncompressedSize: u32,
    compressedSize: u32,
    chunks: seq<QdbData>,
    unexpected: seq<ControlMessage>)

  const Empty := Assembly(0, 0, 0, [], [])

  function SizeSum(chunks: seq<QdbData>): nat {
    if chunks == [] then 0 else SizeSum(chunks[..|chunks| - 1]) + chunks[|chunks| - 1].chunkSize
  }

  predicate HasOffset(chunks: seq<QdbData>, offset: u32) {
    exists i :: 0 <= i < |chunks| && chunks[i].chunkOffset == offset
  }

  /** The bounds test, in 32-bit arithmetic as the program computes it. */
  predicate OutOfBounds(c: QdbData, size: u32) {
    c.chunkOffset > size || (c.chunkOffset as int + c.chunkSize) % 0x1_0000_0000 > size
  }

  function Overlaid(buffer: bytes, c: QdbData): bytes {
    if c.chunkOffset as int + |c.chunkData| <= |buffer| then
      buffer[..c.chunkOffset] + c.chunkData + buffer[c.chunkOffset as int + |c.chunkData|..]
    else buffer
  }

  function Combined(buffer: bytes, chunks: seq<QdbData>): bytes
    decreases |chunks|
  {
    if chunks == [] then buffer else Combined(Overlaid(buffer, chunks[0]), chunks[1..])
  }

  function Zeros(n: nat): (s: bytes)
    ensures |s| == n
  {
    seq(n, _ => 0)
  }

  /** Once the sizes add up, the chunks are combined, unless one lies outside the announced size. */
  function Conclusion(a: Assembly): Option<Outcome> {
    if SizeSum(a.chunks) != a.compressedSize then None
    else if exists i :: 0 <= i < |a.chunks| && OutOfBounds(a.chunks[i], a.compressedSize) then Some(Failed)
    else
      var data := Combined(Zeros(a.compressedSize), a.chunks);
      Some(Finished(a.connectionId, Some(QdbData(a.uncompressedSize, a.compressedSize, 0, a.compressedSize, data))))
  }

  /** One round of the loop: the new state, and the outcome if it ends the handshake. */
  function Round(a: Assembly, e: Event): (Assembly, Option<Outcome>) {
    if e.Timeout? then (a, None)
    else if e.msg.HandshakeFailed? then (a, Some(Refused(e.msg)))
    else if !e.msg.HandshakeFinish? then (a.(unexpected := a.unexpected + [e.msg]), None)
    else if e.msg.qdb == None then (a, Some(Finished(e.msg.connectionId, None)))
    else
      var c := e.msg.qdb.value;
      if a.chunks == [] then
        var b := Assembly(e.msg.connectionId, c.uncompressedSize, c.compressedSize, [c], a.unexpected);
        if c.compressedSize > MAX_QDB_SIZE then (b, Some(Failed)) else (b, Conclusion(b))
      else if e.msg.connectionId != a.connectionId then (a, Some(Failed))
      else if HasOffset(a.chunks, c.chunkOffset) then (a, None)
      else
        var b := a.(chunks := a.chunks + [c]);
        (b, Conclusion(b))
  }

  /** All rounds, up to the first that ends the handshake. */
  function Rounds(a: Assembly, events: seq<Event>): (Assembly, Option<Outcome>)
    decreases |events|
  {
    if events == [] then (a, None)
    else
      var (b, outcome) := Round(a, events[0]);
      if outcome.Some? then (b, outcome) else Rounds(b, events[1..])
  }

  /** The decoder delivers chunks whose data has the announced size. */
  ghost predicate EventOk(e: Event) {
    e.Arrived? && e.msg.HandshakeFinish? && e.msg.qdb.Some? ==> |e.msg.qdb.value.chunkData| == e.msg.qdb.value.chunkSize
  }

  /** So it is for every message the decoder yields. */
  lemma DecodedIsEventOk(typ: byte, s: bytes)
    ensures Decoded(typ, s).Ok? ==> EventOk(Arrived(Decoded(typ, s).value.0))
  {
  }

  ghost predicate AssemblyOk(a: Assembly) {
    && (forall i :: 0 <= i < |a.chunks| ==> |a.chunks[i].chunkData| == a.chunks[i].chunkSize)
    && (a.chunks != [] ==> a.compressedSize <= MAX_QDB_SIZE)
  }

  lemma {:induction false} EachWithinSum(chunks: seq<QdbData>, i: nat)
    requires i < |chunks|
    ensures chunks[i].chunkSize <= SizeSum(chunks)
    decreases |chunks|
  {
    var init := chunks[..|chunks| - 1];
    if i < |init| {
      EachWithinSum(init, i);
    }
  }

  // ---------------------------------------------------------------- the loop

  /**
    The handshake over a script of what happens: poll timeouts, which resend the request, and
    messages. For any server, every chunk is copied within the buffer. `queued` are the
    messages that came behind the last received one in its datagram: on finishing, the queue
    they are in is replaced by the unexpected messages, and they are lost.
   */
  method PerformHandshake(events: seq<Event>, queued: seq<ControlMessage>)
    returns (outcome: Option<Outcome>, pending: seq<ControlMessage>)
    requires forall i :: 0 <= i < |events| ==> EventOk(events[i])
    ensures var (a, o) := Rounds(Empty, events);
            && outcome == o
            && pending == (if o.Some? && o.value.Finished? then a.unexpected else queued)
  {
    hide Conclusion;
    var a := Empty;
    for i := 0 to |events|
      invariant AssemblyOk(a) && Rounds(Empty, events) == Rounds(a, events[i..])
    {
      assert events[i..][0] == events[i] && events[i..][1..] == events[i + 1..];
      match events[i]
      case Timeout =>
      case Arrived(msg) =>
        if msg.HandshakeFailed? {
          return Some(Refused(msg)), queued;
        } else if !msg.HandshakeFinish? {
          a := a.(unexpected := a.unexpected + [msg]);
          continue;
        }
        if msg.qdb == None {
          return Some(Finished(msg.connectionId, None)), a.unexpected;
        }
        var c := msg.qdb.value;
        if a.chunks == [] {
          a := Assembly(msg.connectionId, c.uncompressedSize, c.compressedSize, [c], a.unexpected);
          if c.compressedSize > MAX_QDB_SIZE {
            return Some(Failed), queued;
          }
        } else {
          if msg.connectionId != a.connectionId {
            return Some(Failed), queued;
          }
          if HasOffset(a.chunks, c.chunkOffset) {
            continue;
          }
          a := a.(chunks := a.chunks + [c]);
        }
        var done := Conclude(a);
        if done.Some? {
          return done, if done.value.Finished? then a.unexpected else queued;
        }
    }
    outcome, pending := None, queued;
  }

  method Conclude(a: Assembly) returns (outcome: Option<Outcome>)
    requires AssemblyOk(a) && a.chunks != []
    ensures outcome == Conclusion(a)
  {
    var sizeSum := 0;
    for i := 0 to |a.chunks|
      invariant sizeSum == SizeSum(a.chunks[..i])
    {
      assert a.chunks[..i + 1][..i] == a.chunks[..i];
      sizeSum := sizeSum + a.chunks[i].chunkSize;
    }
    assert a.chunks[..|a.chunks|] == a.chunks;
    if sizeSum != a.compressedSize {
      return None;
    }
    outcome := Combine(a);
  }

  /** The buffer is zeroed; every chunk is checked, then copied to its place. */
  method Combine(a: Assembly) returns (outcome: Option<Outcome>)
    requires AssemblyOk(a) && a.chunks != [] && SizeSum(a.chunks) == a.compressedSize
    ensures outcome == Conclusion(a)
  {
    hide SizeSum;
    var combined := new byte[a.compressedSize](_ => 0);
    assert combined[..] == Zeros(a.compressedSize);
    for i := 0 to |a.chunks|
      invariant forall j :: 0 <= j < i ==> !OutOfBounds(a.chunks[j], a.compressedSize)
      invariant Combined(combined[..], a.chunks[i..]) == Combined(Zeros(a.compressedSize), a.chunks)
    {
      hide Overlaid;
      var c := a.chunks[i];
      if OutOfBounds(c, a.compressedSize) {
        return Some(Failed);
      }
      EachWithinSum(a.chunks, i);
      assert a.chunks[i..][0] == c && a.chunks[i..][1..] == a.chunks[i + 1..];
      CopyChunk(combined, c);
    }
    outcome := Some(Finished(a.connectionId,
      Some(QdbData(a.uncompressedSize, a.compressedSize, 0, a.compressedSize, combined[..]))));
  }

  method CopyChunk(buffer: array<byte>, c: QdbData)
    requires c.chunkOffset as int + |c.chunkData| <= buffer.Length
    modifies buffer
    ensures buffer[..] == Overlaid(old(buffer[..]), c)
  {
    forall i | 0 <= i < |c.chunkData| {
      buffer[c.chunkOffset as int + i] := c.chunkData[i];
    }
  }

  // ---------------------------------------------------------------- a server that tiles its data

  predicate IsTiling(tiles: seq<bytes>, data: bytes) {
    && Flatten(tiles) == data && 1 <= |data| <= MAX_QDB_SIZE
    && forall i :: 0 <= i < |tiles| ==> tiles[i] != []
  }

  function TileOffset(tiles: seq<bytes>, i: nat): nat
    requires i <= |tiles|
  {
    if i == 0 then 0 else TileOffset(tiles, i - 1) + |tiles[i - 1]|
  }

  ghost predicate IsTile(c: QdbData, tiles: seq<bytes>, data: bytes, size: u32, i: nat) {
    && i < |tiles|
    && c.uncompressedSize == size && c.compressedSize == |data|
    && c.chunkOffset == TileOffset(tiles, i) && c.chunkSize == |tiles[i]| && c.chunkData == tiles[i]
  }

  lemma {:induction false} FlattenAppend(a: seq<bytes>, b: seq<bytes>)
    ensures Flatten(a + b) == Flatten(a) + Flatten(b)
  {
    if a == [] {
      assert a + b == b;
    } else {
      assert (a + b)[1..] == a[1..] + b;
      FlattenAppend(a[1..], b);
    }
  }

  lemma {:induction false} TileOffsetIsLength(tiles: seq<bytes>, i: nat)
    requires i <= |tiles|
    ensures TileOffset(tiles, i) == |Flatten(tiles[..i])|
  {
    if i > 0 {
      TileOffsetIsLength(tiles, i - 1);
      assert tiles[..i] == tiles[..i - 1] + [tiles[i - 1]];
      FlattenAppend(tiles[..i - 1], [tiles[i - 1]]);
      assert Flatten([tiles[i - 1]]) == tiles[i - 1] + Flatten([tiles[i - 1]][1..]);
    }
  }

  /** Tile i is the slice of the data at its offset. */
  lemma TileIsSlice(tiles: seq<bytes>, i: nat)
    requires i < |tiles|
    ensures var data, o := Flatten(tiles), TileOffset(tiles, i);
            o + |tiles[i]| <= |data| && data[o..o + |tiles[i]|] == tiles[i]
  {
    hide Flatten, TileOffset;
    TileOffsetIsLength(tiles, i);
    var init, rest := tiles[..i], tiles[i..];
    assert tiles == init + rest;
    FlattenAppend(init, rest);
    FlattenCons(rest);
    SliceMiddle(Flatten(init), tiles[i], Flatten(rest[1..]));
  }

  lemma FlattenCons(pieces: seq<bytes>)
    requires pieces != []
    ensures Flatten(pieces) == pieces[0] + Flatten(pieces[1..])
  {
  }

  lemma SliceMiddle(a: bytes, b: bytes, c: bytes)
    ensures (a + (b + c))[|a|..|a| + |b|] == b
  {
  }

  lemma {:induction false} OffsetsIncrease(tiles: seq<bytes>, i: nat, j: nat)
    requires i < j <= |tiles| && forall k :: 0 <= k < |tiles| ==> tiles[k] != []
    ensures TileOffset(tiles, i) < TileOffset(tiles, j)
    decreases j
  {
    if i < j - 1 {
      OffsetsIncrease(tiles, i, j - 1);
    }
  }

  /** The sizes of a set of tiles, and of all of them. */
  function SetSize(tiles: seq<bytes>, s: set<nat>, n: nat): nat
    requires n <= |tiles|
  {
    if n == 0 then 0 else SetSize(tiles, s, n - 1) + if n - 1 in s then |tiles[n - 1]| else 0
  }

  lemma {:induction false} SetSizeAdd(tiles: seq<bytes>, s: set<nat>, i: nat, n: nat)
    requires n <= |tiles| && i < |tiles| && i !in s
    ensures SetSize(tiles, s + {i}, n) == SetSize(tiles, s, n) + if i < n then |tiles[i]| else 0
  {
    if n > 0 {
      SetSizeAdd(tiles, s, i, n - 1);
    }
  }

  /** The sizes add up to the whole only for all tiles together, because none is empty. */
  lemma {:induction false} SetSizeFull(tiles: seq<bytes>, s: set<nat>, n: nat)
    requires n <= |tiles| && forall k :: 0 <= k < |tiles| ==> tiles[k] != []
    ensures SetSize(tiles, s, n) <= TileOffset(tiles, n)
    ensures SetSize(tiles, s, n) == TileOffset(tiles, n) <==> UpTo(n) <= s
  {
    if n > 0 {
      SetSizeFull(tiles, s, n - 1);
    }
  }

  lemma {:induction false} SetSizeEmpty(tiles: seq<bytes>, n: nat)
    requires n <= |tiles|
    ensures SetSize(tiles, {}, n) == 0
  {
    if n > 0 {
      SetSizeEmpty(tiles, n - 1);
    }
  }

  lemma {:induction false} TileAt(tiles: seq<bytes>, p: nat, n: nat) returns (i: nat)
    requires n <= |tiles| && p < TileOffset(tiles, n)
    ensures i < n && TileOffset(tiles, i) <= p < TileOffset(tiles, i) + |tiles[i]|
  {
    if p < TileOffset(tiles, n - 1) {
      i := TileAt(tiles, p, n - 1);
    } else {
      i := n - 1;
    }
  }

  // ---------------------------------------------------------------- combining

  ghost predicate Agrees(buffer: bytes, data: bytes, p: nat) {
    p < |buffer| == |data| && buffer[p] == data[p]
  }

  ghost predicate IsSlice(c: QdbData, data: bytes) {
    c.chunkOffset as int + |c.chunkData| <= |data|
    && data[c.chunkOffset..c.chunkOffset as int + |c.chunkData|] == c.chunkData
  }

  /** Overlaying slices of the data makes the buffer agree where they lie and nowhere worse. */
  lemma {:induction false} CombiningAgrees(buffer: bytes, chunks: seq<QdbData>, data: bytes, p: nat)
    requires |buffer| == |data| && forall i :: 0 <= i < |chunks| ==> IsSlice(chunks[i], data)
    requires Agrees(buffer, data, p)
             || (p < |data|
                 && exists i :: 0 <= i < |chunks|
                                && chunks[i].chunkOffset <= p < chunks[i].chunkOffset as int + |chunks[i].chunkData|)
    ensures |Combined(buffer, chunks)| == |data| && Agrees(Combined(buffer, chunks), data, p)
    decreases |chunks|
  {
    if chunks != [] {
      var c := chunks[0];
      var next := Overlaid(buffer, c);
      assert IsSlice(c, data);
      assert c.chunkOffset <= p < c.chunkOffset as int + |c.chunkData| ==> next[p] == c.chunkData[p - c.chunkOffset] == data[p];
      if !Agrees(next, data, p) {
        var i :| 0 <= i < |chunks| && chunks[i].chunkOffset <= p < chunks[i].chunkOffset as int + |chunks[i].chunkData|;
        assert chunks[1..][i - 1] == chunks[i];
      }
      CombiningAgrees(next, chunks[1..], data, p);
    }
  }

  // ---------------------------------------------------------------- assembly

  /** `a` holds exactly the tiles of `seen`, each once. */
  ghost predicate Holds(a: Assembly, tiles: seq<bytes>, data: bytes, id: u64, size: u32, order: seq<nat>) {
    && |order| == |a.chunks|
    && (forall k :: 0 <= k < |order| ==> IsTile(a.chunks[k], tiles, data, size, order[k]))
    && (a.chunks != [] ==> a.connectionId == id && a.uncompressedSize == size && a.compressedSize == |data|)
    && SizeSum(a.chunks) == SetSize(tiles, Elements(order), |tiles|)
  }

  function Elements(order: seq<nat>): set<nat> {
    set i | i in order
  }

  function WholeOutcome(data: bytes, id: u64, size: u32): Outcome
    requires |data| <= MAX_QDB_SIZE
  {
    Finished(id, Some(QdbData(size, |data|, 0, |data|, data)))
  }

  lemma HeldAreSlices(a: Assembly, tiles: seq<bytes>, data: bytes, id: u64, size: u32, order: seq<nat>, i: nat)
    requires IsTiling(tiles, data) && Holds(a, tiles, data, id, size, order) && i < |a.chunks|
    ensures IsSlice(a.chunks[i], data) && !OutOfBounds(a.chunks[i], |data|)
  {
    assert IsTile(a.chunks[i], tiles, data, size, order[i]);
    TileIsSlice(tiles, order[i]);
  }

  /** Every position of the data lies in a held tile once all tiles are held. */
  lemma PositionIsHeld(a: Assembly, tiles: seq<bytes>, data: bytes, id: u64, size: u32, order: seq<nat>,
                       p: nat) returns (k: nat)
    requires IsTiling(tiles, data) && Holds(a, tiles, data, id, size, order) && UpTo(|tiles|) <= Elements(order)
    requires p < |data|
    ensures k < |a.chunks| && a.chunks[k].chunkOffset <= p < a.chunks[k].chunkOffset as int + |a.chunks[k].chunkData|
  {
    TileOffsetIsLength(tiles, |tiles|);
    assert tiles[..|tiles|] == tiles;
    var i := TileAt(tiles, p, |tiles|);
    assert i in Elements(order);
    k :| 0 <= k < |order| && order[k] == i;
    assert IsTile(a.chunks[k], tiles, data, size, order[k]);
  }

  lemma HeldTilesCombine(a: Assembly, tiles: seq<bytes>, data: bytes, id: u64, size: u32, order: seq<nat>)
    requires IsTiling(tiles, data) && Holds(a, tiles, data, id, size, order) && UpTo(|tiles|) <= Elements(order)
    ensures Combined(Zeros(|data|), a.chunks) == data
  {
    DataSizeOk(tiles, data);
    hide Holds, IsTiling, IsSlice, Combined, OutOfBounds, Zeros;
    forall i | 0 <= i < |a.chunks|
      ensures IsSlice(a.chunks[i], data)
    {
      HeldAreSlices(a, tiles, data, id, size, order, i);
    }
    var combined := Combined(Zeros(|data|), a.chunks);
    forall p | 0 <= p < |data|
      ensures |combined| == |data| && combined[p] == data[p]
    {
      var k := PositionIsHeld(a, tiles, data, id, size, order, p);
      CombiningAgrees(Zeros(|data|), a.chunks, data, p);
    }
    var last := |data| - 1;
    assert |combined| == |data| && combined[last] == data[last];
  }

  /** The size test succeeds exactly when every tile is there, and then the data comes out. */
  lemma ConclusionOfTiles(a: Assembly, tiles: seq<bytes>, data: bytes, id: u64, size: u32, order: seq<nat>)
    requires IsTiling(tiles, data) && Holds(a, tiles, data, id, size, order) && a.chunks != []
    ensures Conclusion(a) == if UpTo(|tiles|) <= Elements(order) then Some(WholeOutcome(data, id, size)) else None
  {
    SizesTell(a, tiles, data, id, size, order);
    if UpTo(|tiles|) <= Elements(order) {
      HeldTilesCombine(a, tiles, data, id, size, order);
      hide OutOfBounds, Combined, SizeSum, IsTiling;
      forall i | 0 <= i < |a.chunks|
        ensures !OutOfBounds(a.chunks[i], a.compressedSize)
      {
        HeldAreSlices(a, tiles, data, id, size, order, i);
      }
    }
  }

  lemma SizesTell(a: Assembly, tiles: seq<bytes>, data: bytes, id: u64, size: u32, order: seq<nat>)
    requires IsTiling(tiles, data) && Holds(a, tiles, data, id, size, order)
    ensures SizeSum(a.chunks) == |data| <==> UpTo(|tiles|) <= Elements(order)
  {
    SetSizeFull(tiles, Elements(order), |tiles|);
    TileOffsetIsLength(tiles, |tiles|);
    assert tiles[..|tiles|] == tiles;
  }

  /** A well-behaved arrival: a tile, a message of another kind, or nothing in time. */
  ghost predicate FromServer(e: Event, tiles: seq<bytes>, data: bytes, id: u64, size: u32, i: Option<nat>) {
    match e
    case Timeout => i == None
    case Arrived(msg) =>
      if i == None then !msg.HandshakeFailed? && !msg.HandshakeFinish?
      else msg.HandshakeFinish? && msg.connectionId == id && msg.qdb.Some? && IsTile(msg.qdb.value, tiles, data, size, i.value)
  }

  function With(seen: set<nat>, i: Option<nat>): set<nat> {
    if i == None then seen else seen + {i.value}
  }

  lemma HasOffsetIffHeld(a: Assembly, tiles: seq<bytes>, data: bytes, id: u64, size: u32, order: seq<nat>, c: QdbData,
                         i: nat)
    requires IsTiling(tiles, data) && Holds(a, tiles, data, id, size, order) && IsTile(c, tiles, data, size, i)
    ensures HasOffset(a.chunks, c.chunkOffset) <==> i in Elements(order)
  {
    if HasOffset(a.chunks, c.chunkOffset) {
      var k :| 0 <= k < |a.chunks| && a.chunks[k].chunkOffset == c.chunkOffset;
      assert IsTile(a.chunks[k], tiles, data, size, order[k]);
      if order[k] < i {
        OffsetsIncrease(tiles, order[k], i);
      } else if i < order[k] {
        OffsetsIncrease(tiles, i, order[k]);
      }
      assert order[k] in Elements(order);
    }
    if i in Elements(order) {
      var k :| 0 <= k < |order| && order[k] == i;
      assert IsTile(a.chunks[k], tiles, data, size, i);
      assert a.chunks[k].chunkOffset == c.chunkOffset;
    }
  }

  lemma AppendedHolds(a: Assembly, b: Assembly, tiles: seq<bytes>, data: bytes, id: u64, size: u32, order: seq<nat>,
                      c: QdbData, i: nat)
    requires IsTiling(tiles, data) && Holds(a, tiles, data, id, size, order) && IsTile(c, tiles, data, size, i)
    requires i !in Elements(order)
    requires b.chunks == a.chunks + [c] && b.connectionId == id && b.uncompressedSize == size && b.compressedSize == |data|
    ensures Holds(b, tiles, data, id, size, order + [i])
    ensures Elements(order + [i]) == Elements(order) + {i}
  {
    assert Elements(order + [i]) == Elements(order) + {i};
    SetSizeAdd(tiles, Elements(order), i, |tiles|);
    assert b.chunks[..|b.chunks| - 1] == a.chunks;
  }

  /** One well-behaved round: new tiles are added, repeats change nothing, the last one finishes. */
  lemma RoundOfTiles(a: Assembly, e: Event, tiles: seq<bytes>, data: bytes, id: u64, size: u32, order: seq<nat>,
                     i: Option<nat>)
    returns (order': seq<nat>)
    requires IsTiling(tiles, data) && Holds(a, tiles, data, id, size, order) && !(UpTo(|tiles|) <= Elements(order))
    requires FromServer(e, tiles, data, id, size, i)
    ensures Holds(Round(a, e).0, tiles, data, id, size, order') && Elements(order') == With(Elements(order), i)
    ensures Round(a, e).1 == if UpTo(|tiles|) <= Elements(order') then Some(WholeOutcome(data, id, size)) else None
  {
    hide Conclusion, IsTiling, SizeSum;
    order' := order;
    if i.Some? {
      var c := e.msg.qdb.value;
      HasOffsetIffHeld(a, tiles, data, id, size, order, c, i.value);
      if a.chunks == [] || i.value !in Elements(order) {
        assert a.chunks == [] ==> order == [] && a.chunks + [c] == [c];
        order' := order + [i.value];
        DataSizeOk(tiles, data);
        AppendedHolds(a, Round(a, e).0, tiles, data, id, size, order, c, i.value);
        ConclusionOfTiles(Round(a, e).0, tiles, data, id, size, order');
      } else {
        assert Elements(order) + {i.value} == Elements(order);
      }
    }
  }

  lemma DataSizeOk(tiles: seq<bytes>, data: bytes)
    requires IsTiling(tiles, data)
    ensures 1 <= |data| <= MAX_QDB_SIZE
  {
  }

  function SeenTiles(indices: seq<Option<nat>>): set<nat> {
    set k | 0 <= k < |indices| && indices[k].Some? :: indices[k].value
  }

  lemma {:induction false} RoundsOfTiles(a: Assembly, events: seq<Event>, indices: seq<Option<nat>>,
                                         tiles: seq<bytes>, data: bytes,
                                         id: u64, size: u32, order: seq<nat>)
    requires IsTiling(tiles, data) && Holds(a, tiles, data, id, size, order) && !(UpTo(|tiles|) <= Elements(order))
    requires |events| == |indices| && forall k :: 0 <= k < |events| ==> FromServer(events[k], tiles, data, id, size, indices[k])
    ensures Rounds(a, events).1
            == if UpTo(|tiles|) <= Elements(order) + SeenTiles(indices) then Some(WholeOutcome(data, id, size)) else None
    decreases |events|
  {
    hide IsTiling, Holds, FromServer, Round, WholeOutcome;
    if events != [] {
      var order' := RoundOfTiles(a, events[0], tiles, data, id, size, order, indices[0]);
      SeenStep(indices);
      var all := Elements(order) + SeenTiles(indices);
      assert all == Elements(order') + SeenTiles(indices[1..]);
      if UpTo(|tiles|) <= Elements(order') {
        assert UpTo(|tiles|) <= all;
      } else {
        RoundsOfTiles(Round(a, events[0]).0, events[1..], indices[1..], tiles, data, id, size, order');
      }
    } else {
      assert SeenTiles(indices) == {};
    }
  }

  lemma SeenStep(indices: seq<Option<nat>>)
    requires indices != []
    ensures SeenTiles(indices) == With(SeenTiles(indices[1..]), indices[0])
  {
    forall i | i in SeenTiles(indices[1..])
      ensures i in SeenTiles(indices)
    {
      var k :| 0 <= k < |indices[1..]| && indices[1..][k].Some? && indices[1..][k].value == i;
      assert indices[k + 1].value == i;
    }
    forall i | i in SeenTiles(indices)
      ensures i in With(SeenTiles(indices[1..]), indices[0])
    {
      var k :| 0 <= k < |indices| && indices[k].Some? && indices[k].value == i;
      if k > 0 {
        assert indices[1..][k - 1].value == i;
      }
    }
  }

  /**
    Handshake assembly: when the server tiles 1 byte to 1 MiB of data into non-empty chunks,
    then for every order of arrival, with repeats, timeouts and other messages between, the
    handshake ends exactly when the last distinct chunk has arrived, and yields the data.
   */
  lemma TiledDataIsAssembled(events: seq<Event>, indices: seq<Option<nat>>, tiles: seq<bytes>, data: bytes, id: u64,
                             size: u32)
    requires IsTiling(tiles, data)
    requires |events| == |indices| && forall k :: 0 <= k < |events| ==> FromServer(events[k], tiles, data, id, size, indices[k])
    ensures Rounds(Empty, events).1
            == if UpTo(|tiles|) <= SeenTiles(indices) then Some(WholeOutcome(data, id, size)) else None
  {
    SetSizeEmpty(tiles, |tiles|);
    assert Elements([]) == {};
    assert tiles != [];
    assert 0 in UpTo(|tiles|);
    RoundsOfTiles(Empty, events, indices, tiles, data, id, size, []);
    assert Elements([]) + SeenTiles(indices) == SeenTiles(indices);
  }
}
