/**
  The order in which the application gets the reliable messages of one datagram. Messages
  accepted directly are handed out before the delayed queue is looked at, so a datagram with
  several of them can break the order. Exactly when it does can be told beforehand, from the
  ids in the datagram and those waiting in the store.
 */
module ReceiveOrder {
  import opened Wrappers
  import opened Bytes
  import opened MessageTypes
  import opened ControlMessages
  import opened MessageCodec
  import opened DatagramIterator
  import opened SequenceNumbers
  import opened Reliability
  import opened ReliabilityProofs
  import opened FragmentStores
  import opened Compression
  import opened UdpTransports

  /**
    While a datagram is processed: all messages handed over, of whatever kind, the reliable
    ones among them, which were accepted directly, all reliable messages accepted in the order
    of their acceptance, and whether each direct one found the delayed queue empty.
   */
  datatype Progress = Progress(
    store: StoreState,
    handed: seq<Resolved>,
    direct: seq<MessageMeta>,
    accepted: seq<MessageMeta>,
    inTurn: bool)

  predicate IsReliable(meta: MessageMeta) {
    meta.rel.Some? && meta.rel.value.Complete() && IdOf(meta) != 0
  }

  predicate IsReliableItem(item: Resolved) {
    item.DataArrived? && IsReliable(item.meta)
  }

  function IdAt(item: Resolved): u16 {
    if IsReliableItem(item) then IdOf(item.meta) else 0
  }

  function ReliableCount(items: seq<Resolved>): nat {
    if items == [] then 0 else (if IsReliableItem(items[0]) then 1 else 0) + ReliableCount(items[1..])
  }

  /** The reliable messages among items. */
  function Reliables(items: seq<Resolved>): seq<MessageMeta> {
    if items == [] then []
    else (if IsReliableItem(items[0]) then [items[0].meta] else []) + Reliables(items[1..])
  }

  lemma ReliablesAppend(a: seq<Resolved>, b: seq<Resolved>)
    ensures Reliables(a + b) == Reliables(a) + Reliables(b)
  {
    if a == [] {
      assert a + b == b;
    } else {
      assert (a + b)[1..] == a[1..] + b;
    }
  }

  /** A reliable message arrives. */
  function Step(p: Progress, meta: MessageMeta, now: Time): Progress
    requires IsReliable(meta)
  {
    var (t, r) := AfterIncoming(p.store, meta, now);
    var released := if |p.store.delayed| <= |t.delayed| then t.delayed[|p.store.delayed|..] else [];
    if r == Ok(true) then
      Progress(t, p.handed + [DataArrived(meta)], p.direct + [meta], p.accepted + [meta] + released,
               p.inTurn && p.store.delayed == [])
    else
      Progress(t, p.handed, p.direct, p.accepted + released, p.inTurn)
  }

  /** A message without a reliable id changes nothing but, by its acks, what awaits acknowledgement. */
  function StoreAfterOther(s: StoreState, meta: MessageMeta, now: Time): StoreState
    requires RelOk(meta)
  {
    if meta.rel.Some? then AfterIncoming(s, meta, now).0 else s
  }

  /** Whatever an item comes to; a failure or silence leaves everything as it is. */
  function StepItem(p: Progress, item: Resolved, now: Time): Progress
    requires ResolvedOk(item)
  {
    match item
    case Failure(_) => p
    case Silence => p
    case ControlArrived(_) => p.(handed := p.handed + [item])
    case DataArrived(meta) =>
      if IsReliable(meta) then Step(p, meta, now)
      else p.(store := StoreAfterOther(p.store, meta, now), handed := p.handed + [item])
  }

  function Process(p: Progress, items: seq<Resolved>, now: Time): Progress
    requires AllResolvedOk(items)
    decreases |items|
  {
    if items == [] then p else Process(StepItem(p, items[0], now), items[1..], now)
  }

  /** Nothing fails before, and no reliable message is refused; after an error the program reads no further. */
  predicate ErrorFree(p: Progress, items: seq<Resolved>, now: Time)
    requires AllResolvedOk(items)
    decreases |items|
  {
    items == [] ||
    (!items[0].Failure?
     && (IsReliableItem(items[0]) ==> AfterIncoming(p.store, items[0].meta, now).1.Ok?)
     && ErrorFree(StepItem(p, items[0], now), items[1..], now))
  }

  /** What the application gets of the reliable messages, now and from its next reads, before the socket is read again. */
  function HandedOut(p: Progress): seq<MessageMeta> {
    p.direct + p.store.delayed
  }

  // ---------------------------------------------------------------- ids of accepted messages

  lemma {:induction false} AdvanceIsWire(n: nat, k: nat)
    requires n >= 1
    ensures Advance(WireId(n), k) == WireId(n + k)
    decreases k
  {
    if k > 0 {
      NextIdIsNextNumber(n);
      AdvanceIsWire(n + 1, k - 1);
    }
  }

  lemma AdvancedIdsDiffer(id: u16, a: nat, d: nat)
    requires id != 0 && 0 < d < ID_PERIOD
    ensures Advance(id, a) != Advance(id, a + d)
  {
    assert WireId(id) == id;
    AdvanceIsWire(id, a);
    AdvanceIsWire(id, a + d);
    IdsRepeatWithPeriod(id + a, id + a + d);
  }

  lemma {:induction false} AdvanceAdds(id: u16, a: nat, b: nat)
    ensures Advance(Advance(id, a), b) == Advance(id, a + b)
    decreases a
  {
    if a > 0 {
      AdvanceAdds(NextId(id), a - 1, b);
    }
  }

  lemma {:induction false} ConsecutiveAppend(a: seq<MessageMeta>, b: seq<MessageMeta>, id: u16)
    requires Consecutive(a, id) && Consecutive(b, Advance(id, |a|))
    ensures Consecutive(a + b, id)
    decreases |a|
  {
    if a == [] {
      assert a + b == b;
    } else {
      assert (a + b)[1..] == a[1..] + b;
      ConsecutiveAppend(a[1..], b, NextId(id));
    }
  }

  lemma {:induction false} ConsecutiveAt(a: seq<MessageMeta>, id: u16, i: nat)
    requires Consecutive(a, id) && i < |a|
    ensures IdOf(a[i]) == Advance(id, i)
    decreases i
  {
    if i > 0 {
      ConsecutiveAt(a[1..], NextId(id), i - 1);
    }
  }

  // ---------------------------------------------------------------- the invariant

  ghost predicate Differs(p: Progress, j: nat) {
    j < |p.direct| && j < |p.accepted| && p.direct[j] != p.accepted[j]
  }

  ghost predicate ProgressInv(p: Progress, first: u16) {
    && StoreInv(p.store) && first != 0
    && Consecutive(p.accepted, first) && p.store.nextRemoteId == Advance(first, |p.accepted|)
    && (p.inTurn ==> HandedOut(p) == p.accepted && |p.store.delayed| <= MAX_OUT_OF_ORDER)
    && (!p.inTurn ==> exists j :: Differs(p, j))
  }

  /** What an arrival releases: an in-order one accepts itself and a run after it, any other nothing. */
  lemma ArrivalReleases(s: StoreState, meta: MessageMeta, now: Time)
    requires StoreInv(s) && IsReliable(meta)
    ensures var (t, r) := AfterIncoming(s, meta, now);
            && StoreInv(t) && s.delayed <= t.delayed
            && var released := t.delayed[|s.delayed|..];
            && |released| <= MAX_OUT_OF_ORDER
            && if r == Ok(true) then
                 && IdOf(meta) == s.nextRemoteId
                 && Consecutive([meta] + released, s.nextRemoteId)
                 && t.nextRemoteId == Advance(s.nextRemoteId, 1 + |released|)
               else released == [] && t.nextRemoteId == s.nextRemoteId
  {
    HandleIncomingKeepsInv(s, meta, now);
    var s1 := s.(localUnacked := AckAll(s.localUnacked, meta.rel.value.acks));
    var t := AfterIncoming(s, meta, now).0;
    match Classify(IdOf(meta), s1.nextRemoteId)
    case Duplicate =>
      var s2 := s1.(remoteUnacked := s1.remoteUnacked + [RemoteAck(IdOf(meta), now)]);
      assert FindStored(s2.outOfOrder, s2.nextRemoteId) == |s2.outOfOrder|;
      assert t.delayed == s.delayed;
    case OutOfOrder =>
      assert t.delayed == s.delayed;
    case InOrder =>
      var u := s1.(remoteUnacked := s1.remoteUnacked + [RemoteAck(s1.nextRemoteId, now)],
                   nextRemoteId := NextId(s1.nextRemoteId));
      RestoreMovesMaximalRun(u, now);
      assert t == Restore(u, now);
      var released := t.delayed[|s.delayed|..];
      assert ([meta] + released)[1..] == released;
      assert |Metas(u.outOfOrder)| == |multiset(Metas(t.outOfOrder)) + multiset(released)|;
  }

  lemma StepKeepsProgress(p: Progress, meta: MessageMeta, now: Time, first: u16)
    requires ProgressInv(p, first) && IsReliable(meta)
    ensures ProgressInv(Step(p, meta, now), first)
  {
    hide AfterIncoming, StoreInv, Consecutive, Advance;
    ArrivalReleases(p.store, meta, now);
    var q := Step(p, meta, now);
    var (t, r) := AfterIncoming(p.store, meta, now);
    var released := t.delayed[|p.store.delayed|..];
    var n := |p.accepted|;
    if r == Ok(true) {
      ConsecutiveAppend(p.accepted, [meta] + released, first);
      AdvanceAdds(first, n, 1 + |released|);
      assert q.accepted == p.accepted + ([meta] + released);
      if p.inTurn && !q.inTurn {
        var j, d := |p.direct|, |p.store.delayed|;
        assert q.direct[j] == meta && q.accepted[j] == p.accepted[j];
        ConsecutiveAt(p.accepted, first, j);
        AdvancedIdsDiffer(first, j, d);
        assert Differs(q, j);
      } else if q.inTurn {
        assert HandedOut(q) == q.accepted;
      }
    } else {
      assert p.accepted + [] == p.accepted;
    }
    if !p.inTurn {
      var j: nat :| Differs(p, j);
      assert Differs(q, j);
    }
  }

  lemma OtherChangesLittle(s: StoreState, meta: MessageMeta, now: Time)
    requires RelOk(meta) && !IsReliable(meta)
    ensures var t := StoreAfterOther(s, meta, now);
            && t == s.(localUnacked := t.localUnacked) && |t.localUnacked| <= |s.localUnacked|
            && (StoreInv(s) ==> StoreInv(t))
  {
    if meta.rel.Some? {
      AckingShrinks(s.localUnacked, meta.rel.value.acks);
    }
  }

  lemma StepItemKeepsProgress(p: Progress, item: Resolved, now: Time, first: u16)
    requires ProgressInv(p, first) && ResolvedOk(item)
    ensures ProgressInv(StepItem(p, item, now), first)
  {
    if IsReliableItem(item) {
      StepKeepsProgress(p, item.meta, now, first);
    } else {
      OtherKeepsProgress(p, item, now, first);
    }
  }

  lemma OtherKeepsProgress(p: Progress, item: Resolved, now: Time, first: u16)
    requires ProgressInv(p, first) && ResolvedOk(item) && !IsReliableItem(item)
    ensures ProgressInv(StepItem(p, item, now), first)
  {
    hide StoreInv, Consecutive, Advance, AfterIncoming;
    var q := StepItem(p, item, now);
    if item.DataArrived? {
      OtherChangesLittle(p.store, item.meta, now);
    }
    if !p.inTurn {
      var j: nat :| Differs(p, j);
      assert Differs(q, j);
    }
  }

  lemma {:induction false} ProcessKeepsProgress(p: Progress, items: seq<Resolved>, now: Time, first: u16)
    requires ProgressInv(p, first) && AllResolvedOk(items)
    ensures ProgressInv(Process(p, items, now), first)
    decreases |items|
  {
    hide ProgressInv, StepItem;
    if items != [] {
      StepItemKeepsProgress(p, items[0], now, first);
      ProcessKeepsProgress(StepItem(p, items[0], now), items[1..], now, first);
    }
  }

  /** Reading starts with an empty delayed queue and nothing accepted yet. */
  function Begin(s: StoreState): Progress {
    Progress(s, [], [], [], true)
  }

  /**
    The messages of a datagram are handed out in the order of their acceptance, which is
    that of their ids, exactly when no message was accepted directly while the delayed
    queue already held ones released by an earlier message of the same datagram. When that
    is so is the subject of `OrderKeptIff`.
   */
  lemma OrderKeptIffInTurn(s: StoreState, items: seq<Resolved>, now: Time)
    requires StoreInv(s) && s.delayed == [] && AllResolvedOk(items)
    ensures var p := Process(Begin(s), items, now);
            && Consecutive(p.accepted, s.nextRemoteId)
            && (HandedOut(p) == p.accepted <==> p.inTurn)
  {
    ProcessKeepsProgress(Begin(s), items, now, s.nextRemoteId);
    var p := Process(Begin(s), items, now);
    if !p.inTurn {
      var j: nat :| Differs(p, j);
      assert HandedOut(p)[j] == p.direct[j];
    }
  }

  // ---------------------------------------------------------------- telling it beforehand

  /** A datagram has fewer than 65536 bytes, and a reliable message takes at least five of them. */
  const MAX_BATCH := 13107

  predicate Waits(s: StoreState, id: u16) {
    FindStored(s.outOfOrder, id) < |s.outOfOrder|
  }

  /** The position of the first reliable message with the id, or the length. */
  function FirstWith(items: seq<Resolved>, id: u16): (i: nat)
    ensures i <= |items|
    ensures i < |items| ==> IdAt(items[i]) == id
    ensures forall j :: 0 <= j < i ==> IdAt(items[j]) != id
  {
    if items == [] || IdAt(items[0]) == id then 0
    else
      assert forall j :: 1 <= j < FirstWith(items[1..], id) + 1 ==> items[j] == items[1..][j - 1];
      FirstWith(items[1..], id) + 1
  }

  /**
    When the k-th message from the expected one on arrives: -1 if it waits in the store
    already, else its first position in the datagram, or the datagram's length if it is not in it.
   */
  function ArrivesAt(s: StoreState, items: seq<Resolved>, k: nat): int {
    var id := Advance(s.nextRemoteId, k);
    if Waits(s, id) then -1 else FirstWith(items, id)
  }

  /** All messages from the expected one to the k-th are waiting or in the datagram. */
  predicate Reaches(s: StoreState, items: seq<Resolved>, k: nat) {
    forall j :: 0 <= j <= k ==> ArrivesAt(s, items, j) < |items|
  }

  /** The k-th message arrives before one that precedes it, and so has to wait. */
  predicate MustWait(s: StoreState, items: seq<Resolved>, k: nat) {
    exists j :: 0 <= j < k && ArrivesAt(s, items, j) > ArrivesAt(s, items, k)
  }

  /** Once a message of the run that the datagram completes must wait, all later ones of the run must too. */
  predicate KeepsOrder(s: StoreState, items: seq<Resolved>) {
    forall k, l :: 0 <= k < l < |s.outOfOrder| + ReliableCount(items) && Reaches(s, items, l) && MustWait(s, items, k) ==>
      MustWait(s, items, l)
  }

  /** So far ahead of the expected id no id is taken for a duplicate. */
  const HORIZON := 49152

  /** What was accepted, what waits and what is delayed after the first `t` messages, in terms of `ArrivesAt`. */
  ghost predicate Tracks(p: Progress, s: StoreState, items: seq<Resolved>, t: nat) {
    var n := |p.accepted|;
    && t <= |items| && n + |p.store.outOfOrder| + ReliableCount(items[t..]) <= |s.outOfOrder| + ReliableCount(items)
    && (forall k :: 0 <= k < n ==> ArrivesAt(s, items, k) < t)
    && (forall k :: n <= k < HORIZON ==> (Waits(p.store, Advance(s.nextRemoteId, k)) <==> ArrivesAt(s, items, k) < t))
    && (p.store.delayed == [] <==> forall k :: 0 <= k < n ==> !MustWait(s, items, k))
    && (p.inTurn <==> forall k, l :: 0 <= k < l < n && MustWait(s, items, k) ==> MustWait(s, items, l))
  }

  lemma WaitsIff(s: StoreState, id: u16)
    ensures Waits(s, id) <==> exists i :: 0 <= i < |s.outOfOrder| && IdOf(s.outOfOrder[i].meta) == id
  {
  }

  lemma AheadIsNoDuplicate(next: u16, d: nat)
    requires next != 0 && d < HORIZON
    ensures Classify(Advance(next, d), next) != Duplicate
  {
    assert WireId(next) == next;
    AdvanceIsWire(next, d);
    ClassifyRefinesUnbounded(next + d, next);
  }

  /** Message `t` and the k-th from the expected one on: the same exactly if that arrives there or did before. */
  lemma ArrivesBy(s: StoreState, items: seq<Resolved>, t: nat, k: nat)
    requires t < |items|
    ensures ArrivesAt(s, items, k) < t + 1 <==> ArrivesAt(s, items, k) < t || IdAt(items[t]) == Advance(s.nextRemoteId, k)
  {
  }

  /** A message that is not the expected one changes at most what waits. */
  lemma OtherArrivalWaits(s: StoreState, meta: MessageMeta, now: Time, id: u16)
    requires StoreInv(s) && IsReliable(meta) && AfterIncoming(s, meta, now).1 == Ok(false)
    requires Classify(id, s.nextRemoteId) != Duplicate
    ensures var t := AfterIncoming(s, meta, now).0;
            && (Waits(t, id) <==> Waits(s, id) || id == IdOf(meta))
            && |t.outOfOrder| <= |s.outOfOrder| + 1
  {
    hide Restore, AckAll;
    var t := AfterIncoming(s, meta, now).0;
    var s1 := s.(localUnacked := AckAll(s.localUnacked, meta.rel.value.acks));
    WaitsIff(s, id);
    WaitsIff(t, id);
    match Classify(IdOf(meta), s.nextRemoteId)
    case Duplicate =>
      AckAgainStoresNothing(s1, IdOf(meta), now);
    case OutOfOrder =>
      assert t.outOfOrder == s.outOfOrder || t.outOfOrder == s.outOfOrder + [StoredMessage(meta, now)];
      assert t.outOfOrder != s.outOfOrder ==> t.outOfOrder[|s.outOfOrder|].meta == meta;
      assert forall i :: 0 <= i < |s.outOfOrder| ==> t.outOfOrder[i] == s.outOfOrder[i];
    case InOrder =>
  }

  lemma AckAgainStoresNothing(s: StoreState, id: u16, now: Time)
    requires !Awaited(s)
    ensures AckAgain(s, id, now).outOfOrder == s.outOfOrder
  {
    var t := s.(remoteUnacked := s.remoteUnacked + [RemoteAck(id, now)]);
    assert FindStored(t.outOfOrder, t.nextRemoteId) == |t.outOfOrder|;
  }

  lemma WaitsIffAmongMetas(s: StoreState, id: u16)
    ensures Waits(s, id) <==> exists m :: m in Metas(s.outOfOrder) && IdOf(m) == id
  {
    WaitsIff(s, id);
    var metas := Metas(s.outOfOrder);
    if Waits(s, id) {
      var i := FindStored(s.outOfOrder, id);
      assert metas[i] in metas && IdOf(metas[i]) == id;
    }
  }

  lemma SplitElements(a: seq<MessageMeta>, b: seq<MessageMeta>, c: seq<MessageMeta>)
    requires multiset(a) + multiset(b) == multiset(c)
    ensures |a| + |b| == |c| && forall m :: m in c <==> m in a || m in b
  {
    assert |multiset(a) + multiset(b)| == |multiset(c)|;
    assert forall m :: m in c <==> m in multiset(c);
  }

  ghost predicate HasId(metas: seq<MessageMeta>, id: u16) {
    exists m :: m in metas && IdOf(m) == id
  }

  /** The expected message releases only messages that waited, and all others go on waiting. */
  lemma ReleasedWaited(s: StoreState, meta: MessageMeta, now: Time)
    requires StoreInv(s) && IsReliable(meta) && IdOf(meta) == s.nextRemoteId
    ensures var t := AfterIncoming(s, meta, now).0;
            && s.delayed <= t.delayed
            && var released := t.delayed[|s.delayed|..];
            && |t.outOfOrder| + |released| == |s.outOfOrder|
            && forall id :: Waits(s, id) <==> Waits(t, id) || HasId(released, id)
  {
    hide StoreInv, AckAll;
    var s1 := s.(localUnacked := AckAll(s.localUnacked, meta.rel.value.acks));
    var u := s1.(remoteUnacked := s1.remoteUnacked + [RemoteAck(s1.nextRemoteId, now)],
                 nextRemoteId := NextId(s1.nextRemoteId));
    var t := AfterIncoming(s, meta, now).0;
    assert t == Restore(u, now);
    StoreInvIsWellStored(s);
    RestoreMovesMaximalRun(u, now);
    hide AfterIncoming, Restore, Accept;
    var released := t.delayed[|s.delayed|..];
    SplitElements(Metas(t.outOfOrder), released, Metas(s.outOfOrder));
    hide Waits;
    forall id
      ensures Waits(s, id) <==> Waits(t, id) || HasId(released, id)
    {
      WaitsIffAmongMetas(s, id);
      WaitsIffAmongMetas(t, id);
    }
  }

  lemma StoreInvIsWellStored(s: StoreState)
    requires StoreInv(s)
    ensures WellStored(s) && !Awaited(s) && !Waits(s, s.nextRemoteId)
  {
    WaitsIff(s, s.nextRemoteId);
  }

  lemma RunIdsDiffer(id: u16, j: nat, k: nat)
    requires id != 0 && j < HORIZON && k < HORIZON && j != k
    ensures Advance(id, j) != Advance(id, k)
  {
    AdvancedIdsDiffer(id, if j < k then j else k, if j < k then k - j else j - k);
  }

  /** Consecutive messages have the ids from the first on, and no others. */
  lemma ConsecutiveHasId(a: seq<MessageMeta>, first: u16, from: nat, k: nat)
    requires first != 0 && Consecutive(a, Advance(first, from)) && from + |a| <= HORIZON && k < HORIZON
    ensures HasId(a, Advance(first, k)) <==> from <= k < from + |a|
  {
    forall i | 0 <= i < |a|
      ensures IdOf(a[i]) == Advance(first, from + i)
      ensures IdOf(a[i]) == Advance(first, k) ==> k == from + i
    {
      ConsecutiveAt(a, Advance(first, from), i);
      AdvanceAdds(first, from, i);
      if k != from + i {
        RunIdsDiffer(first, from + i, k);
      }
    }
    if from <= k < from + |a| {
      assert a[k - from] in a;
    }
  }

  /** A message that is not accepted directly: nothing is released, and it waits if it is ahead. */
  lemma OtherArrivalTracks(p: Progress, s: StoreState, items: seq<Resolved>, now: Time, t: nat)
    requires ProgressInv(p, s.nextRemoteId) && Tracks(p, s, items, t) && t < |items| && IsReliableItem(items[t])
    requires AfterIncoming(p.store, items[t].meta, now).1 == Ok(false)
    ensures Tracks(StepItem(p, items[t], now), s, items, t + 1)
  {
    hide AfterIncoming, Waits, StoreInv, MustWait, ArrivesAt, Advance, Consecutive;
    ArrivalReleases(p.store, items[t].meta, now);
    var q, e, n := StepItem(p, items[t], now), s.nextRemoteId, |p.accepted|;
    assert q.accepted == p.accepted && q.store.delayed == p.store.delayed && q.inTurn == p.inTurn;
    OtherArrivalWaits(p.store, items[t].meta, now, p.store.nextRemoteId);
    forall k | n <= k < HORIZON
      ensures Waits(q.store, Advance(e, k)) <==> ArrivesAt(s, items, k) < t + 1
    {
      AdvanceAdds(e, n, k - n);
      NextIsNotZero(p.store);
      AheadIsNoDuplicate(p.store.nextRemoteId, k - n);
      OtherArrivalWaits(p.store, items[t].meta, now, Advance(e, k));
      ArrivesBy(s, items, t, k);
    }
  }

  /** How far the run of accepted messages can get stays far below the horizon. */
  ghost predicate SmallBatch(s: StoreState, items: seq<Resolved>) {
    s.nextRemoteId != 0 && |s.outOfOrder| <= MAX_OUT_OF_ORDER && ReliableCount(items) <= MAX_BATCH
  }

  /** The expected message arrives: it need not wait, and what it releases had to. */
  lemma DirectArrivalTracks(p: Progress, s: StoreState, items: seq<Resolved>, now: Time, t: nat)
    requires ProgressInv(p, s.nextRemoteId) && Tracks(p, s, items, t) && t < |items| && IsReliableItem(items[t])
    requires AfterIncoming(p.store, items[t].meta, now).1 == Ok(true) && SmallBatch(s, items)
    ensures Tracks(StepItem(p, items[t], now), s, items, t + 1)
  {
    hide AfterIncoming, Waits, StoreInv, MustWait, ArrivesAt, Advance, Consecutive, HasId;
    ArrivalReleases(p.store, items[t].meta, now);
    ReleasedWaited(p.store, items[t].meta, now);
    StoreInvIsWellStored(p.store);
    var q, e, n := StepItem(p, items[t], now), s.nextRemoteId, |p.accepted|;
    var released := q.store.delayed[|p.store.delayed|..];
    var n' := n + 1 + |released|;
    assert |q.accepted| == n';
    ArrivesBy(s, items, t, n);
    assert ArrivesAt(s, items, n) == t;
    RunAfterDirect(p, s, items, released, items[t].meta, n);
    forall k | 0 <= k < n'
      ensures ArrivesAt(s, items, k) < t + 1
      ensures k == n ==> !MustWait(s, items, k)
      ensures k > n ==> MustWait(s, items, k)
    {
      if k > n {
        LaterMustWait(s, items, n, k);
      } else if k == n {
        EarlierNeedNot(s, items, n);
      }
    }
    forall k | n' <= k < HORIZON
      ensures Waits(q.store, Advance(e, k)) <==> ArrivesAt(s, items, k) < t + 1
    {
      ArrivesBy(s, items, t, k);
      RunIdsDiffer(e, n, k);
    }
    assert q.inTurn == (p.inTurn && p.store.delayed == []);
    OrderAfterDirect(s, items, n, n');
    assert q.store.delayed == p.store.delayed + released;
    assert released != [] ==> MustWait(s, items, n + 1);
  }

  lemma LaterMustWait(s: StoreState, items: seq<Resolved>, j: nat, k: nat)
    requires j < k && ArrivesAt(s, items, j) > ArrivesAt(s, items, k)
    ensures MustWait(s, items, k)
  {
  }

  lemma EarlierNeedNot(s: StoreState, items: seq<Resolved>, n: nat)
    requires forall j :: 0 <= j < n ==> ArrivesAt(s, items, j) < ArrivesAt(s, items, n)
    ensures !MustWait(s, items, n)
  {
  }

  /** The released messages are those from the (n + 1)-th on; they waited, and those after them are not among them. */
  lemma RunAfterDirect(p: Progress, s: StoreState, items: seq<Resolved>, released: seq<MessageMeta>,
                       meta: MessageMeta, n: nat)
    requires SmallBatch(s, items) && n + 1 + |released| <= HORIZON
    requires Consecutive([meta] + released, Advance(s.nextRemoteId, n))
    ensures forall k :: n < k < HORIZON ==> (HasId(released, Advance(s.nextRemoteId, k)) <==> k < n + 1 + |released|)
  {
    hide HasId, Advance;
    var e := s.nextRemoteId;
    assert ([meta] + released)[1..] == released;
    AdvanceAdds(e, n, 1);
    AdvanceOne(Advance(e, n));
    forall k | n < k < HORIZON
      ensures HasId(released, Advance(e, k)) <==> k < n + 1 + |released|
    {
      ConsecutiveHasId(released, e, n + 1, k);
    }
  }

  lemma AdvanceOne(id: u16)
    ensures Advance(id, 1) == NextId(id)
  {
  }

  /** Adding one message that need not wait and then some that must. */
  lemma OrderAfterDirect(s: StoreState, items: seq<Resolved>, n: nat, n': nat)
    requires n < n' && !MustWait(s, items, n)
    requires forall k :: n < k < n' ==> MustWait(s, items, k)
    ensures (forall k, l :: 0 <= k < l < n' && MustWait(s, items, k) ==> MustWait(s, items, l))
            <==> forall k :: 0 <= k < n ==> !MustWait(s, items, k)
  {
    hide MustWait;
  }

  lemma NextIsNotZero(s: StoreState)
    requires StoreInv(s)
    ensures s.nextRemoteId != 0
  {
  }

  lemma BeginTracks(s: StoreState, items: seq<Resolved>)
    requires StoreInv(s) && s.delayed == []
    ensures ProgressInv(Begin(s), s.nextRemoteId) && Tracks(Begin(s), s, items, 0)
  {
    assert Advance(s.nextRemoteId, 0) == s.nextRemoteId;
  }

  lemma CountFrom(items: seq<Resolved>, t: nat)
    requires t < |items|
    ensures ReliableCount(items[t..]) == (if IsReliableItem(items[t]) then 1 else 0) + ReliableCount(items[t + 1..])
  {
    assert items[t..][0] == items[t] && items[t..][1..] == items[t + 1..];
  }

  lemma AdvanceIsNotZero(id: u16, k: nat)
    requires id != 0
    ensures Advance(id, k) != 0
  {
    assert WireId(id) == id;
    AdvanceIsWire(id, k);
  }

  /** What is not a reliable message has no part in the run. */
  lemma OtherTracks(p: Progress, s: StoreState, items: seq<Resolved>, now: Time, t: nat)
    requires s.nextRemoteId != 0 && Tracks(p, s, items, t) && t < |items|
    requires !IsReliableItem(items[t]) && ResolvedOk(items[t])
    ensures Tracks(StepItem(p, items[t], now), s, items, t + 1)
  {
    hide StoreInv, MustWait, ArrivesAt, Advance, AfterIncoming;
    var q := StepItem(p, items[t], now);
    if items[t].DataArrived? {
      OtherChangesLittle(p.store, items[t].meta, now);
    }
    CountFrom(items, t);
    assert forall id :: Waits(q.store, id) == Waits(p.store, id);
    hide StepItem, Waits;
    forall k: nat
      ensures ArrivesAt(s, items, k) < t + 1 <==> ArrivesAt(s, items, k) < t
    {
      ArrivesBy(s, items, t, k);
      AdvanceIsNotZero(s.nextRemoteId, k);
    }
  }

  lemma StepItemTracks(p: Progress, s: StoreState, items: seq<Resolved>, now: Time, t: nat)
    requires AllResolvedOk(items) && SmallBatch(s, items) && t < |items|
    requires ProgressInv(p, s.nextRemoteId) && Tracks(p, s, items, t)
    requires IsReliableItem(items[t]) ==> AfterIncoming(p.store, items[t].meta, now).1.Ok?
    ensures ProgressInv(StepItem(p, items[t], now), s.nextRemoteId) && Tracks(StepItem(p, items[t], now), s, items, t + 1)
  {
    hide AfterIncoming, ProgressInv, Tracks, StepItem;
    StepItemKeepsProgress(p, items[t], now, s.nextRemoteId);
    if IsReliableItem(items[t]) {
      var accepted := AfterIncoming(p.store, items[t].meta, now).1;
      assert accepted == Ok(accepted.value);
      if accepted.value {
        DirectArrivalTracks(p, s, items, now, t);
      } else {
        OtherArrivalTracks(p, s, items, now, t);
      }
    } else {
      OtherTracks(p, s, items, now, t);
    }
  }

  lemma {:induction false} ProcessTracks(p: Progress, s: StoreState, items: seq<Resolved>, now: Time, t: nat)
    requires AllResolvedOk(items) && SmallBatch(s, items) && t <= |items| && ErrorFree(p, items[t..], now)
    requires ProgressInv(p, s.nextRemoteId) && Tracks(p, s, items, t)
    ensures ProgressInv(Process(p, items[t..], now), s.nextRemoteId)
            && Tracks(Process(p, items[t..], now), s, items, |items|)
    decreases |items| - t
  {
    hide AfterIncoming, ProgressInv, Tracks, StepItem;
    if t < |items| {
      assert items[t..][0] == items[t] && items[t..][1..] == items[t + 1..];
      StepItemTracks(p, s, items, now, t);
      ProcessTracks(StepItem(p, items[t], now), s, items, now, t + 1);
    }
  }

  /** After the whole datagram the accepted run is the one that the ids tell. */
  lemma RunIsReached(p: Progress, s: StoreState, items: seq<Resolved>, k: nat)
    requires ProgressInv(p, s.nextRemoteId) && Tracks(p, s, items, |items|) && SmallBatch(s, items)
    ensures k < |p.accepted| <==> Reaches(s, items, k)
  {
    hide ArrivesAt, Advance, MustWait, Waits, Consecutive;
    StoreInvIsWellStored(p.store);
    var n := |p.accepted|;
    assert ArrivesAt(s, items, n) >= |items|;
  }

  /**
    The order of a datagram's reliable messages, whole ones and those that its fragments
    complete, whatever else it holds, told beforehand. If there is no error, the messages
    accepted are those from the expected one as far as the ids that wait and those in the
    datagram reach; and they are handed out in
    order exactly when, once one of them arrives before a predecessor and so has to wait, all
    that follow it in the run have to wait too.
   */
  lemma OrderKeptIff(s: StoreState, items: seq<Resolved>, now: Time)
    requires StoreInv(s) && s.delayed == [] && AllResolvedOk(items) && ReliableCount(items) <= MAX_BATCH
    requires ErrorFree(Begin(s), items, now)
    ensures var p := Process(Begin(s), items, now);
            && Consecutive(p.accepted, s.nextRemoteId)
            && (forall k: nat :: k < |p.accepted| <==> Reaches(s, items, k))
            && (HandedOut(p) == p.accepted <==> KeepsOrder(s, items))
  {
    hide AfterIncoming, Process, ErrorFree, ArrivesAt, MustWait, Reaches, Consecutive, Advance;
    assert items[0..] == items;
    BeginTracks(s, items);
    ProcessTracks(Begin(s), s, items, now, 0);
    OrderKeptIffInTurn(s, items, now);
    var p := Process(Begin(s), items, now);
    forall k: nat
      ensures k < |p.accepted| <==> Reaches(s, items, k)
    {
      RunIsReached(p, s, items, k);
    }
  }

  /** There is no error, so far as the reliable layer goes, if nothing fails before and the store cannot fill up. */
  lemma {:induction false} RoomIsErrorFree(p: Progress, items: seq<Resolved>, now: Time)
    requires StoreInv(p.store) && AllResolvedOk(items)
    requires |p.store.outOfOrder| + ReliableCount(items) <= MAX_OUT_OF_ORDER
    requires forall i :: 0 <= i < |items| ==> !items[i].Failure?
    ensures ErrorFree(p, items, now)
    decreases |items|
  {
    hide AfterIncoming, StoreInv, StepItem, StoreAfterOther;
    if items != [] {
      CountFrom(items, 0);
      assert items[0..] == items;
      StoresAtMostOne(p, items[0], now);
      RoomIsErrorFree(StepItem(p, items[0], now), items[1..], now);
    }
  }

  /** Only a reliable message can be stored, and is refused only by a full store. */
  lemma StoresAtMostOne(p: Progress, item: Resolved, now: Time)
    requires StoreInv(p.store) && ResolvedOk(item)
    ensures var q := StepItem(p, item, now);
            && StoreInv(q.store)
            && |q.store.outOfOrder| <= |p.store.outOfOrder| + (if IsReliableItem(item) then 1 else 0)
    ensures IsReliableItem(item) && |p.store.outOfOrder| < MAX_OUT_OF_ORDER ==> AfterIncoming(p.store, item.meta, now).1.Ok?
  {
    hide StoreInv, Restore, AckAll, AckAgain;
    if IsReliableItem(item) {
      HandleIncomingKeepsInv(p.store, item.meta, now);
      StoredByOne(p.store, item.meta, now);
    } else if item.DataArrived? {
      OtherChangesLittle(p.store, item.meta, now);
    }
  }

  lemma StoredByOne(s: StoreState, meta: MessageMeta, now: Time)
    requires StoreInv(s) && IsReliable(meta)
    ensures |AfterIncoming(s, meta, now).0.outOfOrder| <= |s.outOfOrder| + 1
  {
    hide StoreInv, AckAll;
    var s1 := s.(localUnacked := AckAll(s.localUnacked, meta.rel.value.acks));
    StoreInvIsWellStored(s);
    match Classify(IdOf(meta), s1.nextRemoteId)
    case Duplicate => AckAgainStoresNothing(s1, IdOf(meta), now);
    case OutOfOrder =>
    case InOrder => ReleasedWaited(s, meta, now);
  }

  /** A message with a reliable or a fragmentation header: only such can come to a reliable message. */
  predicate HasHeader(item: ReadItem) {
    item.Ok? && (item.value.rel.Some? || item.value.frag.Some?)
  }

  function HeaderCount(items: seq<ReadItem>): nat {
    if items == [] then 0 else (if HasHeader(items[0]) then 1 else 0) + HeaderCount(items[1..])
  }

  lemma {:induction false} ReliablesHaveHeaders(ms: seq<Messages>, items: seq<ReadItem>, now: Time, xs: seq<Resolved>)
    requires Resolution(ms, items, now, xs)
    ensures ReliableCount(xs) <= HeaderCount(items)
    decreases |xs|
  {
    hide ResolvedOk, IsProcessed, IsReliable, HasHeader;
    if xs != [] {
      assert Resolves(ms[0], items[0], now, ms[1], xs[0]);
      ReliableHasHeader(ms[0], items[0], now, ms[1], xs[0]);
      RestResolves(ms, items, now, xs);
      ReliablesHaveHeaders(ms[1..], items[1..], now, xs[1..]);
    }
  }

  lemma ReliableHasHeader(m: Messages, item: ReadItem, now: Time, m': Messages, x: Resolved)
    requires Resolves(m, item, now, m', x)
    ensures IsReliableItem(x) ==> HasHeader(item)
  {
    hide IsProcessed;
  }

  lemma RestResolves(ms: seq<Messages>, items: seq<ReadItem>, now: Time, xs: seq<Resolved>)
    requires Resolution(ms, items, now, xs) && xs != []
    ensures Resolution(ms[1..], items[1..], now, xs[1..])
  {
    hide Resolves, ResolvedOk;
    forall i | 0 <= i < |xs[1..]|
      ensures Resolves(ms[1..][i], items[1..][i], now, ms[1..][i + 1], xs[1..][i])
    {
      var j := i + 1;
      assert Resolves(ms[j], items[j], now, ms[j + 1], xs[j]);
    }
  }

  lemma HeaderOffset(data: bytes, udpConnId: bool)
    requires data != [] && DecodedMeta(data, udpConnId).Ok? && HasHeader(DecodedMeta(data, udpConnId))
    ensures DecodedMeta(data, udpConnId).value.dataOffset >= 5
  {
    hide ParseComp, ParseRel, ParseFrag, ParseBoundary, ControlLength;
  }

  /** Where the next message begins: within the datagram, and for one with a header at least five bytes on. */
  lemma NextBegins(data: bytes, udpConnId: bool)
    requires data != [] && DecodedMeta(data, udpConnId).Ok? && RelOk(DecodedMeta(data, udpConnId).value)
    ensures var meta := DecodedMeta(data, udpConnId).value;
            && 1 <= meta.dataOffset + |meta.data| <= |data|
            && (HasHeader(DecodedMeta(data, udpConnId)) ==> meta.dataOffset >= 5)
  {
    hide DecodedMeta, AnnouncedAcks;
    ClaimedOffsetIsExact(data, udpConnId);
    DecodedIsRelOkIff(data, udpConnId);
    DecodedAcks(data, udpConnId);
    if HasHeader(DecodedMeta(data, udpConnId)) {
      HeaderOffset(data, udpConnId);
    }
  }

  /** The bytes of a datagram from a position on hold no more messages with such headers than a fifth of their number. */
  lemma {:induction false} HeadersTakeFive(data: bytes, pos: nat, server: bool)
    requires pos <= |data| && AllRelOk(Iterate(data, pos, server))
    ensures 5 * HeaderCount(Iterate(data, pos, server)) <= |data| - pos
    decreases |data| - pos
  {
    hide DecodedMeta, RelOk, HasHeader;
    if pos < |data| {
      var rest, udpConnId := data[pos..], pos == 0 && server;
      var item := DecodedMeta(rest, udpConnId);
      var items := Iterate(data, pos, server);
      assert items[0] == item;
      IterateStep(data, pos, server);
      if item.Ok? {
        NextBegins(rest, udpConnId);
        var next := pos + item.value.dataOffset + |item.value.data|;
        assert items[1..] == Iterate(data, next, server);
        HeadersTakeFive(data, next, server);
      } else {
        assert items[1..] == [];
        NoHeader(item);
      }
    }
  }

  lemma NoHeader(item: ReadItem)
    ensures item.Err? ==> !HasHeader(item)
  {
  }

  /** So `OrderKeptIff` applies to every datagram there can be, as far as its length goes, fragments included. */
  lemma BatchFits(data: bytes, server: bool, ms: seq<Messages>, now: Time, xs: seq<Resolved>)
    requires |data| < 0x1_0000 && AllRelOk(Iterate(data, 0, server)) && Resolution(ms, Iterate(data, 0, server), now, xs)
    ensures ReliableCount(xs) <= MAX_BATCH
  {
    hide Iterate, Resolution;
    HeadersTakeFive(data, 0, server);
    ReliablesHaveHeaders(ms, Iterate(data, 0, server), now, xs);
  }

  /** One data message in a datagram, as the sender here produces, never breaks the order. */
  lemma SingleMessageInTurn(s: StoreState, meta: MessageMeta, now: Time)
    requires StoreInv(s) && s.delayed == [] && IsReliable(meta)
    ensures var p := Process(Begin(s), [DataArrived(meta)], now); p.inTurn && HandedOut(p) == p.accepted
  {
    var items := [DataArrived(meta)];
    assert items[1..] == [];
    OrderKeptIffInTurn(s, items, now);
  }

  /** What the application gets for an item that is handed over. */
  predicate Yields(codec: Codec, limit: nat, item: Resolved, got: Received) {
    match item
    case DataArrived(meta) => FinalMessage(codec, limit, meta) == Ok(Some(got))
    case ControlArrived(meta) => Decoded(meta.typ, meta.data).Ok? && got == FromControl(Decoded(meta.typ, meta.data).value.0)
    case _ => false
  }

  lemma ItemIsStep(codec: Codec, limit: nat, p: Progress, item: Resolved, now: Time)
    requires ResolvedOk(item) && ProcessedResolved(codec, limit, p.store, item, now).1.Ok?
    ensures var (t, out) := ProcessedResolved(codec, limit, p.store, item, now);
            var q := StepItem(p, item, now);
            && !item.Failure? && (IsReliableItem(item) ==> AfterIncoming(p.store, item.meta, now).1.Ok?)
            && t == q.store
            && (if HandedBy(out) == [] then q.handed == p.handed && q.direct == p.direct
                else q.handed == p.handed + [item] && q.direct == p.direct + Reliables([item])
                     && Yields(codec, limit, item, HandedBy(out)[0]))
  {
    hide FinalMessage, Decoded;
    assert [item][1..] == [];
    if IsReliableItem(item) {
      hide AfterIncoming;
      var accepted := AfterIncoming(p.store, item.meta, now).1;
      assert accepted.Ok? ==> accepted == Ok(accepted.value);
    } else {
      assert p.direct + [] == p.direct;
    }
  }

  /**
    If the transport meets no error in a datagram, it hands out exactly the messages handed
    over in it, decompressed, and of the reliable ones those accepted directly.
   */
  lemma {:induction false} TransportHandsOutDirect(codec: Codec, limit: nat, p: Progress, items: seq<Resolved>,
                                                   now: Time)
    requires AllResolvedOk(items) && ProcessedAll(codec, limit, p.store, items, now).error == None
    requires p.direct == Reliables(p.handed)
    ensures var b, q := ProcessedAll(codec, limit, p.store, items, now), Process(p, items, now);
            && ErrorFree(p, items, now)
            && b.store == q.store && q.direct == Reliables(q.handed)
            && |q.handed| == |p.handed| + |b.out| && p.handed <= q.handed
            && forall i :: 0 <= i < |b.out| ==> Yields(codec, limit, q.handed[|p.handed| + i], b.out[i])
    decreases |items|
  {
    hide AfterIncoming, FinalMessage, ProcessedResolved, StepItem, Yields, Reliables;
    if items != [] {
      ItemIsStep(codec, limit, p, items[0], now);
      var q1, out := StepItem(p, items[0], now), ProcessedResolved(codec, limit, p.store, items[0], now).1;
      if HandedBy(out) != [] {
        ReliablesAppend(p.handed, [items[0]]);
      }
      TransportHandsOutDirect(codec, limit, q1, items[1..], now);
      var b, q := ProcessedAll(codec, limit, p.store, items, now), Process(p, items, now);
      var rest := ProcessedAll(codec, limit, q1.store, items[1..], now).out;
      assert b.out == HandedBy(out) + rest;
      forall i | 0 <= i < |b.out|
        ensures Yields(codec, limit, q.handed[|p.handed| + i], b.out[i])
      {
        var k := i - |HandedBy(out)|;
        if k >= 0 {
          assert Yields(codec, limit, q.handed[|q1.handed| + k], rest[k]);
        } else {
          assert q.handed[|p.handed|] == q1.handed[|p.handed|] == items[0];
        }
      }
    }
  }

  function Numbered(id: u16): MessageMeta {
    MessageMeta(MSG_DATA, None, Some(ReliabilityHeader(id, 0, [])), None, [id % 0x100], 5)
  }

  /** Message 2 waits; a datagram with message 1, a reconnect answer and message 3 hands out 1, 3, 2. */
  lemma BatchBreaksOrder()
    ensures var s := InitialState.(outOfOrder := [StoredMessage(Numbered(2), 0.0)]);
            var items := [DataArrived(Numbered(1)), ControlArrived(ANSWER), DataArrived(Numbered(3))];
            var p := Process(Begin(s), items, 0.0);
            && StoreInv(s)
            && p.handed == items
            && HandedOut(p) == [Numbered(1), Numbered(3), Numbered(2)]
            && p.accepted == [Numbered(1), Numbered(2), Numbered(3)]
  {
    hide AfterIncoming, Process;
    var s := InitialState.(outOfOrder := [StoredMessage(Numbered(2), 0.0)]);
    AcceptsWithOneWaiting(s, Numbered(1), Numbered(2));
    var p1 := StepItem(Begin(s), DataArrived(Numbered(1)), 0.0);
    assert p1 == Progress(p1.store, [DataArrived(Numbered(1))], [Numbered(1)], [Numbered(1), Numbered(2)], true);
    var p2 := StepItem(p1, ControlArrived(ANSWER), 0.0);
    assert p2 == p1.(handed := [DataArrived(Numbered(1)), ControlArrived(ANSWER)]);
    AcceptsWithNoneWaiting(p2.store, Numbered(3));
    ThreeSteps(Begin(s), DataArrived(Numbered(1)), ControlArrived(ANSWER), DataArrived(Numbered(3)), 0.0);
  }

  const ANSWER := MessageMeta(MSG_RECONNECT_SUCCESS, None, None, None, [], 1)

  lemma ThreeSteps(p: Progress, a: Resolved, b: Resolved, c: Resolved, now: Time)
    requires ResolvedOk(a) && ResolvedOk(b) && ResolvedOk(c)
    ensures AllResolvedOk([a, b, c])
    ensures Process(p, [a, b, c], now) == StepItem(StepItem(StepItem(p, a, now), b, now), c, now)
  {
    hide StepItem;
    assert [a, b, c][1..] == [b, c] && [b, c][1..] == [c] && [c][1..] == [];
    var p1, p2 := StepItem(p, a, now), StepItem(StepItem(p, a, now), b, now);
    assert Process(p, [a, b, c], now) == Process(p1, [b, c], now);
    assert Process(p1, [b, c], now) == Process(p2, [c], now);
    assert Process(p2, [c], now) == Process(StepItem(p2, c, now), [], now);
  }

  lemma AcceptsWithNoneWaiting(s: StoreState, meta: MessageMeta)
    requires IsReliable(meta) && IdOf(meta) == s.nextRemoteId && s.outOfOrder == []
    ensures var (t, r) := AfterIncoming(s, meta, 0.0); r == Ok(true) && t.delayed == s.delayed
  {
    var s1 := s.(localUnacked := AckAll(s.localUnacked, meta.rel.value.acks));
    var u := s1.(remoteUnacked := s1.remoteUnacked + [RemoteAck(s1.nextRemoteId, 0.0)],
                 nextRemoteId := NextId(s1.nextRemoteId));
    assert FindStored(u.outOfOrder, u.nextRemoteId) == |u.outOfOrder|;
    assert Restore(u, 0.0) == u;
  }

  lemma AcceptsWithOneWaiting(s: StoreState, meta: MessageMeta, waiting: MessageMeta)
    requires IsReliable(meta) && IdOf(meta) == s.nextRemoteId && s.delayed == []
    requires s.outOfOrder == [StoredMessage(waiting, 0.0)] && IdOf(waiting) == NextId(s.nextRemoteId)
    ensures var (t, r) := AfterIncoming(s, meta, 0.0);
            r == Ok(true) && t.delayed == [waiting] && t.outOfOrder == [] && t.nextRemoteId == NextId(IdOf(waiting))
  {
    var s1 := s.(localUnacked := AckAll(s.localUnacked, meta.rel.value.acks));
    var u := s1.(remoteUnacked := s1.remoteUnacked + [RemoteAck(s1.nextRemoteId, 0.0)],
                 nextRemoteId := NextId(s1.nextRemoteId));
    assert FindStored(u.outOfOrder, u.nextRemoteId) == 0;
    var v := RestoredOne(u, 0, 0.0);
    assert v.outOfOrder == [] && v.delayed == [waiting];
    assert Restore(u, 0.0) == Accept(Released(u, 0), 0.0) == Restore(v, 0.0) == v;
  }
}
