/**
  Which messages of a datagram the application never gets. An error ends the reading of a
  datagram; the first message handed over by then is dropped with it, and a reliable message
  whose own payload does not unpack is lost as well. Both are acknowledged all the same.
  Exactly when that happens can be told beforehand, from what the datagram's items come to,
  fragments included, and the ids that wait.
 */
module ReceiveLoss {
  import opened Wrappers
  import opened Bytes
  import opened MessageTypes
  import opened ControlMessages
  import opened MessageCodec
  import opened DatagramIterator
  import opened SequenceNumbers
  import opened Reliability
  import opened ReliabilityProofs
  import opened FragmentStores
  import opened Compression
  import opened UdpTransports
  import opened ReceiveOrder

  // ---------------------------------------------------------------- what was taken and what was handed over

  /** Of one datagram: the messages handed over, and the reliable ones accepted, and so acknowledged. */
  datatype Ledger = Ledger(handed: seq<Resolved>, accepted: seq<MessageMeta>)

  predicate Accepts(s: StoreState, item: Resolved, now: Time) {
    IsReliableItem(item) && AfterIncoming(s, item.meta, now).1 == Ok(true)
  }

  function LedgerOf(codec: Codec, limit: nat, s: StoreState, items: seq<Resolved>, now: Time): Ledger
    requires AllResolvedOk(items)
    decreases |items|
  {
    if items == [] then Ledger([], [])
    else
      var (t, out) := ProcessedResolved(codec, limit, s, items[0], now);
      var accepted := if Accepts(s, items[0], now) then [items[0].meta] else [];
      if out.Err? then Ledger([], accepted)
      else
        var rest := LedgerOf(codec, limit, t, items[1..], now);
        Ledger((if HandedBy(out) == [] then [] else [items[0]]) + rest.handed, accepted + rest.accepted)
  }

  /** What the application gets: all that was handed over, or after an error all but the first. */
  function Given<T>(handed: seq<T>, error: Option<TransportError>): seq<T> {
    if error == None || handed == [] then handed else handed[1..]
  }

  /** The messages of the ledger are those of the batch, and what is returned or becomes pending is what is given. */
  lemma {:induction false} LedgerIsOfBatch(codec: Codec, limit: nat, s: StoreState, items: seq<Resolved>, now: Time)
    requires AllResolvedOk(items)
    ensures var b, l := ProcessedAll(codec, limit, s, items, now), LedgerOf(codec, limit, s, items, now);
            |l.handed| == |b.out| && forall i :: 0 <= i < |b.out| ==> Yields(codec, limit, l.handed[i], b.out[i])
    decreases |items|
  {
    hide ProcessedResolved, Yields, Accepts;
    if items != [] {
      var (t, out) := ProcessedResolved(codec, limit, s, items[0], now);
      if out.Ok? {
        ItemIsStep(codec, limit, Begin(s), items[0], now);
        LedgerIsOfBatch(codec, limit, t, items[1..], now);
      }
    }
  }

  /**
    For every datagram, fragments included: what its items come to, and that returned and
    pending messages are all that were handed over exactly when there was no error, or nothing
    before it.
   */
  lemma NothingLostIff(codec: Codec, limit: nat, s: StoreState, m: Messages, items: seq<ReadItem>, now: Time,
                       s': StoreState, m': Messages, pending: seq<Received>, out: Outcome)
    returns (xs: seq<Resolved>, ms: seq<Messages>)
    requires ReadsTo(codec, limit, s, m, items, now, s', m', pending, out)
    ensures ReadsAs(codec, limit, s, m, items, now, s', m', pending, out, xs, ms)
    ensures var b := ProcessedAll(codec, limit, s, xs, now);
            && HandedBy(out) + pending == Given(b.out, b.error) && (out.Err? <==> b.error.Some?)
            && (HandedBy(out) + pending == b.out <==> b.error == None || b.out == [])
  {
    hide Resolution, ProcessedAll, ReadsThrough, BatchLeads;
    xs, ms :| ReadsAs(codec, limit, s, m, items, now, s', m', pending, out, xs, ms);
    ResolutionIsOk(ms, items, now, xs);
    LeadsToGiven(ProcessedAll(codec, limit, s, xs, now), s', pending, out);
  }

  lemma ResolutionIsOk(ms: seq<Messages>, items: seq<ReadItem>, now: Time, xs: seq<Resolved>)
    requires Resolution(ms, items, now, xs)
    ensures AllResolvedOk(xs)
  {
    hide Resolves;
  }

  lemma LeadsToGiven(b: Batch, s': StoreState, pending: seq<Received>, out: Outcome)
    requires BatchLeads(b, s', pending, out)
    ensures HandedBy(out) + pending == Given(b.out, b.error) && (out.Err? <==> b.error.Some?)
    ensures HandedBy(out) + pending == b.out <==> b.error == None || b.out == []
  {
    if b.out != [] {
      assert b.out == [b.out[0]] + b.out[1..];
      HandedInTurn([], [], b.out[1..]);
    }
  }

  // ---------------------------------------------------------------- telling it beforehand

  /**
    Whether item `t` is a data message that goes on to be unpacked: one without a reliable id,
    or one that is the k-th message of the run, for some k, and need not wait.
   */
  predicate GoesOn(s: StoreState, items: seq<Resolved>, t: nat)
    requires t < |items| && items[t].DataArrived?
  {
    IsReliableItem(items[t]) ==>
      exists k :: 0 <= k <= |s.outOfOrder| + ReliableCount(items) && ArrivesAt(s, items, k) == t && !MustWait(s, items, k)
  }

  /** How many messages of the run, counted from the k-th, are accepted before item `t`. */
  function RunFrom(s: StoreState, items: seq<Resolved>, t: nat, k: nat): nat
    decreases |s.outOfOrder| + ReliableCount(items) + 1 - k
  {
    if k > |s.outOfOrder| + ReliableCount(items) || ArrivesAt(s, items, k) >= t then k else RunFrom(s, items, t, k + 1)
  }

  /** The id expected when item `t` arrives. */
  function ExpectedAt(s: StoreState, items: seq<Resolved>, t: nat): u16 {
    Advance(s.nextRemoteId, RunFrom(s, items, t, 0))
  }

  function RunIds(first: u16, a: nat, b: nat): set<u16> {
    set k: nat | a <= k < b :: Advance(first, k)
  }

  function StoredIds(q: seq<StoredMessage>): set<u16> {
    set i | 0 <= i < |q| :: IdOf(q[i].meta)
  }

  /** The ids that wait when item `t` arrives: those ahead are added, and a message that goes on takes its run with it. */
  function WaitingIds(s: StoreState, items: seq<Resolved>, t: nat): set<u16>
    requires t <= |items|
  {
    if t == 0 then StoredIds(s.outOfOrder)
    else
      var waiting, item := WaitingIds(s, items, t - 1), items[t - 1];
      if !IsReliableItem(item) then waiting
      else if GoesOn(s, items, t - 1) then
        waiting - RunIds(s.nextRemoteId, RunFrom(s, items, t - 1, 0), RunFrom(s, items, t, 0))
      else if Classify(IdAt(item), ExpectedAt(s, items, t - 1)) == OutOfOrder then waiting + {IdAt(item)}
      else waiting
  }

  /** Item `t` is ahead, and no place is left to keep it. */
  predicate IsRefused(s: StoreState, items: seq<Resolved>, t: nat)
    requires t < |items|
  {
    && IsReliableItem(items[t]) && Classify(IdAt(items[t]), ExpectedAt(s, items, t)) == OutOfOrder
    && |WaitingIds(s, items, t)| >= MAX_OUT_OF_ORDER
  }

  /** Item `t` causes no error: it is not one, it is not refused, and it decodes or unpacks if it goes on so far. */
  predicate IsFine(codec: Codec, limit: nat, s: StoreState, items: seq<Resolved>, t: nat)
    requires t < |items|
  {
    match items[t]
    case Failure(_) => false
    case Silence => true
    case ControlArrived(meta) => Decoded(meta.typ, meta.data).Ok?
    case DataArrived(meta) => !IsRefused(s, items, t) && (GoesOn(s, items, t) ==> FinalMessage(codec, limit, meta).Ok?)
  }

  /** Item `t` is handed over, if it causes no error. */
  predicate HandsOver(s: StoreState, items: seq<Resolved>, t: nat)
    requires t < |items|
  {
    items[t].ControlArrived? || (items[t].DataArrived? && GoesOn(s, items, t))
  }

  function FirstFailing(codec: Codec, limit: nat, s: StoreState, items: seq<Resolved>, t: nat): (f: nat)
    requires t <= |items|
    ensures t <= f <= |items|
    ensures f < |items| ==> !IsFine(codec, limit, s, items, f)
    ensures forall u :: t <= u < f ==> IsFine(codec, limit, s, items, u)
    decreases |items| - t
  {
    if t == |items| || !IsFine(codec, limit, s, items, t) then t else FirstFailing(codec, limit, s, items, t + 1)
  }

  function FirstHanded(s: StoreState, items: seq<Resolved>, t: nat): (h: nat)
    requires t <= |items|
    ensures t <= h <= |items|
    ensures h < |items| ==> HandsOver(s, items, h)
    ensures forall u :: t <= u < h ==> !HandsOver(s, items, u)
    decreases |items| - t
  {
    if t == |items| || HandsOver(s, items, t) then t else FirstHanded(s, items, t + 1)
  }

  /** Item `f` is a reliable message that is accepted, if nothing fails before it. */
  predicate IsTaken(codec: Codec, limit: nat, s: StoreState, items: seq<Resolved>, f: nat) {
    f < |items| && IsReliableItem(items[f]) && GoesOn(s, items, f)
  }

  /** The message that fails on itself, if it does: it was accepted before it turned out not to unpack. */
  function OwnFailure(codec: Codec, limit: nat, s: StoreState, items: seq<Resolved>, f: nat): seq<MessageMeta> {
    if IsTaken(codec, limit, s, items, f) then [items[f].meta] else []
  }

  /**
    No reliable message is lost: nothing fails, or what fails first is not itself an accepted
    message, and what is handed over first, if anything is before it, is not a reliable one.
   */
  predicate LosesNone(codec: Codec, limit: nat, s: StoreState, items: seq<Resolved>) {
    var f, h := FirstFailing(codec, limit, s, items, 0), FirstHanded(s, items, 0);
    f == |items| || (!IsTaken(codec, limit, s, items, f) && (h < f ==> !IsReliableItem(items[h])))
  }

  /** A reliable message is accepted directly exactly if, by the ids, it is one that goes on. */
  lemma AcceptedIffGoesOn(p: Progress, s: StoreState, items: seq<Resolved>, now: Time, t: nat)
    requires ProgressInv(p, s.nextRemoteId) && Tracks(p, s, items, t) && SmallBatch(s, items)
    requires t < |items| && IsReliableItem(items[t])
    ensures AfterIncoming(p.store, items[t].meta, now).1 == Ok(true) <==> GoesOn(s, items, t)
  {
    hide AfterIncoming, Waits, StoreInv, ArrivesAt, Advance, Consecutive, MustWait;
    var e, n := s.nextRemoteId, |p.accepted|;
    ArrivalReleases(p.store, items[t].meta, now);
    StoreInvIsWellStored(p.store);
    ArrivesBy(s, items, t, n);
    if IdOf(items[t].meta) == Advance(e, n) {
      EarlierNeedNot(s, items, n);
      ExpectedIsAccepted(p.store, items[t].meta, now);
    } else {
      forall k | 0 <= k <= |s.outOfOrder| + ReliableCount(items) && ArrivesAt(s, items, k) == t
        ensures MustWait(s, items, k)
      {
        if k > n {
          LaterMustWait(s, items, n, k);
        } else {
          ArrivesBy(s, items, t, k);
        }
      }
    }
  }

  lemma ExpectedIsAccepted(s: StoreState, meta: MessageMeta, now: Time)
    requires IsReliable(meta) && IdOf(meta) == s.nextRemoteId
    ensures AfterIncoming(s, meta, now).1 == Ok(true)
  {
  }

  // ---------------------------------------------------------------- what waits, told beforehand

  /** Reading starts with an empty delayed queue; `BatchFits` tells that no datagram has more reliable messages. */
  ghost predicate CanBeRead(s: StoreState, items: seq<Resolved>) {
    StoreInv(s) && s.delayed == [] && ReliableCount(items) <= MAX_BATCH
  }

  /** The store after the first `t` items is as the ids tell. */
  ghost predicate Follows(p: Progress, s: StoreState, items: seq<Resolved>, t: nat) {
    && ProgressInv(p, s.nextRemoteId) && Tracks(p, s, items, t) && SmallBatch(s, items)
    && WaitingIds(s, items, t) == StoredIds(p.store.outOfOrder)
  }

  lemma {:induction false} RunFromIs(s: StoreState, items: seq<Resolved>, t: nat, k: nat, n: nat)
    requires k <= n <= |s.outOfOrder| + ReliableCount(items) && ArrivesAt(s, items, n) >= t
    requires forall j :: k <= j < n ==> ArrivesAt(s, items, j) < t
    ensures RunFrom(s, items, t, k) == n
    decreases n - k
  {
    hide ArrivesAt;
    if k < n {
      RunFromIs(s, items, t, k + 1, n);
    }
  }

  /** As many messages of the run are accepted as the ids tell. */
  lemma RunIsAccepted(p: Progress, s: StoreState, items: seq<Resolved>, t: nat)
    requires ProgressInv(p, s.nextRemoteId) && Tracks(p, s, items, t) && SmallBatch(s, items)
    ensures RunFrom(s, items, t, 0) == |p.accepted| && ExpectedAt(s, items, t) == p.store.nextRemoteId
  {
    hide ArrivesAt, Advance, MustWait, Waits, Consecutive;
    StoreInvIsWellStored(p.store);
    RunFromIs(s, items, t, 0, |p.accepted|);
  }

  lemma {:induction false} DistinctIds(q: seq<StoredMessage>)
    requires forall i, j :: 0 <= i < j < |q| ==> IdOf(q[i].meta) != IdOf(q[j].meta)
    ensures |StoredIds(q)| == |q|
    decreases |q|
  {
    if q != [] {
      var init, last := q[..|q| - 1], IdOf(q[|q| - 1].meta);
      DistinctIds(init);
      assert StoredIds(q) == StoredIds(init) + {last};
      assert last !in StoredIds(init);
    }
  }

  lemma WaitsIffStored(s: StoreState, id: u16)
    ensures Waits(s, id) <==> id in StoredIds(s.outOfOrder)
  {
    WaitsIff(s, id);
  }

  lemma StoreHasDistinctIds(s: StoreState)
    requires StoreInv(s)
    ensures |StoredIds(s.outOfOrder)| == |s.outOfOrder|
  {
    DistinctIds(s.outOfOrder);
  }

  lemma {:induction false} RunIdsCount(first: u16, a: nat, b: nat)
    requires first != 0 && a <= b <= HORIZON
    ensures |RunIds(first, a, b)| == b - a
    decreases b
  {
    if a < b {
      var init, last := RunIds(first, a, b - 1), Advance(first, b - 1);
      RunIdsCount(first, a, b - 1);
      assert RunIds(first, a, b) == init + {last};
      if last in init {
        var k: nat :| a <= k < b - 1 && Advance(first, k) == last;
        RunIdsDiffer(first, k, b - 1);
      }
    }
  }

  /** Two parts as large together as the whole have nothing in common. */
  lemma PartsAreDisjoint(a: set<u16>, b: set<u16>, c: set<u16>)
    requires a == b + c && |a| == |b| + |c|
    ensures b == a - c
  {
    assert |b + c| + |b * c| == |b| + |c|;
    assert |b * c| == 0;
    forall x: u16
      ensures x in b <==> x in a - c
    {
      assert x in b && x in c ==> x in b * c;
    }
  }

  /** What an accepted message releases no longer waits, and nothing else stops waiting. */
  lemma ReleasedStopWaiting(s: StoreState, meta: MessageMeta, now: Time, first: u16, n: nat)
    requires StoreInv(s) && IsReliable(meta) && AfterIncoming(s, meta, now).1 == Ok(true) && first != 0
    requires s.nextRemoteId == Advance(first, n) && n + 1 + MAX_OUT_OF_ORDER < HORIZON
    ensures var t := AfterIncoming(s, meta, now).0;
            && s.delayed <= t.delayed
            && StoredIds(t.outOfOrder) == StoredIds(s.outOfOrder) - RunIds(first, n, n + 1 + (|t.delayed| - |s.delayed|))
  {
    hide AfterIncoming, Consecutive, Advance, HasId, Waits, StoreInv, RunIds, StoredIds;
    ArrivalReleases(s, meta, now);
    ReleasedWaited(s, meta, now);
    var t := AfterIncoming(s, meta, now).0;
    var released := t.delayed[|s.delayed|..];
    var k := n + 1 + |released|;
    StoreHasDistinctIds(s);
    StoreHasDistinctIds(t);
    RunIdsCount(first, n + 1, k);
    ReleasedHaveRunIds(s, meta, released, first, n);
    var a, b, c := StoredIds(s.outOfOrder), StoredIds(t.outOfOrder), RunIds(first, n + 1, k);
    forall id: u16
      ensures id in a <==> id in b + c
    {
      WaitsIffStored(s, id);
      WaitsIffStored(t, id);
    }
    assert a == b + c;
    PartsAreDisjoint(a, b, c);
    StoreInvIsWellStored(s);
    WaitsIffStored(s, s.nextRemoteId);
    RunIdsFrom(first, n, k);
    assert a - c == a - (c + {Advance(first, n)});
  }

  lemma RunIdsFrom(first: u16, a: nat, b: nat)
    requires a < b
    ensures RunIds(first, a, b) == RunIds(first, a + 1, b) + {Advance(first, a)}
  {
    hide Advance;
    forall id: u16
      ensures id in RunIds(first, a, b) <==> id in RunIds(first, a + 1, b) + {Advance(first, a)}
    {
      if id in RunIds(first, a, b) {
        var k: nat :| a <= k < b && Advance(first, k) == id;
        assert k == a || id in RunIds(first, a + 1, b);
      }
      if id in RunIds(first, a + 1, b) {
        var k: nat :| a + 1 <= k < b && Advance(first, k) == id;
        assert id in RunIds(first, a, b);
      }
    }
  }

  lemma ReleasedHaveRunIds(s: StoreState, meta: MessageMeta, released: seq<MessageMeta>, first: u16, n: nat)
    requires first != 0 && Consecutive([meta] + released, s.nextRemoteId) && s.nextRemoteId == Advance(first, n)
    ensures forall id :: HasId(released, id) <==> id in RunIds(first, n + 1, n + 1 + |released|)
  {
    hide Advance, Consecutive, RunIds, HasId;
    forall i | 0 <= i < |released|
      ensures IdOf(released[i]) == Advance(first, n + 1 + i)
    {
      ConsecutiveAt([meta] + released, s.nextRemoteId, i + 1);
      AdvanceAdds(first, n, i + 1);
    }
    HaveRunIds(released, first, n + 1);
  }

  lemma HaveRunIds(metas: seq<MessageMeta>, first: u16, a: nat)
    requires forall i :: 0 <= i < |metas| ==> IdOf(metas[i]) == Advance(first, a + i)
    ensures forall id :: HasId(metas, id) <==> id in RunIds(first, a, a + |metas|)
  {
    hide Advance, IdOf;
    forall id
      ensures HasId(metas, id) <==> id in RunIds(first, a, a + |metas|)
    {
      if HasId(metas, id) {
        var i :| 0 <= i < |metas| && IdOf(metas[i]) == id;
        assert Advance(first, a + i) == id;
      }
      if id in RunIds(first, a, a + |metas|) {
        var k: nat :| a <= k < a + |metas| && Advance(first, k) == id;
        assert IdOf(metas[k - a]) == id && metas[k - a] in metas;
      }
    }
  }

  /** A message that is not accepted directly waits from now on if it is ahead. */
  lemma OthersWait(s: StoreState, meta: MessageMeta, now: Time)
    requires StoreInv(s) && IsReliable(meta) && AfterIncoming(s, meta, now).1 == Ok(false)
    ensures StoredIds(AfterIncoming(s, meta, now).0.outOfOrder)
            == StoredIds(s.outOfOrder) + if Classify(IdOf(meta), s.nextRemoteId) == OutOfOrder then {IdOf(meta)} else {}
  {
    hide Restore, AckAll;
    var t := AfterIncoming(s, meta, now).0;
    var s1 := s.(localUnacked := AckAll(s.localUnacked, meta.rel.value.acks));
    match Classify(IdOf(meta), s.nextRemoteId)
    case Duplicate => AckAgainStoresNothing(s1, IdOf(meta), now);
    case OutOfOrder =>
      var q, x := s.outOfOrder, StoredMessage(meta, now);
      if t.outOfOrder == q {
        WaitsIffStored(s, IdOf(meta));
      } else {
        assert t.outOfOrder == q + [x];
        StoredIdsAppend(q, x);
      }
    case InOrder =>
  }

  lemma StoredIdsAppend(q: seq<StoredMessage>, x: StoredMessage)
    ensures StoredIds(q + [x]) == StoredIds(q) + {IdOf(x.meta)}
  {
    var r := q + [x];
    assert r[|q|] == x && forall i :: 0 <= i < |q| ==> r[i] == q[i];
    forall id | id in StoredIds(q) + {IdOf(x.meta)}
      ensures id in StoredIds(r)
    {
      if id in StoredIds(q) {
        var i :| 0 <= i < |q| && IdOf(q[i].meta) == id;
        assert IdOf(r[i].meta) == id;
      } else {
        assert IdOf(r[|q|].meta) == id;
      }
    }
  }

  lemma BeginFollows(s: StoreState, items: seq<Resolved>)
    requires CanBeRead(s, items)
    ensures Follows(Begin(s), s, items, 0)
  {
    BeginTracks(s, items);
    FirstIsNotZero(s);
  }

  /** The next item, if it is not refused. */
  lemma StepFollows(p: Progress, s: StoreState, items: seq<Resolved>, now: Time, t: nat)
    requires Follows(p, s, items, t) && AllResolvedOk(items) && t < |items|
    requires IsReliableItem(items[t]) ==> AfterIncoming(p.store, items[t].meta, now).1.Ok?
    ensures Follows(StepItem(p, items[t], now), s, items, t + 1)
  {
    hide AfterIncoming, ProgressInv, Tracks, StepItem;
    StepItemTracks(p, s, items, now, t);
    var q := StepItem(p, items[t], now);
    RunIsAccepted(p, s, items, t);
    RunIsAccepted(q, s, items, t + 1);
    hide RunFrom;
    if IsReliableItem(items[t]) {
      var accepted := AfterIncoming(p.store, items[t].meta, now).1;
      assert accepted == Ok(accepted.value);
      AcceptedIffGoesOn(p, s, items, now, t);
      ReliableStepItem(p, items[t], now);
      AcceptedIsBounded(p, s, items, t);
      StepWaiting(p, items[t].meta, now, s.nextRemoteId, |s.outOfOrder| + ReliableCount(items));
    } else {
      OtherStores(p, items[t], now);
    }
  }

  lemma AcceptedIsBounded(p: Progress, s: StoreState, items: seq<Resolved>, t: nat)
    requires Tracks(p, s, items, t)
    ensures |p.accepted| <= |s.outOfOrder| + ReliableCount(items)
  {
    hide ArrivesAt, Waits, MustWait;
  }

  lemma OtherStores(p: Progress, item: Resolved, now: Time)
    requires ResolvedOk(item) && !IsReliableItem(item)
    ensures StepItem(p, item, now).store.outOfOrder == p.store.outOfOrder
  {
    hide AfterIncoming;
    if item.DataArrived? {
      OtherChangesLittle(p.store, item.meta, now);
    }
  }

  /** What waits after a reliable message. */
  lemma StepWaiting(p: Progress, meta: MessageMeta, now: Time, first: u16, bound: nat)
    requires ProgressInv(p, first) && IsReliable(meta) && AfterIncoming(p.store, meta, now).1.Ok?
    requires |p.accepted| <= bound < HORIZON - MAX_OUT_OF_ORDER - 1
    ensures var q, before := Step(p, meta, now), StoredIds(p.store.outOfOrder);
            StoredIds(q.store.outOfOrder)
            == if AfterIncoming(p.store, meta, now).1 == Ok(true) then before - RunIds(first, |p.accepted|, |q.accepted|)
               else if Classify(IdOf(meta), p.store.nextRemoteId) == OutOfOrder then before + {IdOf(meta)}
               else before
  {
    hide AfterIncoming, RunIds, StoredIds, Consecutive, Advance, StoreInv;
    var accepted := AfterIncoming(p.store, meta, now).1;
    assert accepted == Ok(accepted.value);
    FirstOfRun(p, first);
    if accepted.value {
      ReleasedStopWaiting(p.store, meta, now, first, |p.accepted|);
      ArrivalReleases(p.store, meta, now);
    } else {
      OthersWait(p.store, meta, now);
      assert StoredIds(p.store.outOfOrder) + {} == StoredIds(p.store.outOfOrder);
    }
  }

  // ---------------------------------------------------------------- one item

  /** What one item leads to, told beforehand. */
  lemma ItemOutcome(codec: Codec, limit: nat, p: Progress, s: StoreState, items: seq<Resolved>, now: Time, t: nat)
    requires Follows(p, s, items, t) && AllResolvedOk(items) && t < |items|
    ensures var out := ProcessedResolved(codec, limit, p.store, items[t], now).1;
            && (out.Ok? <==> IsFine(codec, limit, s, items, t))
            && (out.Ok? ==> (HandedBy(out) != [] <==> HandsOver(s, items, t)))
            && (out.Ok? && IsReliableItem(items[t]) ==> AfterIncoming(p.store, items[t].meta, now).1.Ok?)
    ensures Accepts(p.store, items[t], now) <==> IsTaken(codec, limit, s, items, t)
  {
    hide ProgressInv, Tracks, FinalMessage, Decoded, Step, GoesOn, WaitingIds;
    if IsReliableItem(items[t]) {
      RefusedIff(p.store, items[t].meta, now);
      hide AfterIncoming;
      AcceptedIffGoesOn(p, s, items, now, t);
      RunIsAccepted(p, s, items, t);
      hide ExpectedAt;
      FirstOfRun(p, s.nextRemoteId);
      StoreHasDistinctIds(p.store);
      var accepted := AfterIncoming(p.store, items[t].meta, now).1;
      assert accepted.Ok? ==> accepted == Ok(accepted.value);
    } else {
      UnreliableGoesOn(s, items, t);
    }
  }

  lemma UnreliableGoesOn(s: StoreState, items: seq<Resolved>, t: nat)
    requires t < |items| && !IsReliableItem(items[t])
    ensures items[t].DataArrived? ==> GoesOn(s, items, t)
  {
  }

  /** The ledger and the error from item `t` on, told beforehand. */
  ghost predicate Foretold(codec: Codec, limit: nat, s: StoreState, items: seq<Resolved>, t: nat, b: Batch, l: Ledger)
    requires t <= |items|
  {
    var f, h := FirstFailing(codec, limit, s, items, t), FirstHanded(s, items, t);
    && (b.error == None <==> f == |items|)
    && (l.handed != [] <==> h < f)
    && (h < f ==> l.handed[0] == items[h])
    && l.accepted == Reliables(l.handed) + OwnFailure(codec, limit, s, items, f)
  }

  lemma {:induction false} SuffixForetold(codec: Codec, limit: nat, p: Progress, s: StoreState, items: seq<Resolved>,
                                          now: Time, t: nat)
    requires Follows(p, s, items, t) && AllResolvedOk(items) && t <= |items|
    ensures Foretold(codec, limit, s, items, t,
                     ProcessedAll(codec, limit, p.store, items[t..], now), LedgerOf(codec, limit, p.store, items[t..], now))
    decreases |items| - t
  {
    hide Follows, ProcessedResolved, StepItem, IsFine, HandsOver, OwnFailure, Accepts, Reliables;
    if t == |items| {
      NoneAtEnd(codec, limit, s, items);
    } else {
      assert items[t..][0] == items[t] && items[t..][1..] == items[t + 1..];
      ItemOutcome(codec, limit, p, s, items, now, t);
      var (u, out) := ProcessedResolved(codec, limit, p.store, items[t], now);
      if out.Err? {
        FailureForetold(codec, limit, p, s, items, now, t);
      } else {
        ItemIsStep(codec, limit, p, items[t], now);
        StepFollows(p, s, items, now, t);
        SuffixForetold(codec, limit, StepItem(p, items[t], now), s, items, now, t + 1);
        OneMoreForetold(codec, limit, p, s, items, now, t);
      }
    }
  }

  lemma NoneAtEnd(codec: Codec, limit: nat, s: StoreState, items: seq<Resolved>)
    ensures Reliables([]) == [] && OwnFailure(codec, limit, s, items, |items|) == []
  {
  }

  /** A failing item in front: nothing more is handed over, and at most it is accepted itself. */
  lemma FailureForetold(codec: Codec, limit: nat, p: Progress, s: StoreState, items: seq<Resolved>, now: Time, t: nat)
    requires AllResolvedOk(items) && t < |items| && items[t..][0] == items[t] && !IsFine(codec, limit, s, items, t)
    requires ProcessedResolved(codec, limit, p.store, items[t], now).1.Err?
    requires Accepts(p.store, items[t], now) <==> IsTaken(codec, limit, s, items, t)
    ensures Foretold(codec, limit, s, items, t,
                     ProcessedAll(codec, limit, p.store, items[t..], now), LedgerOf(codec, limit, p.store, items[t..], now))
  {
    hide ProcessedResolved, IsFine, HandsOver, GoesOn;
    var l := LedgerOf(codec, limit, p.store, items[t..], now);
    assert l.accepted == OwnFailure(codec, limit, s, items, t);
    assert [] + l.accepted == l.accepted;
    assert FirstFailing(codec, limit, s, items, t) == t;
  }

  /** The ledger and the error with one item more in front that causes none. */
  lemma OneMoreInLedger(codec: Codec, limit: nat, s: StoreState, items: seq<Resolved>, now: Time, t: nat)
    requires AllResolvedOk(items) && t < |items| && items[t..][0] == items[t] && items[t..][1..] == items[t + 1..]
    requires ProcessedResolved(codec, limit, s, items[t], now).1.Ok?
    ensures var (u, out) := ProcessedResolved(codec, limit, s, items[t], now);
            var l, rest := LedgerOf(codec, limit, s, items[t..], now), LedgerOf(codec, limit, u, items[t + 1..], now);
            && ProcessedAll(codec, limit, s, items[t..], now).error
               == ProcessedAll(codec, limit, u, items[t + 1..], now).error
            && l.handed == (if HandedBy(out) == [] then [] else [items[t]]) + rest.handed
            && l.accepted == (if Accepts(s, items[t], now) then [items[t].meta] else []) + rest.accepted
  {
    hide ProcessedResolved, Accepts;
  }

  lemma OneReliable(item: Resolved, rest: seq<Resolved>)
    ensures Reliables([item] + rest) == (if IsReliableItem(item) then [item.meta] else []) + Reliables(rest)
  {
    assert ([item] + rest)[1..] == rest;
  }

  /** A fine item in front of a foretold rest. */
  lemma OneMoreForetold(codec: Codec, limit: nat, p: Progress, s: StoreState, items: seq<Resolved>, now: Time, t: nat)
    requires AllResolvedOk(items) && t < |items| && items[t..][0] == items[t] && items[t..][1..] == items[t + 1..]
    requires IsFine(codec, limit, s, items, t)
    requires var (u, out) := ProcessedResolved(codec, limit, p.store, items[t], now);
             && out.Ok? && (HandedBy(out) != [] <==> HandsOver(s, items, t))
             && (Accepts(p.store, items[t], now) <==> IsTaken(codec, limit, s, items, t))
             && Foretold(codec, limit, s, items, t + 1,
                         ProcessedAll(codec, limit, u, items[t + 1..], now), LedgerOf(codec, limit, u, items[t + 1..], now))
    ensures Foretold(codec, limit, s, items, t,
                     ProcessedAll(codec, limit, p.store, items[t..], now), LedgerOf(codec, limit, p.store, items[t..], now))
  {
    hide ProcessedResolved, ProcessedAll, LedgerOf, IsFine, GoesOn, Accepts, Reliables, OwnFailure;
    OneMoreInLedger(codec, limit, p.store, items, now, t);
    var (u, out) := ProcessedResolved(codec, limit, p.store, items[t], now);
    var l, rest := LedgerOf(codec, limit, p.store, items[t..], now), LedgerOf(codec, limit, u, items[t + 1..], now);
    var own := OwnFailure(codec, limit, s, items, FirstFailing(codec, limit, s, items, t + 1));
    if HandedBy(out) == [] {
      assert l.handed == rest.handed && l.accepted == rest.accepted;
    } else {
      OneReliable(items[t], rest.handed);
      assert l.accepted == Reliables(l.handed) + own;
    }
  }

  /** With room for all reliable messages of the datagram none is refused. */
  lemma {:induction false} RoomNeverRefuses(codec: Codec, limit: nat, s: StoreState, items: seq<Resolved>, now: Time)
    requires StoreInv(s) && AllResolvedOk(items) && |s.outOfOrder| + ReliableCount(items) <= MAX_OUT_OF_ORDER
    requires forall i :: 0 <= i < |items| ==> items[i] != Failure(TooUnreliable)
    ensures ProcessedAll(codec, limit, s, items, now).error != Some(TooUnreliable)
    decreases |items|
  {
    hide ProcessedResolved, StepItem, StoreInv;
    if items != [] {
      CountFrom(items, 0);
      assert items[0..] == items;
      var p := Begin(s);
      StoresAtMostOne(p, items[0], now);
      ItemStore(codec, limit, p, items[0], now);
      if IsReliableItem(items[0]) {
        RefusalIsError(codec, limit, s, items[0], now);
      } else {
        OtherNotRefused(codec, limit, s, items[0], now);
      }
      RoomNeverRefuses(codec, limit, StepItem(p, items[0], now).store, items[1..], now);
    }
  }

  lemma OtherNotRefused(codec: Codec, limit: nat, s: StoreState, item: Resolved, now: Time)
    requires ResolvedOk(item) && !IsReliableItem(item) && item != Failure(TooUnreliable)
    ensures ProcessedResolved(codec, limit, s, item, now).1 != Err(TooUnreliable)
  {
  }

  /**
    The exact condition, told from what the items come to and the waiting ids. There is no
    error if and only if nothing has failed before, every control message decodes, no message
    is refused by a full store, and every data message unpacks that goes on so far. And every
    reliable message that is accepted, and so acknowledged, is given to the application if and
    only if `LosesNone` holds.
   */
  lemma AcceptedIsGivenIff(codec: Codec, limit: nat, s: StoreState, items: seq<Resolved>, now: Time)
    requires CanBeRead(s, items) && AllResolvedOk(items)
    ensures var b, l := ProcessedAll(codec, limit, s, items, now), LedgerOf(codec, limit, s, items, now);
            && (b.error == None <==> forall t :: 0 <= t < |items| ==> IsFine(codec, limit, s, items, t))
            && (Reliables(Given(l.handed, b.error)) == l.accepted <==> LosesNone(codec, limit, s, items))
  {
    hide ProcessedAll, LedgerOf, IsFine, HandsOver, IsTaken, Follows, StoreInv;
    BeginFollows(s, items);
    assert items[0..] == items;
    SuffixForetold(codec, limit, Begin(s), s, items, now, 0);
    var b, l := ProcessedAll(codec, limit, s, items, now), LedgerOf(codec, limit, s, items, now);
    var f := FirstFailing(codec, limit, s, items, 0);
    if l.handed != [] {
      assert l.handed == [l.handed[0]] + l.handed[1..];
      OneReliable(l.handed[0], l.handed[1..]);
    }
    assert b.error == None ==> OwnFailure(codec, limit, s, items, f) == [] by {
      NoneAtEnd(codec, limit, s, items);
    }
    GivenIff(l.handed, l.accepted, b.error, OwnFailure(codec, limit, s, items, f));
  }

  /** By lengths: dropping a reliable first message, or accepting one that is not handed over, leaves fewer than accepted. */
  lemma GivenIff(handed: seq<Resolved>, accepted: seq<MessageMeta>, error: Option<TransportError>,
                 own: seq<MessageMeta>)
    requires accepted == Reliables(handed) + own && (error == None ==> own == [])
    ensures Reliables(Given(handed, error)) == accepted
            <==> own == [] && (error == None || handed == [] || !IsReliableItem(handed[0]))
  {
    hide Reliables, IsReliableItem;
    if error.Some? && handed != [] {
      assert handed == [handed[0]] + handed[1..];
      OneReliable(handed[0], handed[1..]);
      var rest := Reliables(handed[1..]);
      assert |accepted| == (if IsReliableItem(handed[0]) then 1 else 0) + |rest| + |own|;
      assert [] + rest == rest && rest + [] == rest;
    } else {
      assert |accepted| == |Reliables(handed)| + |own|;
      assert Reliables(handed) + [] == Reliables(handed);
    }
  }

  lemma FirstIsNotZero(s: StoreState)
    requires StoreInv(s)
    ensures s.nextRemoteId != 0 && |s.outOfOrder| <= MAX_OUT_OF_ORDER
  {
  }

  // ---------------------------------------------------------------- an accepted message is settled

  /** The id of one of the first `n` messages of the run. */
  ghost predicate InRun(first: u16, n: nat, id: u16) {
    exists j: nat :: j < n && Advance(first, j) == id
  }

  /** Acknowledged, not expected any more, and not in the delayed queue. */
  ghost predicate Settled(p: Progress, first: u16, id: u16) {
    && AwaitsAck(p.store.remoteUnacked, id)
    && InRun(first, |p.accepted|, id)
    && (forall i :: 0 <= i < |p.store.delayed| ==> IdOf(p.store.delayed[i]) != id)
  }

  /** What is delayed was accepted in this datagram. */
  ghost predicate DelayedInRun(p: Progress, first: u16) {
    forall i :: 0 <= i < |p.store.delayed| ==> InRun(first, |p.accepted|, IdOf(p.store.delayed[i]))
  }

  lemma ArrivalAcknowledges(s: StoreState, meta: MessageMeta, now: Time)
    requires StoreInv(s) && IsReliable(meta)
    ensures var (t, r) := AfterIncoming(s, meta, now);
            s.remoteUnacked <= t.remoteUnacked && (r == Ok(true) ==> AwaitsAck(t.remoteUnacked, IdOf(meta)))
  {
    hide StoreInv, AckAll;
    var s1 := s.(localUnacked := AckAll(s.localUnacked, meta.rel.value.acks));
    var t := AfterIncoming(s, meta, now).0;
    StoreInvIsWellStored(s);
    match Classify(IdOf(meta), s1.nextRemoteId)
    case Duplicate =>
      var s2 := s1.(remoteUnacked := s1.remoteUnacked + [RemoteAck(IdOf(meta), now)]);
      assert FindStored(s2.outOfOrder, s2.nextRemoteId) == |s2.outOfOrder|;
    case OutOfOrder =>
    case InOrder =>
      var u := s1.(remoteUnacked := s1.remoteUnacked + [RemoteAck(s1.nextRemoteId, now)],
                   nextRemoteId := NextId(s1.nextRemoteId));
      RestoreMovesMaximalRun(u, now);
      assert t == Restore(u, now);
      assert t.remoteUnacked[|s.remoteUnacked|] == RemoteAck(IdOf(meta), now);
  }

  lemma StillAwaits(a: seq<RemoteAck>, b: seq<RemoteAck>, id: u16)
    requires AwaitsAck(a, id) && a <= b
    ensures AwaitsAck(b, id)
  {
    var i :| 0 <= i < |a| && a[i].messageId == id;
    assert b[i].messageId == id;
  }

  /** The ids that a reliable message adds to the run: its own, if it is accepted directly, and those it releases. */
  lemma AddedIds(p: Progress, meta: MessageMeta, now: Time, first: u16)
    requires ProgressInv(p, first) && IsReliable(meta)
    ensures var q := Step(p, meta, now);
            && p.store.delayed <= q.store.delayed && |p.accepted| <= |q.accepted|
            && (q.store.delayed != p.store.delayed ==> AfterIncoming(p.store, meta, now).1 == Ok(true))
            && (AfterIncoming(p.store, meta, now).1 == Ok(true) ==>
                  && IdOf(meta) == Advance(first, |p.accepted|)
                  && |q.accepted| == |p.accepted| + 1 + (|q.store.delayed| - |p.store.delayed|)
                  && forall i :: |p.store.delayed| <= i < |q.store.delayed| ==>
                       IdOf(q.store.delayed[i]) == Advance(first, |p.accepted| + 1 + (i - |p.store.delayed|)))
  {
    hide AfterIncoming, StoreInv;
    ArrivalReleases(p.store, meta, now);
    var q, n, d := Step(p, meta, now), |p.accepted|, |p.store.delayed|;
    var released := q.store.delayed[d..];
    assert q.store.delayed == p.store.delayed + released;
    if AfterIncoming(p.store, meta, now).1 == Ok(true) {
      forall i | d <= i < |q.store.delayed|
        ensures IdOf(q.store.delayed[i]) == Advance(first, n + 1 + (i - d))
      {
        var k := 1 + (i - d);
        assert ([meta] + released)[k] == q.store.delayed[i];
        ConsecutiveAt([meta] + released, p.store.nextRemoteId, k);
        AdvanceAdds(first, n, k);
      }
    }
  }

  /** Where in the run a delayed message stands: before the one just arrived if it was delayed already, else after it. */
  lemma DelayedPosition(p: Progress, meta: MessageMeta, now: Time, first: u16, i: nat) returns (j: nat)
    requires ProgressInv(p, first) && IsReliable(meta) && DelayedInRun(p, first)
    requires i < |Step(p, meta, now).store.delayed|
    ensures j < |Step(p, meta, now).accepted| && Advance(first, j) == IdOf(Step(p, meta, now).store.delayed[i])
    ensures if i < |p.store.delayed| then j < |p.accepted| && p.store.delayed <= Step(p, meta, now).store.delayed
            else j > |p.accepted|
  {
    hide AfterIncoming, ProgressInv, Step, Advance;
    AddedIds(p, meta, now, first);
    var q, d := Step(p, meta, now), |p.store.delayed|;
    if i < d {
      assert q.store.delayed[i] == p.store.delayed[i];
      j :| j < |p.accepted| && Advance(first, j) == IdOf(p.store.delayed[i]);
    } else {
      j := |p.accepted| + 1 + (i - d);
    }
  }

  /** A reliable message keeps the settled ids settled, and settles its own if it is accepted. */
  lemma StepSettles(p: Progress, meta: MessageMeta, now: Time, first: u16, id: u16)
    requires ProgressInv(p, first) && IsReliable(meta) && DelayedInRun(p, first)
    requires |Step(p, meta, now).accepted| < HORIZON
    ensures DelayedInRun(Step(p, meta, now), first)
    ensures Settled(p, first, id) ==> Settled(Step(p, meta, now), first, id)
    ensures AfterIncoming(p.store, meta, now).1 == Ok(true) ==> Settled(Step(p, meta, now), first, IdOf(meta))
  {
    FirstOfRun(p, first);
    ArrivalAcknowledges(p.store, meta, now);
    AddedIds(p, meta, now, first);
    var q, n := Step(p, meta, now), |p.accepted|;
    assert q.store == AfterIncoming(p.store, meta, now).0;
    hide AfterIncoming, ProgressInv, Step, Advance, AwaitsAck, DelayedInRun;
    forall i | 0 <= i < |q.store.delayed|
      ensures InRun(first, |q.accepted|, IdOf(q.store.delayed[i]))
      ensures Settled(p, first, id) ==> IdOf(q.store.delayed[i]) != id
      ensures AfterIncoming(p.store, meta, now).1 == Ok(true) ==> IdOf(q.store.delayed[i]) != Advance(first, n)
    {
      var j := DelayedPosition(p, meta, now, first, i);
      RunIdsDiffer(first, j, n);
      if j > n && Settled(p, first, id) {
        var k: nat :| k < n && Advance(first, k) == id;
        RunIdsDiffer(first, j, k);
      }
    }
    assert DelayedInRun(q, first) by {
      AllInRun(q, first);
    }
    if Settled(p, first, id) {
      StillAwaits(p.store.remoteUnacked, q.store.remoteUnacked, id);
    }
  }

  lemma FirstOfRun(p: Progress, first: u16)
    requires ProgressInv(p, first)
    ensures first != 0 && StoreInv(p.store)
  {
  }

  lemma AllInRun(p: Progress, first: u16)
    requires forall i :: 0 <= i < |p.store.delayed| ==> InRun(first, |p.accepted|, IdOf(p.store.delayed[i]))
    ensures DelayedInRun(p, first)
  {
  }

  /** An item that is not a reliable message changes nothing of this. */
  lemma OtherKeepsSettled(p: Progress, item: Resolved, now: Time, first: u16, id: u16)
    requires ResolvedOk(item) && !IsReliableItem(item)
    ensures DelayedInRun(p, first) ==> DelayedInRun(StepItem(p, item, now), first)
    ensures Settled(p, first, id) ==> Settled(StepItem(p, item, now), first, id)
  {
    hide AfterIncoming, AwaitsAck, InRun;
    if item.DataArrived? {
      OtherChangesLittle(p.store, item.meta, now);
    }
  }

  /** Processing an item, also one that fails, leaves the store of the step. */
  lemma ItemStore(codec: Codec, limit: nat, p: Progress, item: Resolved, now: Time)
    requires ResolvedOk(item)
    ensures ProcessedResolved(codec, limit, p.store, item, now).0 == StepItem(p, item, now).store
  {
    hide FinalMessage, Decoded;
    if IsReliableItem(item) {
      hide AfterIncoming;
      var accepted := AfterIncoming(p.store, item.meta, now).1;
      assert accepted.Ok? ==> accepted == Ok(accepted.value);
    }
  }

  lemma ItemSettles(p: Progress, s: StoreState, items: seq<Resolved>, now: Time, t: nat, id: u16)
    requires Follows(p, s, items, t) && AllResolvedOk(items) && t < |items| && DelayedInRun(p, s.nextRemoteId)
    ensures var q := StepItem(p, items[t], now);
            && ProgressInv(q, s.nextRemoteId) && DelayedInRun(q, s.nextRemoteId) && |q.accepted| < HORIZON
            && (Settled(p, s.nextRemoteId, id) ==> Settled(q, s.nextRemoteId, id))
            && (Accepts(p.store, items[t], now) ==> Settled(q, s.nextRemoteId, IdOf(items[t].meta)))
  {
    hide ProgressInv, Settled, DelayedInRun, StepItem, AfterIncoming, WaitingIds;
    StepItemKeepsProgress(p, items[t], now, s.nextRemoteId);
    AcceptedIsBounded(p, s, items, t);
    if IsReliableItem(items[t]) {
      ReliableStepItem(p, items[t], now);
      AcceptedGrowth(p, items[t].meta, now, s.nextRemoteId);
      StepSettles(p, items[t].meta, now, s.nextRemoteId, id);
    } else {
      OtherKeepsSettled(p, items[t], now, s.nextRemoteId, id);
      OtherAccepted(p, items[t], now);
    }
  }

  lemma AcceptedGrowth(p: Progress, meta: MessageMeta, now: Time, first: u16)
    requires ProgressInv(p, first) && IsReliable(meta)
    ensures |Step(p, meta, now).accepted| <= |p.accepted| + 1 + MAX_OUT_OF_ORDER
  {
    hide AfterIncoming, StoreInv, Consecutive, Advance;
    ArrivalReleases(p.store, meta, now);
  }

  lemma OtherAccepted(p: Progress, item: Resolved, now: Time)
    requires ResolvedOk(item) && !IsReliableItem(item)
    ensures StepItem(p, item, now).accepted == p.accepted
  {
  }

  lemma ReliableStepItem(p: Progress, item: Resolved, now: Time)
    requires IsReliableItem(item)
    ensures StepItem(p, item, now) == Step(p, item.meta, now)
  {
  }

  lemma {:induction false} SuffixSettles(codec: Codec, limit: nat, p: Progress, s: StoreState, items: seq<Resolved>,
                                         now: Time, t: nat, id: u16) returns (q: Progress)
    requires Follows(p, s, items, t) && AllResolvedOk(items) && t <= |items| && DelayedInRun(p, s.nextRemoteId)
    requires Settled(p, s.nextRemoteId, id)
             || exists m :: m in LedgerOf(codec, limit, p.store, items[t..], now).accepted && IdOf(m) == id
    ensures q.store == ProcessedAll(codec, limit, p.store, items[t..], now).store
    ensures ProgressInv(q, s.nextRemoteId) && Settled(q, s.nextRemoteId, id) && |q.accepted| < HORIZON
    decreases |items| - t
  {
    hide ProgressInv, ProcessedResolved, StepItem, Settled, DelayedInRun, Accepts, Follows;
    FollowsMeans(p, s, items, t);
    if t == |items| {
      q := p;
    } else {
      assert items[t..][0] == items[t] && items[t..][1..] == items[t + 1..];
      ItemSettles(p, s, items, now, t, id);
      ItemStore(codec, limit, p, items[t], now);
      ItemOutcome(codec, limit, p, s, items, now, t);
      var next := StepItem(p, items[t], now);
      if ProcessedResolved(codec, limit, p.store, items[t], now).1.Err? {
        q := next;
      } else {
        StepFollows(p, s, items, now, t);
        q := SuffixSettles(codec, limit, next, s, items, now, t + 1, id);
      }
    }
  }

  lemma FollowsMeans(p: Progress, s: StoreState, items: seq<Resolved>, t: nat)
    requires Follows(p, s, items, t)
    ensures ProgressInv(p, s.nextRemoteId) && |p.accepted| < HORIZON
  {
    AcceptedIsBounded(p, s, items, t);
  }

  /**
    An accepted message is settled, given or not: it is acknowledged, no message that waits to
    be handed out later has its id, and nothing that comes with its id is accepted any more.
    So one that is not given is lost.
   */
  lemma AcceptedIsSettled(codec: Codec, limit: nat, s: StoreState, items: seq<Resolved>, now: Time, m: MessageMeta,
                          again: MessageMeta, later: Time)
    requires CanBeRead(s, items) && AllResolvedOk(items)
    requires m in LedgerOf(codec, limit, s, items, now).accepted
    requires IsReliable(again) && IdOf(again) == IdOf(m)
    ensures var b := ProcessedAll(codec, limit, s, items, now);
            && AwaitsAck(b.store.remoteUnacked, IdOf(m))
            && (forall i :: 0 <= i < |b.store.delayed| ==> IdOf(b.store.delayed[i]) != IdOf(m))
            && AfterIncoming(b.store, again, later).1 != Ok(true)
  {
    hide ProcessedAll, LedgerOf, Follows, StoreInv, AfterIncoming;
    BeginFollows(s, items);
    FirstIsNotZero(s);
    assert items[0..] == items;
    var q := SuffixSettles(codec, limit, Begin(s), s, items, now, 0, IdOf(m));
    var j: nat :| j < |q.accepted| && Advance(s.nextRemoteId, j) == IdOf(m);
    RunIdsDiffer(s.nextRemoteId, j, |q.accepted|);
    ArrivalReleases(q.store, again, later);
  }

  /** Refusing a message is the only error of its kind. */
  lemma RefusalIsError(codec: Codec, limit: nat, s: StoreState, item: Resolved, now: Time)
    requires IsReliableItem(item)
    ensures AfterIncoming(s, item.meta, now).1.Err?
            <==> ProcessedResolved(codec, limit, s, item, now).1 == Err(TooUnreliable)
  {
    hide Restore, AckAgain, AckAll;
  }

  // ---------------------------------------------------------------- the ways to lose a message

  /** No message that an arrival releases has an id from before the expected one. */
  lemma ArrivalAfter(t: StoreState, id: u16, c: nat, meta: MessageMeta, now: Time) returns (d: nat)
    requires StoreInv(t) && IsReliable(meta) && id != 0 && c <= MAX_OUT_OF_ORDER + 1 && t.nextRemoteId == Advance(id, c)
    ensures var u := AfterIncoming(t, meta, now).0;
            && StoreInv(u) && t.delayed <= u.delayed && t.remoteUnacked <= u.remoteUnacked
            && (forall i :: |t.delayed| <= i < |u.delayed| ==> IdOf(u.delayed[i]) != id)
            && u.nextRemoteId == Advance(id, c + d)
    ensures (if IdOf(meta) == t.nextRemoteId then 1 else 0) <= d <= MAX_OUT_OF_ORDER + 1
  {
    ArrivalAcknowledges(t, meta, now);
    hide AfterIncoming, StoreInv, AwaitsAck;
    ArrivalReleases(t, meta, now);
    hide Advance;
    var u := AfterIncoming(t, meta, now).0;
    var released := u.delayed[|t.delayed|..];
    if AfterIncoming(t, meta, now).1 == Ok(true) {
      forall i | |t.delayed| <= i < |u.delayed|
        ensures IdOf(u.delayed[i]) != id
      {
        var k := 1 + (i - |t.delayed|);
        assert ([meta] + released)[k] == u.delayed[i];
        ConsecutiveAt([meta] + released, t.nextRemoteId, k);
        AdvanceAdds(id, c, k);
        RunIdsDiffer(id, 0, c + k);
        AdvanceNone(id);
      }
      AdvanceAdds(id, c, 1 + |released|);
      d := 1 + |released|;
    } else {
      if IdOf(meta) == t.nextRemoteId {
        ExpectedIsAccepted(t, meta, now);
      }
      assert u.delayed == t.delayed;
      d := 0;
    }
  }

  lemma AdvanceNone(id: u16)
    ensures Advance(id, 0) == id
  {
  }

  lemma NotExpectedAgain(u: StoreState, id: u16, c: nat, again: MessageMeta, later: Time)
    requires StoreInv(u) && id != 0 && 1 <= c < HORIZON && u.nextRemoteId == Advance(id, c)
    requires IsReliable(again) && IdOf(again) == id
    ensures AfterIncoming(u, again, later).1 != Ok(true)
  {
    hide AfterIncoming, StoreInv, Advance;
    RunIdsDiffer(id, 0, c);
    AdvanceNone(id);
    ArrivalReleases(u, again, later);
  }

  /** The expected message alone, accepted: what follows from that for its id. */
  lemma ExpectedSettles(s: StoreState, meta: MessageMeta, now: Time, again: MessageMeta, later: Time) returns (c: nat)
    requires StoreInv(s) && IsReliable(meta) && IdOf(meta) == s.nextRemoteId
    requires IsReliable(again) && IdOf(again) == IdOf(meta)
    ensures var (t, r) := AfterIncoming(s, meta, now);
            && r == Ok(true) && StoreInv(t) && s.delayed <= t.delayed
            && AwaitsAck(t.remoteUnacked, IdOf(meta)) && AfterIncoming(t, again, later).1 != Ok(true)
            && (forall i :: |s.delayed| <= i < |t.delayed| ==> IdOf(t.delayed[i]) != IdOf(meta))
            && 1 <= c <= MAX_OUT_OF_ORDER + 1 && t.nextRemoteId == Advance(s.nextRemoteId, c)
  {
    ExpectedIsAccepted(s, meta, now);
    FirstIsNotZero(s);
    ArrivalAcknowledges(s, meta, now);
    hide AfterIncoming, StoreInv, AwaitsAck, Advance;
    AdvanceNone(s.nextRemoteId);
    c := ArrivalAfter(s, s.nextRemoteId, 0, meta, now);
    NotExpectedAgain(AfterIncoming(s, meta, now).0, s.nextRemoteId, c, again, later);
  }

  /**
    One way: the expected message in front, the next item one that fails, be it undecodable
    bytes, fragments that do not fit, a control message without a decoder, a payload that does
    not unpack or a message that a full store refuses; behind it there may be anything. The
    error is returned, the message is handed out neither now nor from the pending or the
    delayed ones; it is acknowledged, and not accepted again.
   */
  lemma ErrorLosesAccepted(codec: Codec, limit: nat, s: StoreState, meta: MessageMeta, items: seq<Resolved>, now: Time,
                           s': StoreState, pending: seq<Received>, out: Outcome, again: MessageMeta, later: Time)
    requires StoreInv(s) && IsReliable(meta) && IdOf(meta) == s.nextRemoteId && FinalMessage(codec, limit, meta).Ok?
    requires AllResolvedOk(items) && |items| >= 2 && items[0] == DataArrived(meta)
    requires ProcessedResolved(codec, limit, AfterIncoming(s, meta, now).0, items[1], now).1.Err?
    requires BatchLeads(ProcessedAll(codec, limit, s, items, now), s', pending, out)
    requires IsReliable(again) && IdOf(again) == IdOf(meta)
    ensures out.Err? && pending == []
    ensures s.delayed <= s'.delayed && forall i :: |s.delayed| <= i < |s'.delayed| ==> IdOf(s'.delayed[i]) != IdOf(meta)
    ensures AwaitsAck(s'.remoteUnacked, IdOf(meta)) && AfterIncoming(s', again, later).1 != Ok(true)
  {
    var t := AfterIncoming(s, meta, now).0;
    var c := ExpectedSettles(s, meta, now, again, later);
    ExpectedIsProcessed(codec, limit, s, meta, now);
    hide ProcessedResolved, FinalMessage, AfterIncoming, StoreInv;
    LaterItemKeepsSettled(codec, limit, t, s.nextRemoteId, c, items[1], now, again, later);
    assert items[1..][0] == items[1];
    assert ProcessedAll(codec, limit, t, items[1..], now).out == [];
    assert ProcessedAll(codec, limit, t, items[1..], now).store == s';
    assert ProcessedResolved(codec, limit, t, items[1], now).0 == s';
  }

  lemma ExpectedIsProcessed(codec: Codec, limit: nat, s: StoreState, meta: MessageMeta, now: Time)
    requires IsReliable(meta) && IdOf(meta) == s.nextRemoteId
    ensures ProcessedResolved(codec, limit, s, DataArrived(meta), now)
            == (AfterIncoming(s, meta, now).0, FinalMessage(codec, limit, meta))
  {
    ExpectedIsAccepted(s, meta, now);
    hide AfterIncoming, FinalMessage;
  }

  /** An item behind the expected message can accept and release others, but not that one. */
  lemma LaterItemKeepsSettled(codec: Codec, limit: nat, t: StoreState, id: u16, c: nat, item: Resolved, now: Time,
                              again: MessageMeta, later: Time)
    requires StoreInv(t) && ResolvedOk(item)
    requires id != 0 && 1 <= c <= MAX_OUT_OF_ORDER + 1 && t.nextRemoteId == Advance(id, c) && AwaitsAck(t.remoteUnacked, id)
    requires IsReliable(again) && IdOf(again) == id
    ensures var u := ProcessedResolved(codec, limit, t, item, now).0;
            && t.delayed <= u.delayed && (forall i :: |t.delayed| <= i < |u.delayed| ==> IdOf(u.delayed[i]) != id)
            && AwaitsAck(u.remoteUnacked, id) && AfterIncoming(u, again, later).1 != Ok(true)
  {
    var u := ProcessedResolved(codec, limit, t, item, now).0;
    if IsReliableItem(item) {
      ItemStore(codec, limit, Begin(t), item, now);
      ReliableStepItem(Begin(t), item, now);
      assert u == AfterIncoming(t, item.meta, now).0;
      hide AfterIncoming, StoreInv, AwaitsAck, ProcessedResolved, Advance, StepItem;
      var d := ArrivalAfter(t, id, c, item.meta, now);
      StillAwaits(t.remoteUnacked, u.remoteUnacked, id);
      NotExpectedAgain(u, id, c + d, again, later);
    } else {
      UnreliableStore(codec, limit, t, item, now);
      hide AfterIncoming, StoreInv, AwaitsAck, ProcessedResolved, Advance;
      NotExpectedAgain(u, id, c, again, later);
    }
  }

  lemma UnreliableStore(codec: Codec, limit: nat, t: StoreState, item: Resolved, now: Time)
    requires StoreInv(t) && ResolvedOk(item) && !IsReliableItem(item)
    ensures var u := ProcessedResolved(codec, limit, t, item, now).0; StoreInv(u) && u == t.(localUnacked := u.localUnacked)
  {
    hide FinalMessage, Decoded;
    if item.DataArrived? {
      OtherChangesLittle(t, item.meta, now);
    }
  }

  /** Another way: the expected message itself does not unpack. Nothing needs to stand behind it. */
  lemma OwnPayloadIsLost(codec: Codec, limit: nat, s: StoreState, meta: MessageMeta, items: seq<Resolved>, now: Time,
                         s': StoreState, pending: seq<Received>, out: Outcome, again: MessageMeta, later: Time)
    requires StoreInv(s) && IsReliable(meta) && IdOf(meta) == s.nextRemoteId && FinalMessage(codec, limit, meta).Err?
    requires AllResolvedOk(items) && items != [] && items[0] == DataArrived(meta)
    requires BatchLeads(ProcessedAll(codec, limit, s, items, now), s', pending, out)
    requires IsReliable(again) && IdOf(again) == IdOf(meta)
    ensures out == Err(FinalMessage(codec, limit, meta).error) && pending == []
    ensures s.delayed <= s'.delayed && forall i :: |s.delayed| <= i < |s'.delayed| ==> IdOf(s'.delayed[i]) != IdOf(meta)
    ensures AwaitsAck(s'.remoteUnacked, IdOf(meta)) && AfterIncoming(s', again, later).1 != Ok(true)
  {
    var c := ExpectedSettles(s, meta, now, again, later);
    ExpectedIsProcessed(codec, limit, s, meta, now);
    hide ProcessedResolved, FinalMessage, AfterIncoming, StoreInv;
  }

  /** When a reliable message is refused, which is an error too: it is not the expected one, no duplicate, and 32 wait. */
  lemma RefusedIff(s: StoreState, meta: MessageMeta, now: Time)
    requires IsReliable(meta)
    ensures AfterIncoming(s, meta, now).1.Err?
            <==> Classify(IdOf(meta), s.nextRemoteId) == OutOfOrder && |s.outOfOrder| >= MAX_OUT_OF_ORDER
  {
    hide Restore, AckAgain, AckAll;
  }

  // ---------------------------------------------------------------- a concrete datagram

  /** Message 1 with payload 7 and its boundary, and behind it a ping, which the client has no decoder for. */
  const LOSING: bytes := [0x98] + [1, 0, 0, 0, 1, 0] + [7] + [MSG_PING, 0, 0, 0, 0, 0]

  const FIRST := WireMessage(None, Some(ReliabilityHeader(1, 0, [])), None, true, [7])

  lemma LosingBytes()
    ensures var items := [Data(FIRST), Control(MSG_PING, [0, 0, 0, 0, 0])];
            WellFormed(items) && LOSING == ItemBytes(items[0], []) + JoinedItems(items[1..])
  {
    var items := [Data(FIRST), Control(MSG_PING, [0, 0, 0, 0, 0])];
    assert items[1..] == [Control(MSG_PING, [0, 0, 0, 0, 0])] && items[1..][1..] == [];
    assert JoinedItems(items[1..]) == [MSG_PING, 0, 0, 0, 0, 0];
    assert RelBytes(FIRST.rel) == [1, 0, 0, 0] && BoundaryBytes(FIRST) == [1, 0];
    assert HeaderBytes(FIRST) == [1, 0, 0, 0, 1, 0];
    assert ItemBytes(items[0], []) == [0x98] + [1, 0, 0, 0, 1, 0] + [7];
  }

  /** It decodes to those two messages; the first is accepted, acknowledged and dropped with the error of the second. */
  lemma LosingDatagram(codec: Codec, limit: nat)
    ensures var items := Iterate(LOSING, 0, false);
            && items == [Ok(WireMeta(FIRST, [7], 1)), Ok(MessageMeta(MSG_PING, None, None, None, [0, 0, 0, 0, 0], 1))]
            && AllRelOk(items) && NoFragments(items) && AllResolvedOk(ResolveAll(items))
            && var b := ProcessedAll(codec, limit, InitialState, ResolveAll(items), 0.0);
            && b.out == [Payload([7])] && b.error == Some(DecodeFailed) && Given(b.out, b.error) == []
            && AwaitsAck(b.store.remoteUnacked, 1)
  {
    var items := [Data(FIRST), Control(MSG_PING, [0, 0, 0, 0, 0])];
    LosingBytes();
    TwoMetas(items[0], items[1]);
    hide Iterate, ItemBytes, JoinedItems, WellFormed, WireMeta, ItemMetas, ProcessedAll, AwaitsAck, AllRelOk, NoFragments,
         AllResolvedOk, Given;
    DatagramYieldsItsItems(items, [], false);
    var first, ping := WireMeta(FIRST, [7], 1), MessageMeta(MSG_PING, None, None, None, [0, 0, 0, 0, 0], 1);
    assert Iterate(LOSING, 0, false) == [Ok(first), Ok(ping)];
    MetaOfFirst();
    TwoResolve(first, ping);
    LosingIsProcessed(codec, limit, first, ping);
    OnlyIsNotGiven(Payload([7]), DecodeFailed);
  }

  lemma OnlyIsNotGiven(got: Received, error: TransportError)
    ensures Given([got], Some(error)) == []
  {
  }

  lemma TwoResolve(first: MessageMeta, ping: MessageMeta)
    requires first.typ == MSG_DATA && first.rel == FIRST.rel && first.frag == None && ping.typ == MSG_PING
             && ping.rel == None
    ensures AllRelOk([Ok(first), Ok(ping)]) && NoFragments([Ok(first), Ok(ping)])
    ensures ResolveAll([Ok(first), Ok(ping)]) == [DataArrived(first), ControlArrived(ping)]
  {
  }

  lemma TwoMetas(a: Item, b: Item)
    requires (a.Data? ==> WireOk(a.msg)) && (b.Data? ==> WireOk(b.msg))
    ensures ItemMetas([a, b], []) == [Ok(ItemMeta(a, [])), Ok(ItemMeta(b, []))]
  {
    hide ItemMeta;
    assert [a, b][0] == a && [b][0] == b;
    assert [a, b][1..] == [b] && [b][1..] == [];
    assert ItemMetas([b], []) == [Ok(ItemMeta(b, []))] + ItemMetas([], []);
  }

  lemma MetaOfFirst()
    ensures var m := WireMeta(FIRST, [7], 1);
            m.typ == MSG_DATA && m.comp == None && m.rel == FIRST.rel && m.frag == None && m.data == [7]
  {
  }

  lemma LosingIsProcessed(codec: Codec, limit: nat, first: MessageMeta, ping: MessageMeta)
    requires first.comp == None && first.rel == FIRST.rel && first.data == [7] && ping.typ == MSG_PING
    ensures AllResolvedOk([DataArrived(first), ControlArrived(ping)])
    ensures var b := ProcessedAll(codec, limit, InitialState, [DataArrived(first), ControlArrived(ping)], 0.0);
            b.out == [Payload([7])] && b.error == Some(DecodeFailed) && AwaitsAck(b.store.remoteUnacked, 1)
  {
    var items := [DataArrived(first), ControlArrived(ping)];
    assert items[1..] == [ControlArrived(ping)] && items[1..][1..] == [];
    EmptyIsStoreInv();
    ArrivalAcknowledges(InitialState, first, 0.0);
    ExpectedIsAccepted(InitialState, first, 0.0);
    ExpectedIsProcessed(codec, limit, InitialState, first, 0.0);
    hide AfterIncoming, AwaitsAck;
    var t := AfterIncoming(InitialState, first, 0.0).0;
    assert ProcessedAll(codec, limit, t, [ControlArrived(ping)], 0.0) == Batch(t, [], Some(DecodeFailed));
    assert ProcessedResolved(codec, limit, InitialState, DataArrived(first), 0.0) == (t, Ok(Some(Payload([7]))));
  }

  lemma EmptyIsStoreInv()
    ensures StoreInv(InitialState)
  {
  }
}
