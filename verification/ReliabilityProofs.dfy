/** What every operation of the reliable store keeps, and what its timers promise. */
module ReliabilityProofs {
  import opened Wrappers
  import opened Bytes
  import opened MessageTypes
  import opened SequenceNumbers
  import opened Reliability

  // ---------------------------------------------------------------- the store invariant

  /** Stored ids are distinct and non-zero; the expected id may be among them. */
  ghost predicate WellStored(s: StoreState) {
    && s.nextRemoteId != 0
    && (forall i :: 0 <= i < |s.outOfOrder| ==> IdOf(s.outOfOrder[i].meta) != 0)
    && (forall i, j :: 0 <= i < j < |s.outOfOrder| ==> IdOf(s.outOfOrder[i].meta) != IdOf(s.outOfOrder[j].meta))
  }

  ghost predicate Awaited(s: StoreState) {
    exists i :: 0 <= i < |s.outOfOrder| && IdOf(s.outOfOrder[i].meta) == s.nextRemoteId
  }

  ghost predicate StoreInv(s: StoreState) {
    && WellStored(s)
    && !Awaited(s)
    && |s.outOfOrder| <= MAX_OUT_OF_ORDER
    && |s.localUnacked| <= MAX_LOCAL_UNACKED
  }

  function Advance(id: u16, k: nat): u16
    decreases k
  {
    if k == 0 then id else Advance(NextId(id), k - 1)
  }

  function Metas(q: seq<StoredMessage>): (r: seq<MessageMeta>)
    ensures |r| == |q| && forall i :: 0 <= i < |q| ==> r[i] == q[i].meta
  {
    seq(|q|, i requires 0 <= i < |q| => q[i].meta)
  }

  /** The messages carry consecutive ids, from `id` on. */
  ghost predicate Consecutive(metas: seq<MessageMeta>, id: u16) {
    metas == [] || (IdOf(metas[0]) == id && Consecutive(metas[1..], NextId(id)))
  }

  function RunAcks(id: u16, k: nat, now: Time): seq<RemoteAck>
    decreases k
  {
    if k == 0 then [] else [RemoteAck(id, now)] + RunAcks(NextId(id), k - 1, now)
  }

  /**
    `t` comes from `s` by moving the stored messages `moved`, which carry the consecutive ids
    from the expected one on, to the delayed queue in that order, acknowledging each.
   */
  ghost predicate MovedRun(s: StoreState, t: StoreState, moved: seq<MessageMeta>, now: Time) {
    && t.delayed == s.delayed + moved
    && Consecutive(moved, s.nextRemoteId)
    && t.remoteUnacked == s.remoteUnacked + RunAcks(s.nextRemoteId, |moved|, now)
    && t.nextRemoteId == Advance(s.nextRemoteId, |moved|)
    && multiset(Metas(t.outOfOrder)) + multiset(moved) == multiset(Metas(s.outOfOrder))
    && t.nextLocalId == s.nextLocalId && t.localUnacked == s.localUnacked && t.avgRttMicros == s.avgRttMicros
  }

  /** One restored message: the state before the recursion goes on. */
  function RestoredOne(s: StoreState, i: nat, now: Time): StoreState
    requires i < |s.outOfOrder|
  {
    var t := Released(s, i);
    t.(remoteUnacked := t.remoteUnacked + [RemoteAck(t.nextRemoteId, now)], nextRemoteId := NextId(t.nextRemoteId))
  }

  lemma MetasWithout(q: seq<StoredMessage>, i: nat)
    requires i < |q|
    ensures multiset(Metas(q[..i] + q[i + 1..])) + multiset{q[i].meta} == multiset(Metas(q))
  {
    var m := Metas(q);
    assert m == m[..i] + [m[i]] + m[i + 1..];
    assert Metas(q[..i] + q[i + 1..]) == m[..i] + m[i + 1..];
  }

  lemma WellStoredAfterOne(s: StoreState, i: nat, now: Time)
    requires WellStored(s) && i < |s.outOfOrder|
    ensures WellStored(RestoredOne(s, i, now))
  {
    var q, r := s.outOfOrder, s.outOfOrder[..i] + s.outOfOrder[i + 1..];
    assert forall j :: 0 <= j < |r| ==> r[j] == if j < i then q[j] else q[j + 1];
  }

  lemma ComposeRun(s: StoreState, i: nat, t: StoreState, moved: seq<MessageMeta>, now: Time)
    requires i < |s.outOfOrder| && IdOf(s.outOfOrder[i].meta) == s.nextRemoteId
    requires MovedRun(RestoredOne(s, i, now), t, moved, now)
    ensures MovedRun(s, t, [s.outOfOrder[i].meta] + moved, now)
  {
    var first := s.outOfOrder[i].meta;
    var all := [first] + moved;
    assert all[1..] == moved;
    assert t.delayed == s.delayed + all;
    assert t.remoteUnacked == s.remoteUnacked + RunAcks(s.nextRemoteId, |all|, now);
    assert multiset(all) == multiset{first} + multiset(moved);
    MetasWithout(s.outOfOrder, i);
  }

  /** Restoring moves exactly the maximal consecutive run, in order, and nothing else. */
  lemma {:induction false} RestoreMovesMaximalRun(s: StoreState, now: Time)
    requires WellStored(s)
    ensures var t := Restore(s, now);
            && |s.delayed| <= |t.delayed|
            && MovedRun(s, t, t.delayed[|s.delayed|..], now)
            && WellStored(t) && !Awaited(t) && |t.outOfOrder| <= |s.outOfOrder|
    decreases |s.outOfOrder|
  {
    var i := FindStored(s.outOfOrder, s.nextRemoteId);
    var t := Restore(s, now);
    if i < |s.outOfOrder| {
      var u := RestoredOne(s, i, now);
      assert t == Accept(Released(s, i), now) == Restore(u, now);
      WellStoredAfterOne(s, i, now);
      RestoreMovesMaximalRun(u, now);
      ComposeRun(s, i, t, t.delayed[|u.delayed|..], now);
      assert t.delayed[|s.delayed|..] == [s.outOfOrder[i].meta] + t.delayed[|u.delayed|..];
    } else {
      assert s.delayed[|s.delayed|..] == [];
    }
  }

  lemma AckingShrinks(q: seq<LocalMessage>, acks: seq<u16>)
    ensures |AckAll(q, acks)| <= |q|
    decreases |acks|
  {
    if acks != [] {
      AckingShrinks(WithoutFirst(q, acks[0]), acks[1..]);
    }
  }

  /**
    Every message that holds the acks it announces, whatever its id and those acks, keeps the
    store invariant, also when it is refused.
   */
  lemma HandleIncomingKeepsInv(s: StoreState, meta: MessageMeta, now: Time)
    requires StoreInv(s) && meta.rel.Some? && meta.rel.value.Complete()
    ensures StoreInv(AfterIncoming(s, meta, now).0)
  {
    AckingShrinks(s.localUnacked, meta.rel.value.acks);
    var id := meta.rel.value.messageId;
    var s1 := s.(localUnacked := AckAll(s.localUnacked, meta.rel.value.acks));
    if id != 0 {
      match Classify(id, s1.nextRemoteId)
      case Duplicate =>
        var s2 := s1.(remoteUnacked := s1.remoteUnacked + [RemoteAck(id, now)]);
        assert FindStored(s2.outOfOrder, s2.nextRemoteId) == |s2.outOfOrder|;
      case OutOfOrder =>
      case InOrder =>
        RestoreMovesMaximalRun(s1.(remoteUnacked := s1.remoteUnacked + [RemoteAck(s1.nextRemoteId, now)],
                                   nextRemoteId := NextId(s1.nextRemoteId)), now);
    }
  }

  /** The remaining operations keep the store invariant too: they leave the stored messages alone. */
  lemma OtherOperationsKeepInv(s: StoreState, msg: DataMessage, now: Time, id: u16, rtt: nat)
    requires StoreInv(s) && msg.rel.Some?
    ensures StoreInv(PopDelayed(s).0) && StoreInv(AfterTakingAcks(s, id).0) && StoreInv(TakeMessageId(s).0)
    ensures StoreInv(AfterPush(s, msg, now).0) && StoreInv(AfterRetransmit(s, now).0)
    ensures StoreInv(s.(avgRttMicros := rtt))
  {
    StoreInvDependsOn(s, PopDelayed(s).0);
    StoreInvDependsOn(s, AfterTakingAcks(s, id).0);
    StoreInvDependsOn(s, TakeMessageId(s).0);
    StoreInvDependsOn(s, AfterPush(s, msg, now).0);
    StoreInvDependsOn(s, AfterRetransmit(s, now).0);
    StoreInvDependsOn(s, s.(avgRttMicros := rtt));
  }

  predicate SameIncoming(s: StoreState, t: StoreState) {
    t.outOfOrder == s.outOfOrder && t.nextRemoteId == s.nextRemoteId
  }

  lemma StoreInvDependsOn(s: StoreState, t: StoreState)
    requires StoreInv(s)
    ensures SameIncoming(s, t) && |t.localUnacked| <= MAX_LOCAL_UNACKED ==> StoreInv(t)
  {
  }

  // ---------------------------------------------------------------- timers

  /** Something for the timer handler to do: a retransmission (or giving up), or urgent acks. */
  ghost predicate SomethingDue(s: StoreState, now: Time) {
    AfterRetransmit(s, now).1 != Ok(Nothing) || HasUrgentAcks(s, now)
  }

  /** No recorded instant lies in the future. */
  ghost predicate ClockCovers(s: StoreState, now: Time) {
    && (forall i :: 0 <= i < |s.localUnacked| ==> s.localUnacked[i].sentAt <= now)
    && (forall i :: 0 <= i < |s.remoteUnacked| ==> s.remoteUnacked[i].receivedAt <= now)
  }

  lemma RetransmitsIffDue(s: StoreState, now: Time)
    ensures AfterRetransmit(s, now).1 != Ok(Nothing) <==> exists i :: 0 <= i < |s.localUnacked| && LocalDue(s, i, now)
  {
    var k := FirstDue(s, 0, now);
    assert k < |s.localUnacked| ==> LocalDue(s, k, now);
  }

  /**
    The timer value is the exact wait: with nothing new happening, something is due after
    `wait` exactly when the timer is no longer than `wait`. For `wait == 0` this says that
    the timer is zero exactly when something is due at once.
   */
  lemma UntilTimerExpiryIsExact(s: StoreState, now: Time, d: Duration, wait: real)
    requires IsTimerExpiry(s, now, d) && ClockCovers(s, now) && wait >= 0.0
    ensures SomethingDue(s, now + wait) <==> d.Finite? && d.ms <= wait
  {
    var later := now + wait;
    RetransmitsIffDue(s, later);
    forall i | 0 <= i < |s.localUnacked|
      ensures LocalDue(s, i, later) <==> LocalWait(s, i, now) <= wait
    {
    }
    forall i | 0 <= i < |s.remoteUnacked|
      ensures AckDue(s, i, later) <==> AckWait(s, i, now) <= wait
    {
    }
  }

  /** The headers produced while acks are taken until none waits. */
  function DrainAcks(s: StoreState): seq<ReliabilityHeader>
    decreases |s.remoteUnacked|
  {
    if s.remoteUnacked == [] then []
    else [AfterTakingAcks(s, 0).1] + DrainAcks(AfterTakingAcks(s, 0).0)
  }

  function AllAcks(hs: seq<ReliabilityHeader>): seq<u16> {
    if hs == [] then [] else hs[0].acks + AllAcks(hs[1..])
  }

  /** Queued acks leave oldest first, each once, in as few headers as eight to a header allow. */
  lemma {:induction false} AcksDrainOldestFirst(s: StoreState)
    ensures AllAcks(DrainAcks(s)) == Ids(s.remoteUnacked)
    ensures |DrainAcks(s)| == (|s.remoteUnacked| + MAX_ACKS - 1) / MAX_ACKS
    decreases |s.remoteUnacked|
  {
    if s.remoteUnacked != [] {
      var (t, h) := AfterTakingAcks(s, 0);
      AcksDrainOldestFirst(t);
      var k := |h.acks|;
      assert DrainAcks(s)[1..] == DrainAcks(t);
      assert Ids(s.remoteUnacked) == h.acks + Ids(s.remoteUnacked[k..]);
    }
  }

  // ---------------------------------------------------------------- retransmission bounds

  /** How often a queued message went out, and when first. */
  datatype Sends = Sends(first: Time, count: nat)

  /** A store with, for each queued local message, the record of its sends. */
  datatype Tracked = Tracked(store: StoreState, sends: seq<Sends>, failed: Option<Sends>)

  datatype Event =
    | Push(msg: DataMessage)
    | Incoming(meta: MessageMeta)
    | Timer
    | Rtt(micros: nat)

  function AckSends(q: seq<LocalMessage>, sends: seq<Sends>, acks: seq<u16>): seq<Sends>
    decreases |acks|
  {
    if acks == [] then sends
    else AckSends(WithoutFirst(q, acks[0]), WithoutIndex(sends, FindLocal(q, acks[0])), acks[1..])
  }

  ghost predicate EventOk(e: Event) {
    match e
    case Push(msg) => msg.rel.Some?
    case Incoming(meta) => meta.rel.Some? && meta.rel.value.Complete()
    case _ => true
  }

  /** One event at time `now`; after a message was given up nothing happens any more. */
  function React(x: Tracked, e: Event, now: Time): Tracked
    requires EventOk(e) && |x.sends| == |x.store.localUnacked|
  {
    if x.failed.Some? then x
    else
      match e
      case Push(msg) =>
        var (t, r) := AfterPush(x.store, msg, now);
        Tracked(t, if r.Ok? then x.sends + [Sends(now, 1)] else x.sends, None)
      case Incoming(meta) =>
        Tracked(AfterIncoming(x.store, meta, now).0, AckSends(x.store.localUnacked, x.sends, meta.rel.value.acks), None)
      case Timer =>
        var k := FirstDue(x.store, 0, now);
        var (t, r) := AfterRetransmit(x.store, now);
        if k == |x.sends| then Tracked(t, x.sends, None)
        else if r.Err? then Tracked(t, x.sends, Some(x.sends[k]))
        else Tracked(t, x.sends[k := Sends(x.sends[k].first, x.sends[k].count + 1)], None)
      case Rtt(micros) =>
        x.(store := x.store.(avgRttMicros := micros))
  }

  /** The waits of attempts 0 to k - 1, in units of the base deadline. */
  function AttemptSum(k: nat): real {
    if k == 0 then 0.0 else AttemptSum(k - 1) + Attempt(k - 1)
  }

  ghost predicate SendsOk(m: LocalMessage, r: Sends) {
    && m.attempts <= MAX_RETRANSMISSIONS
    && r.count == m.attempts + 1
    && m.sentAt >= r.first + 175.0 * AttemptSum(m.attempts)
  }

  ghost predicate TrackedInv(x: Tracked) {
    && |x.sends| == |x.store.localUnacked|
    && (forall i :: 0 <= i < |x.sends| ==> 1 <= x.sends[i].count <= MAX_RETRANSMISSIONS + 1)
    && (x.failed == None ==> AllSendsOk(x.store.localUnacked, x.sends))
  }

  ghost predicate AllSendsOk(q: seq<LocalMessage>, sends: seq<Sends>) {
    |q| == |sends| && forall i :: 0 <= i < |q| ==> SendsOk(q[i], sends[i])
  }

  lemma RemovalKeepsSends(q: seq<LocalMessage>, sends: seq<Sends>, k: nat)
    requires AllSendsOk(q, sends)
    ensures AllSendsOk(WithoutIndex(q, k), WithoutIndex(sends, k))
  {
    var q1, sends1 := WithoutIndex(q, k), WithoutIndex(sends, k);
    forall i | 0 <= i < |q1|
      ensures SendsOk(q1[i], sends1[i])
    {
      var j := if k < |q| && i >= k then i + 1 else i;
      assert q1[i] == q[j] && sends1[i] == sends[j];
    }
  }

  lemma {:induction false} AckingKeepsSends(q: seq<LocalMessage>, sends: seq<Sends>, acks: seq<u16>)
    requires AllSendsOk(q, sends)
    ensures AllSendsOk(AckAll(q, acks), AckSends(q, sends, acks))
    decreases |acks|
  {
    if acks != [] {
      var k := FindLocal(q, acks[0]);
      RemovalKeepsSends(q, sends, k);
      AckingKeepsSends(WithoutIndex(q, k), WithoutIndex(sends, k), acks[1..]);
    }
  }

  lemma {:induction false} RestoreKeepsLocal(s: StoreState, now: Time)
    ensures Restore(s, now).localUnacked == s.localUnacked
    decreases |s.outOfOrder|
  {
    var i := FindStored(s.outOfOrder, s.nextRemoteId);
    if i < |s.outOfOrder| {
      RestoreKeepsLocal(RestoredOne(s, i, now), now);
    }
  }

  lemma IncomingLocalUnacked(s: StoreState, meta: MessageMeta, now: Time)
    requires meta.rel.Some? && meta.rel.value.Complete()
    ensures AfterIncoming(s, meta, now).0.localUnacked == AckAll(s.localUnacked, meta.rel.value.acks)
  {
    var s1 := s.(localUnacked := AckAll(s.localUnacked, meta.rel.value.acks));
    RestoreKeepsLocal(s1.(remoteUnacked := s1.remoteUnacked + [RemoteAck(meta.rel.value.messageId, now)]), now);
    RestoreKeepsLocal(s1.(remoteUnacked := s1.remoteUnacked + [RemoteAck(s1.nextRemoteId, now)],
                          nextRemoteId := NextId(s1.nextRemoteId)), now);
  }

  lemma FullAttemptSum()
    ensures AttemptSum(11) == 46.0
  {
    assert AttemptSum(4) == 7.0;
    assert AttemptSum(8) == 28.0;
  }

  /** Giving up needs eleven sends and at least 46 times 175 ms since the first of them. */
  ghost predicate GaveUpLate(r: Sends, now: Time) {
    r.count == MAX_RETRANSMISSIONS + 1 && now >= r.first + 46.0 * 175.0
  }

  lemma ReactKeepsInv(x: Tracked, e: Event, now: Time)
    requires TrackedInv(x) && EventOk(e)
    ensures TrackedInv(React(x, e, now))
    ensures x.failed == None && React(x, e, now).failed.Some? ==> GaveUpLate(React(x, e, now).failed.value, now)
  {
    if x.failed == None {
      match e
      case Push(msg) =>
      case Incoming(meta) =>
        IncomingLocalUnacked(x.store, meta, now);
        AckingKeepsSends(x.store.localUnacked, x.sends, meta.rel.value.acks);
      case Timer =>
        var k := FirstDue(x.store, 0, now);
        if k < |x.sends| {
          var m := x.store.localUnacked[k];
          assert LocalDue(x.store, k, now) && SendsOk(m, x.sends[k]);
          assert now - m.sentAt >= 175.0 * Attempt(m.attempts);
          assert now >= x.sends[k].first + 175.0 * AttemptSum(m.attempts + 1);
          FullAttemptSum();
        }
      case Rtt(micros) =>
    }
  }

  datatype TimedEvent = At(event: Event, now: Time)

  function RunEvents(x: Tracked, es: seq<TimedEvent>): (y: Tracked)
    requires TrackedInv(x) && forall i :: 0 <= i < |es| ==> EventOk(es[i].event)
    ensures TrackedInv(y)
    decreases |es|
  {
    if es == [] then x
    else
      ReactKeepsInv(x, es[0].event, es[0].now);
      RunEvents(React(x, es[0].event, es[0].now), es[1..])
  }

  /** At event `i` the store goes from working to having given up, on the message recorded in `r`. */
  ghost predicate GivesUpAt(x: Tracked, es: seq<TimedEvent>, i: nat, r: Sends)
    requires TrackedInv(x) && forall i :: 0 <= i < |es| ==> EventOk(es[i].event)
  {
    i < |es| && RunEvents(x, es[..i]).failed == None && RunEvents(x, es[..i + 1]).failed == Some(r)
  }

  lemma GivesUpFirst(x: Tracked, es: seq<TimedEvent>)
    requires TrackedInv(x) && x.failed == None && es != []
    requires forall i :: 0 <= i < |es| ==> EventOk(es[i].event)
    requires React(x, es[0].event, es[0].now).failed.Some?
    ensures GivesUpAt(x, es, 0, React(x, es[0].event, es[0].now).failed.value)
  {
    hide React, AllSendsOk, EventOk;
    ReactKeepsInv(x, es[0].event, es[0].now);
    assert es[..1] == [es[0]] && es[..1][1..] == [] && es[..0] == [];
    assert RunEvents(x, es[..1]) == React(x, es[0].event, es[0].now);
  }

  lemma GivesUpLater(x: Tracked, es: seq<TimedEvent>, i: nat, r: Sends)
    requires TrackedInv(x) && es != []
    requires forall i :: 0 <= i < |es| ==> EventOk(es[i].event)
    requires TrackedInv(React(x, es[0].event, es[0].now)) && GivesUpAt(React(x, es[0].event, es[0].now), es[1..], i, r)
    ensures GivesUpAt(x, es, i + 1, r)
  {
    hide React, AllSendsOk, EventOk;
    var x1 := React(x, es[0].event, es[0].now);
    var before, after := es[..i + 1], es[..i + 2];
    assert before[0] == es[0] && before[1..] == es[1..][..i];
    assert after[0] == es[0] && after[1..] == es[1..][..i + 1];
    assert RunEvents(x, before) == RunEvents(x1, before[1..]);
    assert RunEvents(x, after) == RunEvents(x1, after[1..]);
  }

  /**
    Over any run, whatever the clock and the round-trip estimates do: every message that is
    queued was sent at most eleven times; and if the store gives up, there is one event at
    which it does so, on a message sent eleven times, and by the clock of that very event
    no sooner than 46 * 175 ms after the message's first send.
   */
  lemma {:induction false} RetransmissionBounds(x: Tracked, es: seq<TimedEvent>)
    requires TrackedInv(x) && x.failed == None
    requires forall i :: 0 <= i < |es| ==> EventOk(es[i].event)
    ensures var y := RunEvents(x, es);
            && (forall i :: 0 <= i < |y.sends| ==> 1 <= y.sends[i].count <= 11)
            && (y.failed.Some? ==>
                  exists i: nat :: i < |es| && GivesUpAt(x, es, i, y.failed.value) && GaveUpLate(y.failed.value, es[i].now))
    decreases |es|
  {
    hide React, AllSendsOk, GivesUpAt;
    if es == [] {
      StartCounts(x);
    } else {
      var x1, y := React(x, es[0].event, es[0].now), RunEvents(x, es);
      ReactKeepsInv(x, es[0].event, es[0].now);
      if x1.failed.Some? {
        FailedStays(x1, es[1..]);
        StartCounts(y);
        GivesUpFirst(x, es);
      } else {
        RetransmissionBounds(x1, es[1..]);
        if y.failed.Some? {
          var i: nat :| i < |es[1..]| && GivesUpAt(x1, es[1..], i, y.failed.value) && GaveUpLate(y.failed.value, es[1..][i].now);
          GivesUpLater(x, es, i, y.failed.value);
        }
      }
    }
  }

  lemma StartCounts(x: Tracked)
    requires TrackedInv(x)
    ensures forall i :: 0 <= i < |x.sends| ==> 1 <= x.sends[i].count <= 11
  {
  }

  lemma {:induction false} FailedStays(x: Tracked, es: seq<TimedEvent>)
    requires TrackedInv(x) && x.failed.Some?
    requires forall i :: 0 <= i < |es| ==> EventOk(es[i].event)
    ensures RunEvents(x, es) == x
    decreases |es|
  {
    if es != [] {
      FailedStays(x, es[1..]);
    }
  }
}
