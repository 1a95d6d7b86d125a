/**
  The operations of the reliable store case by case, in terms of ids, positions and
  milliseconds alone: what an arriving message does, what acknowledgements remove, and when
  the timer sends again.
 */
module ReliabilityCases {
  import opened Wrappers
  import opened Bytes
  import opened MessageTypes
  import opened SequenceNumbers
  import opened Reliability
  import opened ReliabilityProofs

  // ---------------------------------------------------------------- arriving acknowledgements

  ghost predicate DistinctLocals(q: seq<LocalMessage>) {
    forall i, j :: 0 <= i < j < |q| ==> q[i].messageId != q[j].messageId
  }

  /** The messages that are not acknowledged, in order. */
  function Unacknowledged(q: seq<LocalMessage>, acks: seq<u16>): seq<LocalMessage> {
    if q == [] then []
    else (if q[0].messageId in acks then [] else [q[0]]) + Unacknowledged(q[1..], acks)
  }

  lemma {:induction false} NoneAcknowledged(q: seq<LocalMessage>, acks: seq<u16>)
    requires forall i :: 0 <= i < |q| ==> q[i].messageId !in acks
    ensures Unacknowledged(q, acks) == q
    decreases |q|
  {
    if q != [] {
      assert forall i :: 0 <= i < |q[1..]| ==> q[1..][i] == q[i + 1];
      NoneAcknowledged(q[1..], acks);
      assert q == [q[0]] + q[1..];
    }
  }

  lemma WithoutFirstStep(q: seq<LocalMessage>, id: u16)
    requires q != []
    ensures WithoutFirst(q, id) == if q[0].messageId == id then q[1..] else [q[0]] + WithoutFirst(q[1..], id)
  {
  }

  lemma StillDistinct(q: seq<LocalMessage>, id: u16)
    requires DistinctLocals(q)
    ensures DistinctLocals(WithoutFirst(q, id))
  {
    var r, k := WithoutFirst(q, id), FindLocal(q, id);
    assert forall i :: 0 <= i < |r| ==> r[i] == q[if i < k then i else i + 1];
  }

  lemma {:induction false} FirstRemoved(q: seq<LocalMessage>, id: u16, acks: seq<u16>)
    requires DistinctLocals(q)
    ensures Unacknowledged(WithoutFirst(q, id), acks) == Unacknowledged(q, [id] + acks)
    decreases |q|
  {
    hide WithoutFirst;
    if q == [] {
      assert WithoutFirst(q, id) == [] by { NothingToRemove(id); }
    } else {
      var rest, both := q[1..], [id] + acks;
      assert forall i :: 0 <= i < |rest| ==> rest[i] == q[i + 1];
      assert forall x :: x in both <==> x == id || x in acks;
      WithoutFirstStep(q, id);
      if q[0].messageId == id {
        SameAcknowledged(rest, acks, both);
      } else {
        FirstRemoved(rest, id, acks);
        assert WithoutFirst(q, id)[1..] == WithoutFirst(rest, id);
      }
    }
  }

  lemma NothingToRemove(id: u16)
    ensures WithoutFirst([], id) == []
  {
  }

  lemma {:induction false} SameAcknowledged(q: seq<LocalMessage>, a: seq<u16>, b: seq<u16>)
    requires forall i :: 0 <= i < |q| ==> (q[i].messageId in a <==> q[i].messageId in b)
    ensures Unacknowledged(q, a) == Unacknowledged(q, b)
    decreases |q|
  {
    if q != [] {
      assert forall i :: 0 <= i < |q[1..]| ==> q[1..][i] == q[i + 1];
      SameAcknowledged(q[1..], a, b);
    }
  }

  /** Acknowledgements remove exactly the messages they name; the others stay as they are, in order. */
  lemma {:induction false} AcksRemoveTheirMessages(q: seq<LocalMessage>, acks: seq<u16>)
    requires DistinctLocals(q)
    ensures AckAll(q, acks) == Unacknowledged(q, acks)
    decreases |acks|
  {
    if acks == [] {
      NoneAcknowledged(q, acks);
    } else {
      StillDistinct(q, acks[0]);
      FirstRemoved(q, acks[0], acks[1..]);
      AcksRemoveTheirMessages(WithoutFirst(q, acks[0]), acks[1..]);
      assert acks == [acks[0]] + acks[1..];
    }
  }

  // ---------------------------------------------------------------- an arriving message

  /** What arrives with any message: the store is as before but for what the message itself does. */
  ghost predicate OnlyAcked(s: StoreState, meta: MessageMeta, t: StoreState) {
    && t == s.(remoteUnacked := t.remoteUnacked, outOfOrder := t.outOfOrder, delayed := t.delayed,
               nextRemoteId := t.nextRemoteId, localUnacked := t.localUnacked)
    && (meta.rel.Some? && DistinctLocals(s.localUnacked) ==>
          t.localUnacked == Unacknowledged(s.localUnacked, meta.rel.value.acks))
  }

  lemma IncomingAcks(s: StoreState, meta: MessageMeta, now: Time)
    requires meta.rel.Some? && meta.rel.value.Complete()
    ensures var t := AfterIncoming(s, meta, now).0;
            DistinctLocals(s.localUnacked) ==> t.localUnacked == Unacknowledged(s.localUnacked, meta.rel.value.acks)
  {
    hide AfterIncoming, AckAll, Unacknowledged;
    IncomingLocalUnacked(s, meta, now);
    if DistinctLocals(s.localUnacked) {
      AcksRemoveTheirMessages(s.localUnacked, meta.rel.value.acks);
    }
  }

  /** A message without an id of its own only brings acknowledgements. */
  lemma AcksAlone(s: StoreState, meta: MessageMeta, now: Time)
    requires meta.rel.Some? && meta.rel.value.Complete() && IdOf(meta) == 0
    ensures var (t, r) := AfterIncoming(s, meta, now);
            r == Ok(true) && OnlyAcked(s, meta, t) && t == s.(localUnacked := t.localUnacked)
  {
    IncomingAcks(s, meta, now);
  }

  /**
    A message up to 16383 ids behind the expected one: it is not handed on, and an
    acknowledgement of it waits from then on, one that waited already or a new one at the end.
    Apart from the acknowledgements it brings it does nothing else.
   */
  lemma DuplicateIsAckedAgain(s: StoreState, meta: MessageMeta, now: Time)
    requires StoreInv(s) && meta.rel.Some? && meta.rel.value.Complete()
    requires IdOf(meta) != 0 && IdOf(meta) < s.nextRemoteId && s.nextRemoteId - IdOf(meta) < 16384
    ensures var (t, r) := AfterIncoming(s, meta, now);
            && r == Ok(false) && OnlyAcked(s, meta, t)
            && AwaitsAck(t.remoteUnacked, IdOf(meta))
            && t.remoteUnacked == (if AwaitsAck(s.remoteUnacked, IdOf(meta)) then s.remoteUnacked
                                   else s.remoteUnacked + [RemoteAck(IdOf(meta), now)])
            && t == s.(remoteUnacked := t.remoteUnacked, localUnacked := t.localUnacked)
  {
    IncomingAcks(s, meta, now);
    var id := IdOf(meta);
    var s1 := s.(localUnacked := AckAll(s.localUnacked, meta.rel.value.acks));
    var s2 := s1.(remoteUnacked := s1.remoteUnacked + [RemoteAck(id, now)]);
    assert FindStored(s2.outOfOrder, s2.nextRemoteId) == |s2.outOfOrder|;
    assert s2.remoteUnacked[|s.remoteUnacked|].messageId == id;
  }

  ghost predicate IsStored(s: StoreState, id: u16) {
    exists i :: 0 <= i < |s.outOfOrder| && IdOf(s.outOfOrder[i].meta) == id
  }

  /** Any other message that is not the expected one: refused with 32 stored, ignored if stored, else stored last. */
  lemma AheadIsStored(s: StoreState, meta: MessageMeta, now: Time)
    requires meta.rel.Some? && meta.rel.value.Complete() && IdOf(meta) != 0 && IdOf(meta) != s.nextRemoteId
    requires !(IdOf(meta) < s.nextRemoteId && s.nextRemoteId - IdOf(meta) < 16384)
    ensures var (t, r) := AfterIncoming(s, meta, now);
            && OnlyAcked(s, meta, t) && t == s.(outOfOrder := t.outOfOrder, localUnacked := t.localUnacked)
            && (|s.outOfOrder| >= 32 ==> r == Err(TooUnreliable) && t.outOfOrder == s.outOfOrder)
            && (|s.outOfOrder| < 32 ==>
                  && r == Ok(false)
                  && t.outOfOrder == s.outOfOrder + if IsStored(s, IdOf(meta)) then [] else [StoredMessage(meta, now)])
  {
    IncomingAcks(s, meta, now);
    assert s.outOfOrder + [] == s.outOfOrder;
  }

  /**
    The expected message: it is handed on, and with it the stored messages that follow it
    without a gap, all of them and in order, become due; each of these is acknowledged.
   */
  lemma ExpectedIsTaken(s: StoreState, meta: MessageMeta, now: Time)
    requires StoreInv(s) && meta.rel.Some? && meta.rel.value.Complete() && IdOf(meta) == s.nextRemoteId
    ensures var (t, r) := AfterIncoming(s, meta, now);
            && r == Ok(true) && OnlyAcked(s, meta, t) && s.delayed <= t.delayed
            && var moved := t.delayed[|s.delayed|..];
            && Consecutive([meta] + moved, s.nextRemoteId)
            && t.nextRemoteId == Advance(s.nextRemoteId, 1 + |moved|) && !IsStored(t, t.nextRemoteId)
            && t.remoteUnacked == s.remoteUnacked + RunAcks(s.nextRemoteId, 1 + |moved|, now)
            && multiset(Metas(t.outOfOrder)) + multiset(moved) == multiset(Metas(s.outOfOrder))
  {
    IncomingAcks(s, meta, now);
    hide AckAll, Unacknowledged;
    var s1 := s.(localUnacked := AckAll(s.localUnacked, meta.rel.value.acks));
    var u := s1.(remoteUnacked := s1.remoteUnacked + [RemoteAck(s1.nextRemoteId, now)],
                 nextRemoteId := NextId(s1.nextRemoteId));
    RestoreMovesMaximalRun(u, now);
    var t := AfterIncoming(s, meta, now).0;
    assert t == Restore(u, now);
    var moved := t.delayed[|s.delayed|..];
    assert ([meta] + moved)[1..] == moved;
    var acks := [RemoteAck(s.nextRemoteId, now)] + RunAcks(NextId(s.nextRemoteId), |moved|, now);
    assert t.remoteUnacked == s.remoteUnacked + acks;
  }

  // ---------------------------------------------------------------- sending

  /** A reliable message is queued as sent now and not yet again, unless 64 are queued. */
  lemma PushedOrFull(s: StoreState, msg: DataMessage, now: Time)
    requires msg.rel.Some?
    ensures var (t, r) := AfterPush(s, msg, now);
            && (|s.localUnacked| >= 64 ==> t == s && r == Err(TooUnreliable))
            && (|s.localUnacked| < 64 ==>
                  && r == Ok(())
                  && t == s.(localUnacked := s.localUnacked + [LocalMessage(msg.rel.value.messageId, msg, now, 0)]))
  {
  }

  // ---------------------------------------------------------------- timers

  /** The round-trip estimate in milliseconds; 200 stand for an unknown one. */
  function RoundTripMillis(micros: nat): real {
    if micros == 0 then 200.0 else micros as real / 1000.0
  }

  /** The number of attempts, but at least one and at most six. */
  function Clamped(attempts: nat): nat {
    if attempts < 1 then 1 else if attempts > 6 then 6 else attempts
  }

  predicate IsLate(waited: real, base: real, k: nat) {
    waited >= base * k as real && waited >= 175.0 * k as real
  }

  /** A wait of 1.6 round trips and 50 ms, and of 175 ms, has passed once for each of the first to sixth attempt. */
  predicate IsOverdue(m: LocalMessage, micros: nat, now: Time) {
    IsLate(now - m.sentAt, 1.6 * RoundTripMillis(micros) + 50.0, Clamped(m.attempts))
  }

  lemma LateIff(waited: real, base: real, k: nat)
    requires k >= 1
    ensures var least := if base < 175.0 then 175.0 else base;
            && (IsLate(waited, base, k) <==> waited >= least * k as real) && least * k as real > 0.0
  {
    var r := k as real;
    if base < 175.0 {
      assert base * r <= 175.0 * r;
    } else {
      assert base * r >= 175.0 * r;
    }
    assert 175.0 * r >= 175.0;
  }

  lemma DueIffOverdue(s: StoreState, i: nat, now: Time)
    requires i < |s.localUnacked|
    ensures LocalDue(s, i, now) <==> IsOverdue(s.localUnacked[i], s.avgRttMicros, now)
  {
    hide IsLate;
    var m := s.localUnacked[i];
    var k, base := Clamped(m.attempts), 1.6 * RoundTripMillis(s.avgRttMicros) + 50.0;
    LateIff(now - m.sentAt, base, k);
    assert Attempt(m.attempts) == k as real;
    assert BaseDeadline(s.avgRttMicros) == if base < 175.0 then 175.0 else base;
  }

  /**
    What the timer sends again, in milliseconds: the first message that is overdue, which is
    then stamped and counted, or given up if it went out ten times again; nothing without one.
   */
  lemma RetransmitsFirstOverdue(s: StoreState, now: Time, k: nat)
    requires k <= |s.localUnacked| && (k < |s.localUnacked| ==> IsOverdue(s.localUnacked[k], s.avgRttMicros, now))
    requires forall i :: 0 <= i < k ==> !IsOverdue(s.localUnacked[i], s.avgRttMicros, now)
    ensures var (t, r) := AfterRetransmit(s, now);
            if k == |s.localUnacked| then t == s && r == Ok(Nothing)
            else
              var m := s.localUnacked[k];
              && t == s.(localUnacked := s.localUnacked[k := LocalMessage(m.messageId, m.msg, now, m.attempts + 1)])
              && r == if m.attempts >= 10 then Err(TooUnreliable) else Ok(Resend(m.msg))
  {
    hide IsOverdue, LocalDue;
    forall i | 0 <= i < |s.localUnacked|
      ensures LocalDue(s, i, now) <==> IsOverdue(s.localUnacked[i], s.avgRttMicros, now)
    {
      DueIffOverdue(s, i, now);
    }
    assert FirstDue(s, 0, now) == k;
  }

  /** Acknowledgements are urgent exactly when one has waited 50 ms. */
  lemma UrgentAfterFifty(s: StoreState, now: Time)
    ensures HasUrgentAcks(s, now) <==> exists i :: 0 <= i < |s.remoteUnacked| && now - s.remoteUnacked[i].receivedAt >= 50.0
  {
    if HasUrgentAcks(s, now) {
      var i :| 0 <= i < |s.remoteUnacked| && AckDue(s, i, now);
      assert now - s.remoteUnacked[i].receivedAt >= 50.0;
    }
    if exists i :: 0 <= i < |s.remoteUnacked| && now - s.remoteUnacked[i].receivedAt >= 50.0 {
      var i :| 0 <= i < |s.remoteUnacked| && now - s.remoteUnacked[i].receivedAt >= 50.0;
      assert AckDue(s, i, now);
    }
  }

  /** So the timer runs exactly until a message is overdue or an acknowledgement has waited 50 ms. */
  lemma TimerInMillis(s: StoreState, now: Time, d: Duration, wait: real)
    requires IsTimerExpiry(s, now, d) && ClockCovers(s, now) && wait >= 0.0
    ensures d.Finite? && d.ms <= wait
            <==> || (exists i :: 0 <= i < |s.localUnacked| && IsOverdue(s.localUnacked[i], s.avgRttMicros, now + wait))
                 || (exists i :: 0 <= i < |s.remoteUnacked| && (now + wait) - s.remoteUnacked[i].receivedAt >= 50.0)
  {
    hide IsOverdue, LocalDue, IsTimerExpiry, HasUrgentAcks, AfterRetransmit;
    var later := now + wait;
    UntilTimerExpiryIsExact(s, now, d, wait);
    RetransmitsIffDue(s, later);
    UrgentAfterFifty(s, later);
    forall i | 0 <= i < |s.localUnacked|
      ensures LocalDue(s, i, later) <==> IsOverdue(s.localUnacked[i], s.avgRttMicros, later)
    {
      DueIffOverdue(s, i, later);
    }
  }
}
