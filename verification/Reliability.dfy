/**
  The reliable layer of one UDP endpoint: ordered, exactly-once acceptance of the remote's
  messages, acknowledgement of them, and retransmission of local messages.

  `StoreState` and the functions on it say what each operation does; the class at the end
  performs the operations on fields, and each of its methods is tied to its function.
 */
module Reliability {
  import opened Wrappers
  import opened Bytes
  import opened MessageTypes
  import opened SequenceNumbers

  /** Milliseconds. */
  type Time = real

  const MAX_OUT_OF_ORDER := 32
  const MAX_LOCAL_UNACKED := 64
  const MAX_RETRANSMISSIONS := 10
  const ACK_DEADLINE: Time := 50.0

  datatype RemoteAck = RemoteAck(messageId: u16, receivedAt: Time)
  datatype StoredMessage = StoredMessage(meta: MessageMeta, receivedAt: Time)
  datatype LocalMessage = LocalMessage(messageId: u16, msg: DataMessage, sentAt: Time, attempts: nat)

  datatype StoreState = StoreState(
    remoteUnacked: seq<RemoteAck>,
    outOfOrder: seq<StoredMessage>,
    delayed: seq<MessageMeta>,
    nextRemoteId: u16,
    nextLocalId: u16,
    localUnacked: seq<LocalMessage>,
    avgRttMicros: nat)

  const InitialState := StoreState([], [], [], 1, 1, [], 0)

  function IdOf(meta: MessageMeta): u16 {
    if meta.rel.Some? then meta.rel.value.messageId else 0
  }

  // ---------------------------------------------------------------- incoming messages

  /** The position of the first message stored under `id`, or the length. */
  function FindStored(q: seq<StoredMessage>, id: u16): (i: nat)
    ensures i <= |q|
    ensures i < |q| ==> IdOf(q[i].meta) == id
    ensures forall j :: 0 <= j < i ==> IdOf(q[j].meta) != id
  {
    if q == [] then 0
    else if IdOf(q[0].meta) == id then 0
    else
      var i := FindStored(q[1..], id);
      assert forall j :: 1 <= j < i + 1 ==> q[j] == q[1..][j - 1];
      i + 1
  }

  /** The position of the first local message sent under `id`, or the length. */
  function FindLocal(q: seq<LocalMessage>, id: u16): (i: nat)
    ensures i <= |q|
    ensures i < |q| ==> q[i].messageId == id
    ensures forall j :: 0 <= j < i ==> q[j].messageId != id
  {
    if q == [] then 0
    else if q[0].messageId == id then 0
    else
      var i := FindLocal(q[1..], id);
      assert forall j :: 1 <= j < i + 1 ==> q[j] == q[1..][j - 1];
      i + 1
  }

  function WithoutIndex<T>(q: seq<T>, i: nat): (r: seq<T>)
    ensures i < |q| ==> |r| == |q| - 1
  {
    if i < |q| then q[..i] + q[i + 1..] else q
  }

  function WithoutFirst(q: seq<LocalMessage>, id: u16): seq<LocalMessage> {
    WithoutIndex(q, FindLocal(q, id))
  }

  function AckAll(q: seq<LocalMessage>, acks: seq<u16>): seq<LocalMessage>
    decreases |acks|
  {
    if acks == [] then q else AckAll(WithoutFirst(q, acks[0]), acks[1..])
  }

  predicate AwaitsAck(q: seq<RemoteAck>, id: u16) {
    exists i :: 0 <= i < |q| && q[i].messageId == id
  }

  /** Accepts the expected message, then whatever stored messages that makes due. */
  function Accept(s: StoreState, now: Time): StoreState
    decreases |s.outOfOrder|, 1
  {
    Restore(s.(remoteUnacked := s.remoteUnacked + [RemoteAck(s.nextRemoteId, now)],
               nextRemoteId := NextId(s.nextRemoteId)), now)
  }

  function Restore(s: StoreState, now: Time): StoreState
    decreases |s.outOfOrder|, 0
  {
    var i := FindStored(s.outOfOrder, s.nextRemoteId);
    if i == |s.outOfOrder| then s else Accept(Released(s, i), now)
  }

  function Released(s: StoreState, i: nat): StoreState
    requires i < |s.outOfOrder|
  {
    s.(delayed := s.delayed + [s.outOfOrder[i].meta],
       outOfOrder := s.outOfOrder[..i] + s.outOfOrder[i + 1..])
  }

  function AckAgain(s: StoreState, id: u16, now: Time): StoreState {
    if AwaitsAck(s.remoteUnacked, id) then s
    else Restore(s.(remoteUnacked := s.remoteUnacked + [RemoteAck(id, now)]), now)
  }

  function StoreOutOfOrder(s: StoreState, meta: MessageMeta, now: Time): (StoreState, Result<bool, TransportError>) {
    if |s.outOfOrder| >= MAX_OUT_OF_ORDER then (s, Err(TooUnreliable))
    else if FindStored(s.outOfOrder, IdOf(meta)) < |s.outOfOrder| then (s, Ok(false))
    else (s.(outOfOrder := s.outOfOrder + [StoredMessage(meta, now)]), Ok(false))
  }

  function AfterIncoming(s: StoreState, meta: MessageMeta, now: Time): (StoreState, Result<bool, TransportError>)
    requires meta.rel.Some? && meta.rel.value.Complete()
  {
    var rel := meta.rel.value;
    var s1 := s.(localUnacked := AckAll(s.localUnacked, rel.acks));
    if rel.messageId == 0 then (s1, Ok(true))
    else match Classify(rel.messageId, s1.nextRemoteId)
      case Duplicate => (AckAgain(s1, rel.messageId, now), Ok(false))
      case OutOfOrder => StoreOutOfOrder(s1, meta, now)
      case InOrder => (Accept(s1, now), Ok(true))
  }

  function PopDelayed(s: StoreState): (StoreState, Option<MessageMeta>) {
    if s.delayed == [] then (s, None) else (s.(delayed := s.delayed[1..]), Some(s.delayed[0]))
  }

  // ---------------------------------------------------------------- outgoing messages

  function Ids(q: seq<RemoteAck>): (ids: seq<u16>)
    ensures |ids| == |q|
    ensures forall i :: 0 <= i < |q| ==> ids[i] == q[i].messageId
  {
    seq(|q|, i requires 0 <= i < |q| => q[i].messageId)
  }

  /** The header's acks are the eight oldest waiting ones, which stop waiting. */
  function AfterTakingAcks(s: StoreState, messageId: u16): (r: (StoreState, ReliabilityHeader))
    ensures r.1.Valid()
  {
    var k := if |s.remoteUnacked| < MAX_ACKS then |s.remoteUnacked| else MAX_ACKS;
    (s.(remoteUnacked := s.remoteUnacked[k..]), ReliabilityHeader(messageId, k, Ids(s.remoteUnacked[..k])))
  }

  function TakeMessageId(s: StoreState): (StoreState, u16) {
    (s.(nextLocalId := NextId(s.nextLocalId)), s.nextLocalId)
  }

  function AfterPush(s: StoreState, msg: DataMessage, now: Time): (StoreState, Result<(), TransportError>)
    requires msg.rel.Some?
  {
    if |s.localUnacked| >= MAX_LOCAL_UNACKED then (s, Err(TooUnreliable))
    else (s.(localUnacked := s.localUnacked + [LocalMessage(msg.rel.value.messageId, msg, now, 0)]), Ok(()))
  }

  // ---------------------------------------------------------------- timers

  datatype Duration = Finite(ms: real) | Infinite

  function Min(a: Duration, b: Duration): Duration {
    if a.Infinite? then b else if b.Infinite? then a else if b.ms < a.ms then b else a
  }

  function Elapsed(since: Time, now: Time): real {
    if now <= since then 0.0 else now - since
  }

  /** Duration subtraction saturates at zero. */
  function Remaining(deadline: real, elapsed: real): real {
    if deadline <= elapsed then 0.0 else deadline - elapsed
  }

  function Attempt(k: nat): real {
    if k <= 1 then 1.0 else if k >= 6 then 6.0 else k as real
  }

  function BaseDeadline(avgRttMicros: nat): (d: real)
    ensures d >= 175.0
  {
    var rtt := if avgRttMicros == 0 then 200.0 else avgRttMicros as real / 1000.0;
    var base := rtt * 1.6 + ACK_DEADLINE;
    if base < 175.0 then 175.0 else base
  }

  function RetransmissionDeadline(avgRttMicros: nat, attempts: nat): (d: real)
    ensures d >= 175.0 * Attempt(attempts)
  {
    BaseDeadline(avgRttMicros) * Attempt(attempts)
  }

  predicate LocalDue(s: StoreState, i: nat, now: Time)
    requires i < |s.localUnacked|
  {
    var m := s.localUnacked[i];
    Elapsed(m.sentAt, now) >= RetransmissionDeadline(s.avgRttMicros, m.attempts)
  }

  predicate AckDue(s: StoreState, i: nat, now: Time)
    requires i < |s.remoteUnacked|
  {
    Elapsed(s.remoteUnacked[i].receivedAt, now) >= ACK_DEADLINE
  }

  predicate HasUrgentAcks(s: StoreState, now: Time) {
    exists i :: 0 <= i < |s.remoteUnacked| && AckDue(s, i, now)
  }

  /** The first local message due from position `i` on, or the number of them. */
  function FirstDue(s: StoreState, i: nat, now: Time): (k: nat)
    requires i <= |s.localUnacked|
    ensures i <= k <= |s.localUnacked|
    ensures k < |s.localUnacked| ==> LocalDue(s, k, now)
    ensures forall j :: i <= j < k ==> !LocalDue(s, j, now)
    decreases |s.localUnacked| - i
  {
    if i == |s.localUnacked| || LocalDue(s, i, now) then i else FirstDue(s, i + 1, now)
  }

  datatype Retransmission = Nothing | Resend(msg: DataMessage)

  function AfterRetransmit(s: StoreState, now: Time): (StoreState, Result<Retransmission, TransportError>) {
    var k := FirstDue(s, 0, now);
    if k == |s.localUnacked| then (s, Ok(Nothing))
    else
      var m := s.localUnacked[k];
      var s1 := s.(localUnacked := s.localUnacked[k := m.(sentAt := now, attempts := m.attempts + 1)]);
      (s1, if m.attempts >= MAX_RETRANSMISSIONS then Err(TooUnreliable) else Ok(Resend(m.msg)))
  }

  // ---------------------------------------------------------------- the class

  class ReliableStore {
    var remoteUnacked: seq<RemoteAck>
    var outOfOrder: seq<StoredMessage>
    var remoteDelayedQueue: seq<MessageMeta>
    var nextRemoteId: u16
    var nextLocalId: u16
    var localUnacked: seq<LocalMessage>
    var avgRttMicros: nat

    ghost function State(): StoreState
      reads this
    {
      StoreState(remoteUnacked, outOfOrder, remoteDelayedQueue, nextRemoteId, nextLocalId, localUnacked, avgRttMicros)
    }

    constructor ()
      ensures State() == InitialState
    {
      remoteUnacked, outOfOrder, remoteDelayedQueue := [], [], [];
      nextRemoteId, nextLocalId := 1, 1;
      localUnacked, avgRttMicros := [], 0;
    }

    /** False means the message is not to be handed on: a duplicate, or stored for later. */
    method HandleIncoming(meta: MessageMeta, now: Time) returns (r: Result<bool, TransportError>)
      requires meta.rel.Some? && meta.rel.value.Complete()
      modifies this
      ensures (State(), r) == AfterIncoming(old(State()), meta, now)
    {
      var rel := meta.rel.value;
      ProcessAcks(rel);
      if rel.messageId == 0 {
        return Ok(true);
      }
      var isDuplicate := rel.messageId < nextRemoteId && nextRemoteId - rel.messageId < 16384;
      var isOutOfOrder := !isDuplicate && rel.messageId != nextRemoteId;
      if isDuplicate {
        PushRemoteUnackedWithId(rel.messageId, true, now);
        return Ok(false);
      } else if isOutOfOrder {
        r := StoreRemoteOutOfOrder(meta, now);
        return;
      }
      PushRemoteUnacked(now);
      r := Ok(true);
    }

    method StoreRemoteOutOfOrder(meta: MessageMeta, now: Time) returns (r: Result<bool, TransportError>)
      modifies this
      ensures (State(), r) == StoreOutOfOrder(old(State()), meta, now)
    {
      if |outOfOrder| >= MAX_OUT_OF_ORDER {
        return Err(TooUnreliable);
      }
      for i := 0 to |outOfOrder|
        invariant unchanged(this)
        invariant forall j :: 0 <= j < i ==> IdOf(outOfOrder[j].meta) != IdOf(meta)
      {
        if IdOf(outOfOrder[i].meta) == IdOf(meta) {
          return Ok(false);
        }
      }
      outOfOrder := outOfOrder + [StoredMessage(meta, now)];
      r := Ok(false);
    }

    method PushRemoteUnacked(now: Time)
      modifies this
      ensures State() == Accept(old(State()), now)
      decreases |outOfOrder|, 2
    {
      var id := nextRemoteId;
      nextRemoteId := (nextRemoteId + 1) % 0x1_0000;
      if nextRemoteId == 0 {
        nextRemoteId := 1;
      }
      PushRemoteUnackedWithId(id, false, now);
    }

    method PushRemoteUnackedWithId(id: u16, dupe: bool, now: Time)
      modifies this
      ensures dupe ==> State() == AckAgain(old(State()), id, now)
      ensures !dupe ==>
        State() == Restore(old(State()).(remoteUnacked := old(remoteUnacked) + [RemoteAck(id, now)]), now)
      decreases |outOfOrder|, 1
    {
      if dupe {
        for i := 0 to |remoteUnacked|
          invariant unchanged(this)
          invariant forall j :: 0 <= j < i ==> remoteUnacked[j].messageId != id
        {
          if remoteUnacked[i].messageId == id {
            return;
          }
        }
      }
      remoteUnacked := remoteUnacked + [RemoteAck(id, now)];
      MaybeRestoreRemote(now);
    }

    method MaybeRestoreRemote(now: Time)
      modifies this
      ensures State() == Restore(old(State()), now)
      decreases |outOfOrder|, 0
    {
      var i := 0;
      while i < |outOfOrder|
        invariant unchanged(this)
        invariant 0 <= i <= |outOfOrder|
        invariant forall j :: 0 <= j < i ==> IdOf(outOfOrder[j].meta) != nextRemoteId
      {
        if IdOf(outOfOrder[i].meta) == nextRemoteId {
          remoteDelayedQueue := remoteDelayedQueue + [outOfOrder[i].meta];
          outOfOrder := outOfOrder[..i] + outOfOrder[i + 1..];
          PushRemoteUnacked(now);
          break;
        }
        i := i + 1;
      }
    }

    method PopDelayedMessage() returns (r: Option<MessageMeta>)
      modifies this
      ensures (State(), r) == PopDelayed(old(State()))
    {
      if remoteDelayedQueue == [] {
        return None;
      }
      r := Some(remoteDelayedQueue[0]);
      remoteDelayedQueue := remoteDelayedQueue[1..];
    }

    method ProcessAcks(rel: ReliabilityHeader)
      requires rel.Complete()
      modifies this
      ensures State() == old(State()).(localUnacked := AckAll(old(localUnacked), rel.acks))
    {
      var i := 0;
      while i < rel.ackCount
        invariant 0 <= i <= rel.ackCount
        invariant State() == old(State()).(localUnacked := localUnacked)
        invariant AckAll(localUnacked, rel.acks[i..]) == AckAll(old(localUnacked), rel.acks)
      {
        AckLocal(rel.acks[i]);
        assert rel.acks[i..][1..] == rel.acks[i + 1..];
        i := i + 1;
      }
    }

    method AckLocal(id: u16)
      modifies this
      ensures State() == old(State()).(localUnacked := WithoutFirst(old(localUnacked), id))
    {
      for i := 0 to |localUnacked|
        invariant unchanged(this)
        invariant forall j :: 0 <= j < i ==> localUnacked[j].messageId != id
      {
        if localUnacked[i].messageId == id {
          localUnacked := localUnacked[..i] + localUnacked[i + 1..];
          return;
        }
      }
    }

    method NextMessageId() returns (id: u16)
      modifies this
      ensures (State(), id) == TakeMessageId(old(State()))
    {
      id := nextLocalId;
      nextLocalId := (nextLocalId + 1) % 0x1_0000;
      if nextLocalId == 0 {
        nextLocalId := 1;
      }
    }

    method SetOutgoingAcks(messageId: u16) returns (rel: ReliabilityHeader)
      modifies this
      ensures (State(), rel) == AfterTakingAcks(old(State()), messageId)
    {
      var acks: seq<u16> := [];
      var i := 0;
      ghost var q := remoteUnacked;
      while i < 8 && remoteUnacked != []
        invariant 0 <= i <= 8 && i <= |q| && i == |acks|
        invariant State() == old(State()).(remoteUnacked := q[i..])
        invariant acks == Ids(q[..i])
      {
        acks := acks + [remoteUnacked[0].messageId];
        remoteUnacked := remoteUnacked[1..];
        i := i + 1;
      }
      rel := ReliabilityHeader(messageId, i, acks);
    }

    method PushLocalUnacked(msg: DataMessage, now: Time) returns (r: Result<(), TransportError>)
      requires msg.rel.Some?
      modifies this
      ensures (State(), r) == AfterPush(old(State()), msg, now)
    {
      if |localUnacked| >= MAX_LOCAL_UNACKED {
        return Err(TooUnreliable);
      }
      localUnacked := localUnacked + [LocalMessage(msg.rel.value.messageId, msg, now, 0)];
      r := Ok(());
    }

    /** The smallest wait until something is due; see UntilTimerExpiryIsExact for what it means. */
    method UntilTimerExpiry(now: Time) returns (expiry: Duration)
      ensures IsTimerExpiry(State(), now, expiry)
    {
      expiry := Infinite;
      if localUnacked == [] && remoteUnacked == [] {
        return;
      }
      for i := 0 to |localUnacked|
        invariant BoundsLocal(State(), now, expiry, i)
        invariant AttainedBelow(State(), now, expiry, i, 0)
      {
        var m := localUnacked[i];
        var delay := RetransmissionDeadline(avgRttMicros, m.attempts);
        expiry := Min(expiry, Finite(Remaining(delay, Elapsed(m.sentAt, now))));
        assert expiry == Finite(LocalWait(State(), i, now)) || AttainedBelow(State(), now, expiry, i, 0);
      }
      for i := 0 to |remoteUnacked|
        invariant BoundsLocal(State(), now, expiry, |localUnacked|)
        invariant BoundsRemote(State(), now, expiry, i)
        invariant AttainedBelow(State(), now, expiry, |localUnacked|, i)
      {
        var m := remoteUnacked[i];
        expiry := Min(expiry, Finite(Remaining(ACK_DEADLINE, Elapsed(m.receivedAt, now))));
        assert expiry == Finite(AckWait(State(), i, now)) || AttainedBelow(State(), now, expiry, |localUnacked|, i);
      }
    }

    method UpdateRtt(rttMicros: nat)
      modifies this
      ensures State() == old(State()).(avgRttMicros := rttMicros)
    {
      avgRttMicros := rttMicros;
    }

    method MaybeRetransmit(now: Time) returns (r: Result<Retransmission, TransportError>)
      modifies this
      ensures (State(), r) == AfterRetransmit(old(State()), now)
    {
      for i := 0 to |localUnacked|
        invariant unchanged(this)
        invariant forall j :: 0 <= j < i ==> !LocalDue(State(), j, now)
      {
        var m := localUnacked[i];
        if Elapsed(m.sentAt, now) >= RetransmissionDeadline(avgRttMicros, m.attempts) {
          assert LocalDue(State(), i, now);
          localUnacked := localUnacked[i := m.(sentAt := now, attempts := m.attempts + 1)];
          if m.attempts >= 10 {
            return Err(TooUnreliable);
          }
          return Ok(Resend(m.msg));
        }
      }
      r := Ok(Nothing);
    }

    method HasUrgentOutgoingAcks(now: Time) returns (urgent: bool)
      ensures urgent == HasUrgentAcks(State(), now)
    {
      for i := 0 to |remoteUnacked|
        invariant forall j :: 0 <= j < i ==> !AckDue(State(), j, now)
      {
        if Elapsed(remoteUnacked[i].receivedAt, now) >= ACK_DEADLINE {
          assert AckDue(State(), i, now);
          return true;
        }
      }
      urgent := false;
    }
  }

  // What UntilTimerExpiry computes: the least of the waits of all queued entries.

  function LocalWait(s: StoreState, i: nat, now: Time): real
    requires i < |s.localUnacked|
  {
    var m := s.localUnacked[i];
    Remaining(RetransmissionDeadline(s.avgRttMicros, m.attempts), Elapsed(m.sentAt, now))
  }

  function AckWait(s: StoreState, i: nat, now: Time): real
    requires i < |s.remoteUnacked|
  {
    Remaining(ACK_DEADLINE, Elapsed(s.remoteUnacked[i].receivedAt, now))
  }

  ghost predicate BoundsLocal(s: StoreState, now: Time, d: Duration, n: nat)
    requires n <= |s.localUnacked|
  {
    forall i :: 0 <= i < n ==> d.Finite? && d.ms <= LocalWait(s, i, now)
  }

  ghost predicate BoundsRemote(s: StoreState, now: Time, d: Duration, n: nat)
    requires n <= |s.remoteUnacked|
  {
    forall i :: 0 <= i < n ==> d.Finite? && d.ms <= AckWait(s, i, now)
  }

  ghost predicate AttainedBelow(s: StoreState, now: Time, d: Duration, locals: nat, remotes: nat)
    requires locals <= |s.localUnacked| && remotes <= |s.remoteUnacked|
  {
    d.Finite? ==>
      || (exists i :: 0 <= i < locals && d.ms == LocalWait(s, i, now))
      || (exists i :: 0 <= i < remotes && d.ms == AckWait(s, i, now))
  }

  ghost predicate IsTimerExpiry(s: StoreState, now: Time, d: Duration) {
    && BoundsLocal(s, now, d, |s.localUnacked|)
    && BoundsRemote(s, now, d, |s.remoteUnacked|)
    && AttainedBelow(s, now, d, |s.localUnacked|, |s.remoteUnacked|)
  }
}
