/**
  Acknowledgements through any number of id wraps. Here nothing limits how far ahead of the
  expected message an arrival may be: that is derived, from the 64 places of the
  retransmission queue. What is assumed of arrivals is that no message is too old, and that
  no acknowledgement is for a message more than one period of ids back.
 */
module WindowedAcks {
  import opened Wrappers
  import opened Bytes
  import opened MessageTypes
  import opened SequenceNumbers
  import opened Reliability
  import opened ReliabilityProofs
  import opened ReliableDelivery

  /** The system and, for each packet, how many messages its sender had accepted when it was last sent. */
  datatype Stamped = Stamped(y: System, ab: map<Packet, nat>, ba: map<Packet, nat>)

  const StampedStart := Stamped(Start, map[], map[])

  /** The late half of the id window: what is behind is at most 16383 behind and of the same lap. */
  predicate NotTooOld(n: int, m: int) {
    n >= m || (m - n <= 16383 && SameLap(n, m))
  }

  /** The ack is for one of the messages accepted by then, which is less than a period behind the last one sent. */
  ghost predicate IsFreshAck(id: u16, accepted: nat, sent: nat) {
    exists a: nat :: 1 <= a <= accepted && WireId(a) == id && sent < a + ID_PERIOD
  }

  ghost predicate HasFreshAcks(msg: DataMessage, accepted: nat, sent: nat) {
    msg.rel.Some? ==> forall i :: 0 <= i < |msg.rel.value.acks| ==> IsFreshAck(msg.rel.value.acks[i], accepted, sent)
  }

  ghost predicate IsEnabled(p: Peer, incoming: set<Packet>, stamps: map<Packet, nat>, action: Action) {
    if action.Receive? then
      && p.alive && action.packet in incoming && Carries(action.meta, action.packet.msg) && p.store.delayed == []
      && (action.meta.rel.Some? ==> action.meta.rel.value.Valid())
      && (action.packet.number != 0 ==> NotTooOld(action.packet.number, |p.delivered| + 1))
      && action.packet in stamps && HasFreshAcks(action.packet.msg, stamps[action.packet], |p.sent|)
    else Enabled(Windowed, p, incoming, action)
  }

  ghost function WithStamps(stamps: map<Packet, nat>, newly: set<Packet>, accepted: nat): map<Packet, nat> {
    stamps + map packet | packet in newly :: accepted
  }

  /** What an action puts out, whether or not an equal packet was sent before. */
  function SentIn(p: Peer, action: Action): set<Packet>
    requires action.Receive? && action.meta.rel.Some? ==> action.meta.rel.value.Valid()
  {
    Act(p, {}, action).1
  }

  lemma ActPutsOut(p: Peer, out: set<Packet>, action: Action)
    requires action.Receive? && action.meta.rel.Some? ==> action.meta.rel.value.Valid()
    ensures Act(p, out, action) == (Act(p, {}, action).0, out + SentIn(p, action))
  {
    hide AfterIncoming, AfterRetransmit, AfterPush, Accepted;
    assert Act(p, out, action).1 == out + SentIn(p, action);
  }

  ghost predicate CanStepStamped(z: Stamped, step: Step) {
    if step.byA then IsEnabled(z.y.a, z.y.ba, z.ba, step.action) else IsEnabled(z.y.b, z.y.ab, z.ab, step.action)
  }

  ghost function NextStamped(z: Stamped, step: Step): Stamped
    requires CanStepStamped(z, step)
  {
    if step.byA then
      var (a, ab) := Act(z.y.a, z.y.ab, step.action);
      Stamped(System(a, z.y.b, ab, z.y.ba), WithStamps(z.ab, SentIn(z.y.a, step.action), |Accepted(z.y.a)|), z.ba)
    else
      var (b, ba) := Act(z.y.b, z.y.ba, step.action);
      Stamped(System(z.y.a, b, z.y.ab, ba), z.ab, WithStamps(z.ba, SentIn(z.y.b, step.action), |Accepted(z.y.b)|))
  }

  ghost predicate IsStampedRun(z: Stamped, steps: seq<Step>)
    decreases |steps|
  {
    steps == [] || (CanStepStamped(z, steps[0]) && IsStampedRun(NextStamped(z, steps[0]), steps[1..]))
  }

  ghost function AfterStamped(z: Stamped, steps: seq<Step>): Stamped
    requires IsStampedRun(z, steps)
    decreases |steps|
  {
    if steps == [] then z else AfterStamped(NextStamped(z, steps[0]), steps[1..])
  }

  // ---------------------------------------------------------------- the invariant

  /** Message `n` is queued for retransmission, under its id and with its content. */
  ghost predicate IsQueued(q: seq<LocalMessage>, n: nat, sent: seq<Content>) {
    n >= 1 && exists i :: 0 <= i < |q| && q[i].messageId == WireId(n) && CarriesNumber(q[i].msg, n, sent)
  }

  /** Every message that was queued and that the remote has not accepted is queued still. */
  ghost predicate UnacceptedQueued(p: Peer, accepted: nat) {
    forall n: nat :: 1 <= n && accepted < n <= p.pushed ==> IsQueued(p.store.localUnacked, n, p.sent)
  }

  ghost predicate StampsOk(out: set<Packet>, stamps: map<Packet, nat>, accepted: nat) {
    forall packet :: packet in out ==> packet in stamps && stamps[packet] <= accepted
  }

  /** Of the data of `p`, and the packets with acknowledgements of them that `q` sent. */
  ghost predicate HalfInv(p: Peer, q: Peer, qp: set<Packet>, stamps: map<Packet, nat>) {
    && p.pushed <= |p.sent| && AllButOnePushed(p)
    && UnacceptedQueued(p, |Accepted(q)|) && StampsOk(qp, stamps, |Accepted(q)|)
  }

  ghost predicate StampedInv(z: Stamped) {
    && SystemInv(Windowed, z.y)
    && HalfInv(z.y.a, z.y.b, z.y.ba, z.ba) && HalfInv(z.y.b, z.y.a, z.y.ab, z.ab)
  }

  // ---------------------------------------------------------------- the window

  function WireIds(a: nat, k: nat): set<u16> {
    if k == 0 then {} else WireIds(a, k - 1) + {WireId(a + k)}
  }

  lemma {:induction false} WireIdsMembers(a: nat, k: nat, id: u16)
    ensures id in WireIds(a, k) <==> exists n: nat :: a < n <= a + k && WireId(n) == id
    decreases k
  {
    if k > 0 {
      WireIdsMembers(a, k - 1, id);
    }
  }

  lemma {:induction false} WireIdsDistinct(a: nat, k: nat)
    requires k < ID_PERIOD
    ensures |WireIds(a, k)| == k
    decreases k
  {
    if k > 0 {
      WireIdsDistinct(a, k - 1);
      WireIdsMembers(a, k - 1, WireId(a + k));
      if WireId(a + k) in WireIds(a, k - 1) {
        var n: nat :| a < n <= a + k - 1 && WireId(n) == WireId(a + k);
        IdsRepeatWithPeriod(n, a + k);
      }
    }
  }

  lemma {:induction false} IdsAreFew(q: seq<LocalMessage>)
    ensures |LocalIds(q)| <= |q|
    decreases |q|
  {
    if q != [] {
      var init, last := q[..|q| - 1], q[|q| - 1];
      IdsAreFew(init);
      assert LocalIds(q) == LocalIds(init) + {last.messageId};
    }
  }

  lemma SmallerSubset(a: set<u16>, b: set<u16>)
    requires a <= b
    ensures |a| <= |b|
  {
    assert |b - a| == |b| - |a|;
  }

  /** With 64 places in the queue, no more than 64 queued messages can be unaccepted. */
  lemma FewUnaccepted(p: Peer, accepted: nat)
    requires UnacceptedQueued(p, accepted) && |p.store.localUnacked| <= MAX_LOCAL_UNACKED
    ensures p.pushed <= accepted + MAX_LOCAL_UNACKED
  {
    if p.pushed > accepted + MAX_LOCAL_UNACKED {
      var l, k := p.store.localUnacked, MAX_LOCAL_UNACKED + 1;
      forall id | id in WireIds(accepted, k)
        ensures id in LocalIds(l)
      {
        WireIdsMembers(accepted, k, id);
        var n: nat :| accepted < n <= accepted + k && WireId(n) == id;
        assert IsQueued(l, n, p.sent);
        var i :| 0 <= i < |l| && l[i].messageId == WireId(n) && CarriesNumber(l[i].msg, n, p.sent);
      }
      WireIdsDistinct(accepted, k);
      IdsAreFew(l);
      SmallerSubset(WireIds(accepted, k), LocalIds(l));
    }
  }

  /** What arrives is at most 64 ahead of what is expected, so it is in the window: the step is one of the windowed system. */
  lemma ArrivalIsWindowed(p: Peer, q: Peer, pq: set<Packet>, stamps: map<Packet, nat>, action: Action)
    requires IsEnabled(q, pq, stamps, action) && SenderInv(Windowed, p, pq)
    requires |p.store.localUnacked| <= MAX_LOCAL_UNACKED && AllButOnePushed(p) && UnacceptedQueued(p, |Accepted(q)|)
    ensures Enabled(Windowed, q, pq, action)
    ensures action.Receive? ==> action.packet.number <= |q.delivered| + 1 + MAX_LOCAL_UNACKED
    ensures |p.sent| <= |Accepted(q)| + MAX_LOCAL_UNACKED + 1
  {
    hide UnacceptedQueued, Act;
    FewUnaccepted(p, |Accepted(q)|);
    if action.Receive? && action.packet.number != 0 {
      var n, m := action.packet.number, |q.delivered| + 1;
      assert PacketOk(action.packet, p.sent);
      assert n <= |p.sent| && Accepted(q) == q.delivered;
      assert n - m <= MAX_LOCAL_UNACKED;
    }
  }

  // ---------------------------------------------------------------- preservation

  /** Acks remove nothing but entries with their ids. */
  lemma {:induction false} OtherIdsStay(q: seq<LocalMessage>, acks: seq<u16>, n: nat, sent: seq<Content>)
    requires n >= 1 && IsQueued(q, n, sent) && WireId(n) !in acks
    ensures IsQueued(AckAll(q, acks), n, sent)
    decreases |acks|
  {
    if acks != [] {
      var k := FindLocal(q, acks[0]);
      var i :| 0 <= i < |q| && q[i].messageId == WireId(n) && CarriesNumber(q[i].msg, n, sent);
      var r := WithoutIndex(q, k);
      var j := if k < |q| && i > k then i - 1 else i;
      assert k < |q| ==> q[k].messageId == acks[0] && i != k;
      assert r[j] == q[i];
      OtherIdsStay(r, acks[1..], n, sent);
    }
  }

  /** A fresh ack is not for a message that the remote has not accepted. */
  lemma FreshAckIsOld(id: u16, accepted: nat, stamp: nat, sent: nat, n: nat)
    requires IsFreshAck(id, stamp, sent) && stamp <= accepted < n <= sent
    ensures WireId(n) != id
  {
    var a: nat :| 1 <= a <= stamp && WireId(a) == id && sent < a + ID_PERIOD;
    IdsRepeatWithPeriod(n, a);
    assert 0 < n - a < ID_PERIOD;
  }

  lemma ReceivingKeepsQueued(p: Peer, out: set<Packet>, packet: Packet, meta: MessageMeta, now: Time, accepted: nat,
                             stamp: nat)
    requires UnacceptedQueued(p, accepted) && p.pushed <= |p.sent| && Carries(meta, packet.msg)
    requires (meta.rel.Some? ==> meta.rel.value.Valid()) && HasFreshAcks(packet.msg, stamp, |p.sent|) && stamp <= accepted
    ensures UnacceptedQueued(Act(p, out, Receive(packet, meta, now)).0, accepted)
  {
    hide AckAll, LocalIds, AfterIncoming, IsQueued, IsFreshAck;
    if meta.rel.Some? {
      ReceivingEffect(p, out, packet, meta, now);
      var acks := meta.rel.value.acks;
      forall n: nat | 1 <= n && accepted < n <= p.pushed
        ensures IsQueued(AckAll(p.store.localUnacked, acks), n, p.sent)
      {
        forall i | 0 <= i < |acks|
          ensures acks[i] != WireId(n)
        {
          FreshAckIsOld(acks[i], accepted, stamp, |p.sent|, n);
        }
        OtherIdsStay(p.store.localUnacked, acks, n, p.sent);
      }
    }
  }

  lemma QueueGrowth(q: seq<LocalMessage>, r: seq<LocalMessage>, n: nat, sent: seq<Content>, more: seq<Content>)
    requires n >= 1 && IsQueued(q, n, sent)
    requires |q| <= |r| && forall i :: 0 <= i < |q| ==> r[i].messageId == q[i].messageId && r[i].msg == q[i].msg
    ensures IsQueued(r, n, sent + more)
  {
    var i :| 0 <= i < |q| && q[i].messageId == WireId(n) && CarriesNumber(q[i].msg, n, sent);
    assert CarriesNumber(r[i].msg, n, sent + more);
  }

  lemma SendingKeepsQueued(p: Peer, out: set<Packet>, content: Content, now: Time, accepted: nat)
    requires UnacceptedQueued(p, accepted) && SenderInv(Windowed, p, out) && p.pushed == |p.sent|
    ensures UnacceptedQueued(Act(p, out, SendReliable(content, now)).0, accepted)
  {
    var p' := Act(p, out, SendReliable(content, now)).0;
    var l, l' := p.store.localUnacked, p'.store.localUnacked;
    var k := |p.sent| + 1;
    forall n: nat | 1 <= n && accepted < n <= p'.pushed
      ensures IsQueued(l', n, p'.sent)
    {
      if n <= p.pushed {
        hide IsQueued;
        QueueGrowth(l, l', n, p.sent, [content]);
      } else {
        assert n == k && l'[|l|].messageId == WireId(k) && CarriesNumber(l'[|l|].msg, k, p'.sent);
      }
    }
  }

  lemma RetransmittingKeepsQueued(p: Peer, out: set<Packet>, number: nat, now: Time, accepted: nat)
    requires UnacceptedQueued(p, accepted)
    ensures UnacceptedQueued(Act(p, out, Retransmit(number, now)).0, accepted)
  {
    var p' := Act(p, out, Retransmit(number, now)).0;
    var l, l' := p.store.localUnacked, p'.store.localUnacked;
    assert |l| == |l'| && forall i :: 0 <= i < |l| ==> l'[i].messageId == l[i].messageId && l'[i].msg == l[i].msg;
    hide IsQueued, Act;
    assert p'.pushed == p.pushed && p'.sent == p.sent + [];
    forall n: nat | 1 <= n && accepted < n <= p'.pushed
      ensures IsQueued(l', n, p'.sent)
    {
      QueueGrowth(l, l', n, p.sent, []);
    }
  }

  /** What a peer does keeps its own unaccepted messages in the queue. */
  lemma ActKeepsQueued(p: Peer, pq: set<Packet>, qp: set<Packet>, stamps: map<Packet, nat>, action: Action,
                       accepted: nat)
    requires IsEnabled(p, qp, stamps, action) && StampsOk(qp, stamps, accepted)
    requires UnacceptedQueued(p, accepted) && SenderInv(Windowed, p, pq) && p.pushed <= |p.sent| && AllButOnePushed(p)
    ensures var p' := Act(p, pq, action).0;
            UnacceptedQueued(p', accepted) && p'.pushed <= |p'.sent| && AllButOnePushed(p')
  {
    hide UnacceptedQueued, SenderInv, HasFreshAcks;
    match action
    case SendReliable(content, now) => SendingKeepsQueued(p, pq, content, now, accepted);
    case Retransmit(number, now) => RetransmittingKeepsQueued(p, pq, number, now, accepted);
    case Receive(packet, meta, now) => ReceivingKeepsQueued(p, pq, packet, meta, now, accepted, stamps[packet]);
    case _ => SameQueue(p, Act(p, pq, action).0, accepted);
  }

  lemma SameQueue(p: Peer, p': Peer, accepted: nat)
    requires p'.store.localUnacked == p.store.localUnacked && p'.pushed == p.pushed && p'.sent == p.sent
    ensures UnacceptedQueued(p, accepted) ==> UnacceptedQueued(p', accepted)
  {
  }

  lemma MoreAccepted(p: Peer, stamps: map<Packet, nat>, out: set<Packet>, a: nat, b: nat)
    requires a <= b
    ensures UnacceptedQueued(p, a) ==> UnacceptedQueued(p, b)
    ensures StampsOk(out, stamps, a) ==> StampsOk(out, stamps, b)
  {
    hide IsQueued;
  }

  /** One peer's action keeps both halves. */
  lemma ActKeepsHalves(p: Peer, q: Peer, pq: set<Packet>, qp: set<Packet>, stampsPQ: map<Packet, nat>,
                       stampsQP: map<Packet, nat>,
                       action: Action)
    requires DirectionInv(Windowed, p, q, pq, qp) && DirectionInv(Windowed, q, p, qp, pq)
    requires HalfInv(p, q, qp, stampsQP) && HalfInv(q, p, pq, stampsPQ) && IsEnabled(p, qp, stampsQP, action)
    ensures Enabled(Windowed, p, qp, action)
    ensures var (p', pq') := Act(p, pq, action);
            && HalfInv(p', q, qp, stampsQP)
            && HalfInv(q, p', pq', WithStamps(stampsPQ, SentIn(p, action), |Accepted(p)|))
  {
    assert action.Receive? && action.meta.rel.Some? ==> action.meta.rel.value.Valid();
    hide UnacceptedQueued, SenderInv, ReceiverCore, IsEnabled, Enabled, StampsOk, Act, AckInv;
    ArrivalIsWindowed(q, p, qp, stampsQP, action);
    ActKeepsQueued(p, pq, qp, stampsQP, action, |Accepted(q)|);
    var (p', pq') := Act(p, pq, action);
    ActKeepsReceiver(Windowed, q.sent, p, qp, pq, action) by {
      SenderPacketsOk(q, qp);
    }
    MoreAccepted(q, stampsPQ, pq, |Accepted(p)|, |Accepted(p')|);
    ActPutsOut(p, pq, action);
    NewStamps(pq, SentIn(p, action), stampsPQ, |Accepted(p)|, |Accepted(p')|);
  }

  lemma SenderPacketsOk(p: Peer, out: set<Packet>)
    requires SenderInv(Windowed, p, out)
    ensures forall packet :: packet in out ==> PacketOk(packet, p.sent)
  {
  }

  lemma NewStamps(out: set<Packet>, newly: set<Packet>, stamps: map<Packet, nat>, a: nat, b: nat)
    requires StampsOk(out, stamps, a) && a <= b
    ensures StampsOk(out + newly, WithStamps(stamps, newly, a), b)
  {
  }

  lemma StepKeepsStamped(z: Stamped, step: Step)
    requires StampedInv(z) && CanStepStamped(z, step)
    ensures StampedInv(NextStamped(z, step))
  {
    hide DirectionInv, HalfInv, Act, Enabled, IsEnabled;
    var y := z.y;
    if step.byA {
      ActKeepsHalves(y.a, y.b, y.ab, y.ba, z.ab, z.ba, step.action);
    } else {
      ActKeepsHalves(y.b, y.a, y.ba, y.ab, z.ba, z.ab, step.action);
    }
    StepKeepsInv(Windowed, y, step);
    assert NextStamped(z, step).y == Next(Windowed, y, step);
  }

  lemma {:induction false} RunKeepsStamped(z: Stamped, steps: seq<Step>)
    requires StampedInv(z) && IsStampedRun(z, steps)
    ensures StampedInv(AfterStamped(z, steps))
    decreases |steps|
  {
    hide StampedInv, CanStepStamped, NextStamped;
    if steps != [] {
      StepKeepsStamped(z, steps[0]);
      RunKeepsStamped(NextStamped(z, steps[0]), steps[1..]);
    }
  }

  lemma StampedStartInv()
    ensures StampedInv(StampedStart)
  {
    StartInv(Windowed);
  }

  // ---------------------------------------------------------------- equal packets of different laps

  /** The ack of the message with id 1, alone in its packet: what is sent for message 1, and again for message 65536. */
  const ACK_OF_ONE := Packet(0, DataMessage([], None, Some(ReliabilityHeader(0, 1, [1]))))

  /**
    Sending it again stamps it anew, so that a packet of the second lap that equals one of the
    first counts as fresh: it may arrive until another whole period has been sent.
   */
  lemma SecondLapAckIsFresh(q: Peer, out: set<Packet>, stamps: map<Packet, nat>, sent: nat)
    requires q.store.remoteUnacked != [] && q.store.remoteUnacked[0].messageId == 1 && |q.store.remoteUnacked| == 1
    requires |Accepted(q)| == 65536 && 65536 <= sent < 65536 + ID_PERIOD
    ensures SentIn(q, FlushAcks) == {ACK_OF_ONE}
    ensures var stamped := WithStamps(stamps, SentIn(q, FlushAcks), |Accepted(q)|);
            ACK_OF_ONE in stamped && HasFreshAcks(ACK_OF_ONE.msg, stamped[ACK_OF_ONE], sent)
  {
    var rel := AfterTakingAcks(q.store, 0).1;
    assert rel.acks == [1];
    assert SentIn(q, FlushAcks) == {ACK_OF_ONE};
    assert WireId(65536) == 1;
    assert IsFreshAck(1, 65536, sent);
  }

  // ---------------------------------------------------------------- the promises

  /** A message leaves the queue only once it is accepted, and the remote is at most 65 messages behind. */
  ghost predicate SafelyAcked(p: Peer, q: Peer) {
    && (forall n: nat :: 1 <= n && |Accepted(q)| < n <= p.pushed ==> IsQueued(p.store.localUnacked, n, p.sent))
    && |p.sent| <= |Accepted(q)| + MAX_LOCAL_UNACKED + 1
  }

  /**
    Ack safety through any number of wraps: in every run in which no message arrives too old
    and no ack is a period or more back, whatever else is lost, repeated or reordered, each
    queued message stays queued until the remote has accepted it; so at most 64 can be on
    their way beyond the accepted ones, and what is handed over is a prefix of what was sent.
   */
  lemma AckSafetyThroughWraps(steps: seq<Step>)
    requires IsStampedRun(StampedStart, steps)
    ensures var y := AfterStamped(StampedStart, steps).y;
            && SafelyAcked(y.a, y.b) && SafelyAcked(y.b, y.a)
            && Accepted(y.b) <= y.a.sent && Accepted(y.a) <= y.b.sent
            && y.b.delivered <= y.a.sent && y.a.delivered <= y.b.sent
  {
    hide AfterStamped, IsStampedRun, IsQueued;
    StampedStartInv();
    RunKeepsStamped(StampedStart, steps);
    var y := AfterStamped(StampedStart, steps).y;
    FewUnaccepted(y.a, |Accepted(y.b)|);
    FewUnaccepted(y.b, |Accepted(y.a)|);
  }
}
