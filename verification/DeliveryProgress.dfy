/**
  What can still happen: from every state that a run without id reuse leads to, while both
  ends live, there is a continuation in which all that was sent is delivered and
  acknowledged. It needs no acknowledgement of the run so far to have come through: a message
  that arrives again is acknowledged again.
 */
module DeliveryProgress {
  import opened Wrappers
  import opened Bytes
  import opened MessageTypes
  import opened SequenceNumbers
  import opened Reliability
  import opened ReliabilityProofs
  import opened ReliabilityCases
  import opened ReliableDelivery
  import opened TransportSteps

  // ---------------------------------------------------------------- one peer on its own

  lemma {:induction false} ContentsSplit(m: MessageMeta, rest: seq<MessageMeta>)
    ensures Contents([m] + rest) == [ContentOf(m)] + Contents(rest)
  {
    assert ([m] + rest)[1..] == rest;
  }

  /** The delayed queue is taken message by message, in order, until it is empty. */
  lemma {:induction false} TakeAllDelayed(regime: Regime, p: Peer, out: set<Packet>, incoming: set<Packet>)
    returns (actions: seq<Action>)
    requires p.alive
    ensures EnabledAll(regime, p, out, incoming, actions)
    ensures forall i :: 0 <= i < |actions| ==> actions[i] == TakeDelayed
    ensures ActAll(regime, p, out, incoming, actions)
            == (p.(store := p.store.(delayed := []), delivered := Accepted(p)), out)
    decreases |p.store.delayed|
  {
    if p.store.delayed == [] {
      actions := [];
      assert p.delivered + [] == p.delivered;
    } else {
      var first, rest := p.store.delayed[0], p.store.delayed[1..];
      assert p.store.delayed == [first] + rest;
      ContentsSplit(first, rest);
      var q := p.(store := p.store.(delayed := rest), delivered := p.delivered + [ContentOf(first)]);
      assert Accepted(q) == Accepted(p);
      var more := TakeAllDelayed(regime, q, out, incoming);
      actions := [TakeDelayed] + more;
      assert actions[1..] == more;
      hide Accepted;
      assert Act(p, out, TakeDelayed) == (q, out);
    }
  }

  ghost predicate AcksId(packet: Packet, id: u16) {
    && packet.number == 0 && packet.msg.rel.Some? && packet.msg.rel.value.Valid()
    && packet.msg.rel.value.messageId == 0 && id in packet.msg.rel.value.acks
  }

  /** Sending acknowledgements until a certain one that waits has gone out. */
  lemma {:induction false} FlushUntil(regime: Regime, p: Peer, out: set<Packet>, incoming: set<Packet>, id: u16)
    returns (actions: seq<Action>, packet: Packet)
    requires p.alive && AwaitsAck(p.store.remoteUnacked, id)
    ensures EnabledAll(regime, p, out, incoming, actions)
    ensures forall i :: 0 <= i < |actions| ==> actions[i] == FlushAcks
    ensures var (q, out') := ActAll(regime, p, out, incoming, actions);
            && q == p.(store := p.store.(remoteUnacked := q.store.remoteUnacked))
            && out <= out' && packet in out' && AcksId(packet, id)
    decreases |p.store.remoteUnacked|
  {
    var (t, rel) := AfterTakingAcks(p.store, 0);
    packet := Packet(0, DataMessage([], None, Some(rel)));
    var q, out' := p.(store := t), out + {packet};
    var i :| 0 <= i < |p.store.remoteUnacked| && p.store.remoteUnacked[i].messageId == id;
    assert rel.ackCount > 0;
    assert Act(p, out, FlushAcks) == (q, out');
    if i < |rel.acks| {
      assert rel.acks[i] == id;
      OneFlush(regime, p, out, incoming);
      actions := [FlushAcks];
    } else {
      assert t.remoteUnacked[i - |rel.acks|].messageId == id;
      var more;
      more, packet := FlushUntil(regime, q, out', incoming, id);
      actions := [FlushAcks] + more;
      assert actions[1..] == more;
    }
  }

  lemma OneFlush(regime: Regime, p: Peer, out: set<Packet>, incoming: set<Packet>)
    requires p.alive && p.store.remoteUnacked != []
    ensures EnabledAll(regime, p, out, incoming, [FlushAcks])
    ensures ActAll(regime, p, out, incoming, [FlushAcks]) == Act(p, out, FlushAcks)
  {
    assert [FlushAcks][1..] == [];
  }

  /** What a packet's datagrams lead to. */
  function MetaFor(packet: Packet): MessageMeta {
    MessageMeta(MSG_DATA, packet.msg.comp, packet.msg.rel, None, packet.msg.data, 0)
  }

  // ---------------------------------------------------------------- receiving again

  /** A message not ahead of the expected one arrives: it is accepted by then, and an acknowledgement of it waits. */
  lemma ArrivesAgain(sent: seq<Content>, p: Peer, out: set<Packet>, incoming: set<Packet>, packet: Packet)
    requires ReceiverInv(NoWrap, sent, p) && |sent| <= MAX_WITHOUT_WRAP && p.alive && p.store.delayed == []
    requires packet in incoming && PacketOk(packet, sent)
    requires 1 <= packet.number <= |p.delivered| + 1 && |p.delivered| + 1 - packet.number <= 16383
    ensures var action := Receive(packet, MetaFor(packet), 0.0);
            && Enabled(NoWrap, p, incoming, action)
            && var (q, out') := Act(p, out, action);
            && q.alive && out' == out && q.sent == p.sent
            && AwaitsAck(q.store.remoteUnacked, packet.number)
            && |Accepted(q)| >= packet.number && |Accepted(q)| >= |p.delivered|
  {
    var meta, n, m := MetaFor(packet), packet.number, |p.delivered| + 1;
    assert p.delivered + Contents(p.store.delayed) == p.delivered;
    assert IdOf(meta) == n && p.store.nextRemoteId == m;
    hide AfterIncoming, StoreInv;
    StoreIsInv(NoWrap, sent, p);
    if n == m {
      ExpectedIsTaken(p.store, meta, 0.0);
      var t := AfterIncoming(p.store, meta, 0.0).0;
      assert t.remoteUnacked[|p.store.remoteUnacked|].messageId == n;
    } else {
      DuplicateIsAckedAgain(p.store, meta, 0.0);
    }
  }

  lemma StoreIsInv(regime: Regime, sent: seq<Content>, p: Peer)
    requires ReceiverInv(regime, sent, p)
    ensures StoreInv(p.store)
  {
  }

  /** An acknowledgement arrives: its message leaves the queue, and no other one comes. */
  lemma AckArrives(p: Peer, out: set<Packet>, incoming: set<Packet>, packet: Packet, id: u16)
    requires p.alive && p.store.delayed == [] && Increasing(p.store.localUnacked)
    requires packet in incoming && AcksId(packet, id)
    ensures var action := Receive(packet, MetaFor(packet), 0.0);
            && Enabled(NoWrap, p, incoming, action)
            && var (q, out') := Act(p, out, action);
            && q.alive && out' == out && q.sent == p.sent && q.delivered == p.delivered && q.store.delayed == []
            && id !in LocalIds(q.store.localUnacked) && LocalIds(q.store.localUnacked) <= LocalIds(p.store.localUnacked)
  {
    var meta := MetaFor(packet);
    hide AfterIncoming, Unacknowledged;
    AcksAlone(p.store, meta, 0.0);
    assert DistinctLocals(p.store.localUnacked);
    hide LocalIds;
    OnlyUnacknowledged(p.store.localUnacked, meta.rel.value.acks, id);
  }

  lemma {:induction false} OnlyUnacknowledged(q: seq<LocalMessage>, acks: seq<u16>, id: u16)
    requires id in acks
    ensures var r := Unacknowledged(q, acks); id !in LocalIds(r) && LocalIds(r) <= LocalIds(q)
    decreases |q|
  {
    if q != [] {
      OnlyUnacknowledged(q[1..], acks, id);
      LocalIdsCons(q);
      var r := Unacknowledged(q, acks);
      if q[0].messageId !in acks {
        assert r[1..] == Unacknowledged(q[1..], acks);
        LocalIdsCons(r);
      }
    }
  }

  lemma LocalIdsCons(q: seq<LocalMessage>)
    requires q != []
    ensures LocalIds(q) == {q[0].messageId} + LocalIds(q[1..])
  {
    forall id | id in LocalIds(q[1..])
      ensures id in LocalIds(q)
    {
      var i :| 0 <= i < |q[1..]| && q[1..][i].messageId == id;
      assert q[i + 1].messageId == id;
    }
  }

  // ---------------------------------------------------------------- the system

  /** Every reliable message that was sent is on the wire, where it may arrive again. */
  ghost predicate AllOut(p: Peer, out: set<Packet>) {
    forall n :: 1 <= n <= |p.sent| ==> IsOut(n, out)
  }

  ghost predicate IsOut(n: nat, out: set<Packet>) {
    exists packet :: packet in out && packet.number == n
  }

  lemma ActKeepsAllOut(p: Peer, out: set<Packet>, action: Action)
    requires AllOut(p, out) && (action.Receive? && action.meta.rel.Some? ==> action.meta.rel.value.Valid())
    ensures AllOut(Act(p, out, action).0, Act(p, out, action).1)
  {
    hide AfterIncoming, AfterRetransmit, AfterPush;
    var (q, out') := Act(p, out, action);
    assert out <= out';
    forall n | 1 <= n <= |q.sent|
      ensures IsOut(n, out')
    {
      if n <= |p.sent| {
        assert IsOut(n, out);
        var packet :| packet in out && packet.number == n;
        assert packet in out';
      } else {
        assert Packet(n, ReliableMessage(p, action.content)) in out';
      }
    }
  }

  /** Both ends live, and everything sent may arrive again. */
  ghost predicate Lives(y: System) {
    SystemInv(NoWrap, y) && y.a.alive && y.b.alive && AllOut(y.a, y.ab)
  }

  lemma {:induction false} RunKeepsAllOut(y: System, steps: seq<Step>)
    requires IsRun(NoWrap, y, steps) && AllOut(y.a, y.ab)
    ensures AllOut(After(NoWrap, y, steps).a, After(NoWrap, y, steps).ab)
    decreases |steps|
  {
    hide AllOut, Act, Enabled;
    if steps != [] {
      if steps[0].byA {
        EnabledMayAct(NoWrap, y.a, y.ba, steps[0].action);
        ActKeepsAllOut(y.a, y.ab, steps[0].action);
      }
      RunKeepsAllOut(Next(NoWrap, y, steps[0]), steps[1..]);
    }
  }

  /** Going on from `y` leads to `z`, with nothing new sent: the far end has accepted no less, and no more is queued. */
  ghost predicate LeadsTo(y: System, steps: seq<Step>, z: System) {
    && IsRun(NoWrap, y, steps) && After(NoWrap, y, steps) == z
    && Lives(z) && z.a.sent == y.a.sent
    && |Accepted(z.b)| >= |Accepted(y.b)| && LocalIds(z.a.store.localUnacked) <= LocalIds(y.a.store.localUnacked)
  }

  lemma LeadsOn(y: System, first: seq<Step>, z: System, more: seq<Step>, w: System)
    requires LeadsTo(y, first, z) && LeadsTo(z, more, w)
    ensures LeadsTo(y, first + more, w)
  {
    hide Lives, LocalIds, Accepted, IsRun, After;
    RunsJoin(NoWrap, y, first, more);
  }

  /** Actions of one peer, as a way on. */
  lemma PeerLeadsTo(y: System, byA: bool, actions: seq<Action>) returns (steps: seq<Step>, z: System)
    requires Lives(y)
    requires if byA then EnabledAll(NoWrap, y.a, y.ab, y.ba, actions) else EnabledAll(NoWrap, y.b, y.ba, y.ab, actions)
    requires var (q, out) := if byA then ActAll(NoWrap, y.a, y.ab, y.ba, actions)
                             else ActAll(NoWrap, y.b, y.ba, y.ab, actions);
             && q.alive
             && (if byA then q.sent == y.a.sent && LocalIds(q.store.localUnacked) <= LocalIds(y.a.store.localUnacked)
                 else |Accepted(q)| >= |Accepted(y.b)|)
    ensures LeadsTo(y, steps, z)
    ensures z == if byA then var (q, out) := ActAll(NoWrap, y.a, y.ab, y.ba, actions); System(q, y.b, out, y.ba)
                 else var (q, out) := ActAll(NoWrap, y.b, y.ba, y.ab, actions); System(y.a, q, y.ab, out)
  {
    hide SystemInv, EnabledAll, ActAll, AllOut, LocalIds, Accepted, IsRun, After;
    steps := StepsOf(byA, actions);
    ActionsAreSteps(NoWrap, y, byA, actions);
    RunKeepsInv(NoWrap, y, steps);
    RunKeepsAllOut(y, steps);
    z := After(NoWrap, y, steps);
  }

  /** Both delayed queues can be taken. */
  lemma TakeBoth(y: System) returns (steps: seq<Step>, z: System)
    requires Lives(y)
    ensures LeadsTo(y, steps, z)
    ensures z.a.store.delayed == [] && z.b.store.delayed == [] && z.b.delivered == Accepted(y.b) && z.ab == y.ab
    ensures z.a.store.localUnacked == y.a.store.localUnacked
  {
    hide SystemInv, EnabledAll, ActAll, AllOut, LocalIds, IsRun, After, LeadsTo;
    assert y.a.alive && y.b.alive;
    var takes := TakeAllDelayed(NoWrap, y.a, y.ab, y.ba);
    var first, x := PeerLeadsTo(y, true, takes);
    assert Lives(x) by { LeadsToLives(y, first, x); }
    takes := TakeAllDelayed(NoWrap, x.b, x.ba, x.ab);
    NoneDelayed(Accepted(x.b));
    var more;
    more, z := PeerLeadsTo(x, false, takes);
    LeadsOn(y, first, x, more, z);
    steps := first + more;
  }

  lemma NoneDelayed(delivered: seq<Content>)
    ensures delivered + Contents([]) == delivered
  {
  }

  lemma LeadsToLives(y: System, steps: seq<Step>, z: System)
    requires LeadsTo(y, steps, z)
    ensures Lives(z) && z.a.sent == y.a.sent && |Accepted(z.b)| >= |Accepted(y.b)|
    ensures LocalIds(z.a.store.localUnacked) <= LocalIds(y.a.store.localUnacked)
  {
  }

  lemma LivesMeans(y: System)
    requires Lives(y)
    ensures y.a.alive && y.b.alive && |y.a.sent| <= MAX_WITHOUT_WRAP && AllOut(y.a, y.ab)
    ensures ReceiverInv(NoWrap, y.a.sent, y.b) && Increasing(y.a.store.localUnacked)
    ensures forall packet :: packet in y.ab ==> PacketOk(packet, y.a.sent)
    ensures forall id :: id in LocalIds(y.a.store.localUnacked) ==> 1 <= id <= |y.a.sent|
    ensures |Accepted(y.b)| <= |y.a.sent|
  {
  }

  /**
    A message not ahead of the expected one arrives, again or for the first time: it is
    accepted by then, acknowledged, and with the acknowledgement out of the sender's queue.
   */
  lemma SettleOne(y: System, n: nat) returns (steps: seq<Step>, z: System)
    requires Lives(y) && 1 <= n <= |y.a.sent|
    requires n <= |Accepted(y.b)| + 1 && |Accepted(y.b)| + 1 - n <= 16383
    ensures LeadsTo(y, steps, z)
    ensures |Accepted(z.b)| >= n && n !in LocalIds(z.a.store.localUnacked)
  {
    hide Lives, SystemInv, EnabledAll, ActAll, Act, Enabled, LocalIds, IsRun, After, LeadsTo, AllOut, ReceiverInv,
         PacketOk, Increasing;
    var first, x := TakeBoth(y);
    LeadsToLives(y, first, x);
    LivesMeans(x);
    NoneDelayed(x.b.delivered);
    var packet := PacketOf(x.a, x.ab, n);
    ArrivesAgain(x.a.sent, x.b, x.ba, x.ab, packet);
    var receive := Receive(packet, MetaFor(packet), 0.0);
    ReceivedThenFlushed(x.b, x.ba, x.ab, receive, n);
    var flushes, acking := FlushUntil(NoWrap, Act(x.b, x.ba, receive).0, x.ba, x.ab, n);
    FirstThen(x.b, x.ba, x.ab, receive, flushes);
    var more, w := PeerLeadsTo(x, false, [receive] + flushes);
    LeadsOn(y, first, x, more, w);
    LeadsToLives(y, first + more, w);
    LivesMeans(w);
    AckArrives(w.a, w.ab, w.ba, acking, n);
    var ack := Receive(acking, MetaFor(acking), 0.0);
    OneReceive(w.a, w.ab, w.ba, ack);
    var last;
    last, z := PeerLeadsTo(w, true, [ack]);
    LeadsOn(y, first + more, w, last, z);
    steps := first + more + last;
  }

  lemma PacketOf(p: Peer, out: set<Packet>, n: nat) returns (packet: Packet)
    requires AllOut(p, out) && 1 <= n <= |p.sent|
    ensures packet in out && packet.number == n
  {
    assert IsOut(n, out);
    packet :| packet in out && packet.number == n;
  }

  lemma ReceivedThenFlushed(p: Peer, out: set<Packet>, incoming: set<Packet>, receive: Action, n: nat)
    requires Enabled(NoWrap, p, incoming, receive) && receive.Receive?
    ensures receive.meta.rel.Some? ==> receive.meta.rel.value.Valid()
  {
  }

  /** A first action and then others that change what is accepted no more. */
  lemma FirstThen(p: Peer, out: set<Packet>, incoming: set<Packet>, first: Action, flushes: seq<Action>)
    requires Enabled(NoWrap, p, incoming, first) && (first.Receive? && first.meta.rel.Some? ==> first.meta.rel.value.Valid())
    requires var (q, out') := Act(p, out, first); EnabledAll(NoWrap, q, out', incoming, flushes)
    ensures EnabledAll(NoWrap, p, out, incoming, [first] + flushes)
    ensures var (q, out') := Act(p, out, first);
            ActAll(NoWrap, p, out, incoming, [first] + flushes) == ActAll(NoWrap, q, out', incoming, flushes)
  {
    hide Act, Enabled;
    assert ([first] + flushes)[1..] == flushes;
  }

  lemma OneReceive(p: Peer, out: set<Packet>, incoming: set<Packet>, action: Action)
    requires Enabled(NoWrap, p, incoming, action)
    ensures EnabledAll(NoWrap, p, out, incoming, [action])
    ensures action.Receive? && action.meta.rel.Some? ==> action.meta.rel.value.Valid()
    ensures ActAll(NoWrap, p, out, incoming, [action]) == Act(p, out, action)
  {
    assert [action][1..] == [];
  }

  // ---------------------------------------------------------------- everything arrives

  /** One after the other, all that was sent is accepted. */
  lemma {:induction false} AcceptAll(y: System) returns (steps: seq<Step>, z: System)
    requires Lives(y)
    ensures LeadsTo(y, steps, z) && |Accepted(z.b)| == |y.a.sent|
    decreases |y.a.sent| - |Accepted(y.b)|
  {
    hide Lives, SystemInv, LocalIds, IsRun, After, LeadsTo, Accepted, ReceiverInv, AllOut;
    LivesMeans(y);
    if |Accepted(y.b)| == |y.a.sent| {
      steps, z := StayThere(y);
    } else {
      var first, x := SettleOne(y, |Accepted(y.b)| + 1);
      LeadsToLives(y, first, x);
      var more;
      more, z := AcceptAll(x);
      LeadsOn(y, first, x, more, z);
      steps := first + more;
    }
  }

  lemma StayThere(y: System) returns (steps: seq<Step>, z: System)
    requires Lives(y)
    ensures LeadsTo(y, steps, z) && z == y
  {
    hide SystemInv;
    steps, z := [], y;
  }

  /** The receiver takes messages with these ids for ones far ahead, and does not acknowledge them again. */
  ghost predicate OnlyTooOld(y: System) {
    forall id :: id in LocalIds(y.a.store.localUnacked) ==> |y.a.sent| + 1 - id > 16383
  }

  /** And then what is queued is acknowledged, one after the other. */
  lemma {:induction false} SettleAll(y: System) returns (steps: seq<Step>, z: System)
    requires Lives(y) && |Accepted(y.b)| == |y.a.sent|
    ensures LeadsTo(y, steps, z) && OnlyTooOld(z) && |Accepted(z.b)| == |y.a.sent|
    decreases LocalIds(y.a.store.localUnacked)
  {
    hide Lives, SystemInv, LocalIds, IsRun, After, LeadsTo, Accepted, ReceiverInv, AllOut;
    LivesMeans(y);
    if OnlyTooOld(y) {
      steps, z := StayThere(y);
    } else {
      var id :| id in LocalIds(y.a.store.localUnacked) && |y.a.sent| + 1 - id <= 16383;
      var first, x := SettleOne(y, id);
      LeadsToLives(y, first, x);
      LivesMeans(x);
      assert LocalIds(x.a.store.localUnacked) < LocalIds(y.a.store.localUnacked);
      var more;
      more, z := SettleAll(x);
      LeadsOn(y, first, x, more, z);
      steps := first + more;
    }
  }

  /**
    With `more` behind it the run has delivered all that was sent by then, in order, and only
    messages too old for the receiver are left to be acknowledged: of up to 16383 none.
   */
  ghost predicate FinishesWith(steps: seq<Step>, more: seq<Step>)
    requires IsRun(NoWrap, Start, steps)
  {
    && IsRun(NoWrap, Start, steps + more)
    && var y, z := After(NoWrap, Start, steps), After(NoWrap, Start, steps + more);
    && z.a.sent == y.a.sent && z.b.delivered == y.a.sent && OnlyTooOld(z)
    && (|y.a.sent| <= 16383 ==> z.a.store.localUnacked == [])
  }

  /**
    From wherever a run without id reuse has led, while both ends live, it can go on so that
    everything sent is delivered, in order, and nothing is left to be acknowledged but
    messages more than 16382 behind the last one, which the receiver takes for ones far ahead.
   */
  lemma EverythingCanArrive(steps: seq<Step>)
    requires IsRun(NoWrap, Start, steps)
    requires After(NoWrap, Start, steps).a.alive && After(NoWrap, Start, steps).b.alive
    ensures exists more :: FinishesWith(steps, more)
  {
    hide SystemInv, LocalIds, IsRun, After, LeadsTo, ReceiverInv, AllOut, OnlyTooOld;
    StartInv(NoWrap);
    RunKeepsInv(NoWrap, Start, steps);
    StartAllOut();
    RunKeepsAllOut(Start, steps);
    var y := After(NoWrap, Start, steps);
    var s1, x := AcceptAll(y);
    LeadsToLives(y, s1, x);
    LivesMeans(x);
    var s2, w := SettleAll(x);
    LeadsToLives(x, s2, w);
    var s3, z := TakeBoth(w);
    LeadsOn(y, s1, x, s2, w);
    LeadsOn(y, s1 + s2, w, s3, z);
    LeadsToLives(w, s3, z);
    LeadsToLives(y, s1 + s2 + s3, z);
    LivesMeans(z);
    var more := s1 + s2 + s3;
    RunsJoin(NoWrap, Start, steps, more) by { LeadsToIsRun(y, more, z); }
    LeadsToIsRun(y, more, z);
    assert z.b.delivered == Accepted(w.b);
    AllDelivered(z);
    LeftTooOld(w, z);
    assert FinishesWith(steps, more);
  }

  lemma LeadsToIsRun(y: System, steps: seq<Step>, z: System)
    requires LeadsTo(y, steps, z)
    ensures IsRun(NoWrap, y, steps) && After(NoWrap, y, steps) == z
  {
  }

  lemma StartAllOut()
    ensures AllOut(Start.a, Start.ab)
  {
  }

  lemma AllDelivered(z: System)
    requires ReceiverInv(NoWrap, z.a.sent, z.b) && |z.b.delivered| == |z.a.sent|
    ensures z.b.delivered == z.a.sent
  {
  }

  lemma LeftTooOld(w: System, z: System)
    requires OnlyTooOld(w) && z.a.sent == w.a.sent && z.a.store.localUnacked == w.a.store.localUnacked
    requires forall id :: id in LocalIds(z.a.store.localUnacked) ==> 1 <= id <= |z.a.sent|
    ensures OnlyTooOld(z) && (|z.a.sent| <= 16383 ==> z.a.store.localUnacked == [])
  {
    if z.a.store.localUnacked != [] {
      assert z.a.store.localUnacked[0].messageId in LocalIds(z.a.store.localUnacked);
    }
  }
}
