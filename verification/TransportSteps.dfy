/**
  The run theorems of `ReliableDelivery` are about the actions of a peer. Here they are tied
  to the transport: what each of its methods does to the store is what those actions do.
 */
module TransportSteps {
  import opened Wrappers
  import opened Bytes
  import opened MessageTypes
  import opened SequenceNumbers
  import opened Reliability
  import opened ReliabilityProofs
  import opened FragmentStores
  import opened Compression
  import opened UdpTransports
  import opened ReliableDelivery

  /** `SendData` is the action of sending reliably or unreliably: same store, same packet, same end on failure. */
  lemma SendIsAction(p: Peer, out: set<Packet>, content: DataMessage, reliable: bool, now: Time, s': StoreState,
                     r: Result<(), TransportError>, msg: DataMessage)
    requires SendsData(p.store, reliable, now, s', r, msg) && msg.data == content.data && msg.comp == content.comp
    requires p.store.nextLocalId != 0
    ensures var (q, out') := Act(p, out, if reliable then SendReliable(ContentOfMessage(content), now)
                                         else SendUnreliable(ContentOfMessage(content)));
            && q.store == s' && q.alive == (r.Ok? && (reliable || p.alive))
            && out' == out + {Packet(if reliable then |p.sent| + 1 else 0, msg)}
            && q.sent == (if reliable then p.sent + [ContentOfMessage(content)] else p.sent)
  {
  }

  // ---------------------------------------------------------------- the timer

  /** The actions of one peer, one after the other, while nothing new comes in. */
  ghost predicate EnabledAll(regime: Regime, p: Peer, out: set<Packet>, incoming: set<Packet>, actions: seq<Action>)
    decreases |actions|
  {
    actions == [] ||
    (Enabled(regime, p, incoming, actions[0])
     && var (q, out') := Act(p, out, actions[0]); EnabledAll(regime, q, out', incoming, actions[1..]))
  }

  ghost function ActAll(regime: Regime, p: Peer, out: set<Packet>, incoming: set<Packet>,
                        actions: seq<Action>): (Peer, set<Packet>)
    requires EnabledAll(regime, p, out, incoming, actions)
    decreases |actions|
  {
    if actions == [] then (p, out)
    else
      var (q, out') := Act(p, out, actions[0]);
      ActAll(regime, q, out', incoming, actions[1..])
  }

  /** The packets of messages, each under its number. */
  function PacketsOf(numbers: seq<nat>, msgs: seq<DataMessage>): (packets: seq<Packet>)
    requires |numbers| == |msgs|
    ensures |packets| == |msgs|
    ensures forall i :: 0 <= i < |msgs| ==> packets[i] == Packet(numbers[i], msgs[i])
  {
    seq(|msgs|, i requires 0 <= i < |msgs| => Packet(numbers[i], msgs[i]))
  }

  ghost function SetOf(packets: seq<Packet>): set<Packet> {
    set i | 0 <= i < |packets| :: packets[i]
  }

  /** Each message carries the reliable message of its number, if that is not 0, and else none. */
  ghost predicate AreNumbered(msgs: seq<DataMessage>, numbers: seq<nat>, sent: seq<Content>) {
    && |numbers| == |msgs|
    && forall i :: 0 <= i < |msgs| ==> IsNumbered(msgs[i], numbers[i], sent)
  }

  predicate IsNumbered(msg: DataMessage, n: nat, sent: seq<Content>) {
    if msg.rel.Some? && msg.rel.value.messageId != 0 then CarriesNumber(msg, n, sent) else n == 0
  }

  /** A retransmission is of a message sent, so its id is not zero. */
  lemma ResentIsReliable(regime: Regime, p: Peer, out: set<Packet>, now: Time)
    requires SenderInv(regime, p, out) && p.alive
    ensures var r := AfterRetransmit(p.store, now).1;
            r.Ok? && r.value.Resend? ==>
              && r.value.msg.rel.Some? && r.value.msg.rel.value.messageId != 0
              && exists n :: CarriesNumber(r.value.msg, n, p.sent)
  {
    hide SenderInv, AfterRetransmit;
    RetransmissionHasNumber(regime, p, out, {}, now);
    var n :| Enabled(regime, p, {}, Retransmit(n, now));
  }

  /** The retransmission loop is a run of retransmissions, one for each reading of the clock. */
  lemma {:induction false} ResendsAreActions(regime: Regime, p: Peer, out: set<Packet>, incoming: set<Packet>,
                                             clock: nat -> Time, k: nat, numbers: seq<nat>) returns (actions: seq<Action>)
    requires SenderInv(regime, p, out) && p.alive && AreNumbered(ResendAll(p.store, clock, k).msgs, numbers, p.sent)
    ensures forall i :: 0 <= i < |actions| ==> actions[i].Retransmit?
    ensures EnabledAll(regime, p, out, incoming, actions)
    ensures var r := ResendAll(p.store, clock, k);
            && ActAll(regime, p, out, incoming, actions)
               == (p.(store := r.store, alive := r.result.Ok?), out + SetOf(PacketsOf(numbers, r.msgs)))
            && |actions| == r.readings - k
    decreases Budget(p.store.localUnacked)
  {
    hide SenderInv, AfterRetransmit, Act, Enabled, AreNumbered, SetOf, PacketsOf, EnabledAll, ActAll;
    var (t, r) := AfterRetransmit(p.store, clock(k));
    RetransmissionLowersBudget(p.store, clock(k));
    if r.Ok? && r.value.Resend? {
      var msg, msgs := r.value.msg, ResendAll(p.store, clock, k).msgs;
      assert msgs == [msg] + ResendAll(t, clock, k + 1).msgs && msgs[1..] == ResendAll(t, clock, k + 1).msgs;
      OtherNumbers(msgs, numbers, p.sent);
      var action := Retransmit(numbers[0], clock(k));
      ResentEffect(regime, p, out, incoming, numbers[0], clock(k));
      var q, out' := p.(store := t), out + {Packet(numbers[0], msg)};
      ActKeepsSender(regime, p, incoming, out, action);
      var rest := ResendsAreActions(regime, q, out', incoming, clock, k + 1, numbers[1..]);
      FirstAction(regime, p, out, incoming, action, rest);
      actions := [action] + rest;
      FirstPacket(numbers, msgs);
      Joins(out, {Packet(numbers[0], msg)}, SetOf(PacketsOf(numbers[1..], msgs[1..])));
    } else {
      actions := [Retransmit(0, clock(k))];
      NothingResent(regime, p, out, incoming, clock(k));
      assert numbers == [] by { NoNumbers(numbers, p.sent); }
      NonePut(out);
    }
  }

  lemma NoNumbers(numbers: seq<nat>, sent: seq<Content>)
    requires AreNumbered([], numbers, sent)
    ensures numbers == []
  {
  }

  lemma NonePut(out: set<Packet>)
    ensures out + SetOf(PacketsOf([], [])) == out
  {
  }

  lemma FirstAction(regime: Regime, p: Peer, out: set<Packet>, incoming: set<Packet>, action: Action, rest: seq<Action>)
    requires Enabled(regime, p, incoming, action) && !action.Receive?
    requires var (q, out') := Act(p, out, action); EnabledAll(regime, q, out', incoming, rest)
    ensures EnabledAll(regime, p, out, incoming, [action] + rest)
    ensures var (q, out') := Act(p, out, action);
            ActAll(regime, p, out, incoming, [action] + rest) == ActAll(regime, q, out', incoming, rest)
  {
    hide Act, Enabled;
    assert ([action] + rest)[1..] == rest;
  }

  /** Resending one message, under its number. */
  lemma ResentEffect(regime: Regime, p: Peer, out: set<Packet>, incoming: set<Packet>, n: nat, now: Time)
    requires SenderInv(regime, p, out) && p.alive
    requires var (t, r) := AfterRetransmit(p.store, now);
             r.Ok? && r.value.Resend? && IsNumbered(r.value.msg, n, p.sent)
    ensures var (t, r) := AfterRetransmit(p.store, now);
            && Enabled(regime, p, incoming, Retransmit(n, now))
            && Act(p, out, Retransmit(n, now)) == (p.(store := t), out + {Packet(n, r.value.msg)})
  {
    ResentIsReliable(regime, p, out, now);
    hide SenderInv, AfterRetransmit;
  }

  lemma NothingResent(regime: Regime, p: Peer, out: set<Packet>, incoming: set<Packet>, now: Time)
    requires p.alive && !(AfterRetransmit(p.store, now).1.Ok? && AfterRetransmit(p.store, now).1.value.Resend?)
    ensures var (s, r) := AfterRetransmit(p.store, now);
            && EnabledAll(regime, p, out, incoming, [Retransmit(0, now)])
            && ActAll(regime, p, out, incoming, [Retransmit(0, now)]) == (p.(store := s, alive := r.Ok?), out)
  {
    UnchangedUnlessResent(p, out, 0, now);
    hide AfterRetransmit;
    var action := Retransmit(0, now);
    assert [action][1..] == [];
  }

  lemma Joins(a: set<Packet>, b: set<Packet>, c: set<Packet>)
    ensures (a + b) + c == a + (b + c)
  {
  }

  lemma OtherNumbers(msgs: seq<DataMessage>, numbers: seq<nat>, sent: seq<Content>)
    requires AreNumbered(msgs, numbers, sent) && msgs != []
    ensures |numbers| == |msgs| && IsNumbered(msgs[0], numbers[0], sent) && AreNumbered(msgs[1..], numbers[1..], sent)
  {
    hide IsNumbered;
  }

  lemma FirstPacket(numbers: seq<nat>, msgs: seq<DataMessage>)
    requires |numbers| == |msgs| && msgs != []
    ensures SetOf(PacketsOf(numbers, msgs)) == {Packet(numbers[0], msgs[0])} + SetOf(PacketsOf(numbers[1..], msgs[1..]))
  {
    var all, rest := PacketsOf(numbers, msgs), PacketsOf(numbers[1..], msgs[1..]);
    assert all == [Packet(numbers[0], msgs[0])] + rest;
    FirstOfSet(all[0], rest);
  }

  lemma FirstOfSet(first: Packet, rest: seq<Packet>)
    ensures SetOf([first] + rest) == {first} + SetOf(rest)
  {
    var all := [first] + rest;
    forall packet
      ensures packet in SetOf(all) <==> packet in {first} + SetOf(rest)
    {
      if packet in SetOf(rest) {
        var i :| 0 <= i < |rest| && rest[i] == packet;
        assert all[i + 1] == packet;
      }
      assert all[0] == first;
    }
  }

  /** All that is resent can be numbered, so no run is cut short for want of numbers. */
  lemma {:induction false} ResendsHaveNumbers(regime: Regime, p: Peer, out: set<Packet>, clock: nat -> Time, k: nat)
    returns (numbers: seq<nat>)
    requires SenderInv(regime, p, out) && p.alive
    ensures AreNumbered(ResendAll(p.store, clock, k).msgs, numbers, p.sent)
    decreases Budget(p.store.localUnacked)
  {
    hide SenderInv;
    var r := AfterRetransmit(p.store, clock(k)).1;
    ResentIsReliable(regime, p, out, clock(k));
    RetransmissionLowersBudget(p.store, clock(k));
    if r.Ok? && r.value.Resend? {
      var n :| CarriesNumber(r.value.msg, n, p.sent);
      var action := Retransmit(n, clock(k));
      var (q, out') := Act(p, out, action);
      assert Enabled(regime, p, {}, action);
      ActKeepsSender(regime, p, {}, out, action);
      var rest := ResendsHaveNumbers(regime, q, out', clock, k + 1);
      numbers := [n] + rest;
    } else {
      numbers := [];
    }
  }

  lemma UnchangedUnlessResent(p: Peer, out: set<Packet>, n: nat, now: Time)
    requires p.alive && !(AfterRetransmit(p.store, now).1.Ok? && AfterRetransmit(p.store, now).1.value.Resend?)
    ensures var (s, r) := AfterRetransmit(p.store, now);
            Act(p, out, Retransmit(n, now)) == (p.(store := s, alive := r.Ok?), out)
  {
  }

  /** `HandleTimerExpiry` is that run and, if acks are urgent, the action of sending them alone, with these packets. */
  lemma TimerIsActions(regime: Regime, p: Peer, out: set<Packet>, incoming: set<Packet>, clock: nat -> Time,
                       s': StoreState, r: Result<(), TransportError>, sent: seq<DataMessage>, numbers: seq<nat>)
    returns (actions: seq<Action>)
    requires SenderInv(regime, p, out) && p.alive && HandlesTimer(p.store, clock, s', r, sent)
    requires AreNumbered(sent, numbers, p.sent)
    ensures forall i :: 0 <= i < |actions| ==> actions[i].Retransmit? || actions[i].FlushAcks?
    ensures EnabledAll(regime, p, out, incoming, actions)
    ensures ActAll(regime, p, out, incoming, actions)
            == (p.(store := s', alive := r.Ok?), out + SetOf(PacketsOf(numbers, sent)))
  {
    hide SenderInv, ResendAll, Act;
    var resends := ResendAll(p.store, clock, 0);
    if resends.result.Ok? && HasUrgentAcks(resends.store, clock(resends.readings)) {
      var k := |resends.msgs|;
      assert sent[..k] == resends.msgs && sent == resends.msgs + [sent[k]] && numbers == numbers[..k] + [numbers[k]];
      FirstNumbers(sent, numbers, p.sent, k);
      actions := ResendsAreActions(regime, p, out, incoming, clock, 0, numbers[..k]);
      var (q, out') := ActAll(regime, p, out, incoming, actions);
      FlushSendsAcks(q, out', clock(resends.readings));
      assert IsNumbered(sent[k], numbers[k], p.sent);
      LastPacket(numbers, sent);
      OneMoreAction(regime, p, out, incoming, actions, FlushAcks);
      actions := actions + [FlushAcks];
      assert out' + {Packet(0, sent[k])} == out + SetOf(PacketsOf(numbers, sent));
    } else {
      actions := ResendsAreActions(regime, p, out, incoming, clock, 0, numbers);
    }
  }

  lemma FirstNumbers(msgs: seq<DataMessage>, numbers: seq<nat>, sent: seq<Content>, k: nat)
    requires AreNumbered(msgs, numbers, sent) && k <= |msgs|
    ensures AreNumbered(msgs[..k], numbers[..k], sent)
  {
    hide IsNumbered;
  }

  lemma LastPacket(numbers: seq<nat>, msgs: seq<DataMessage>)
    requires |numbers| == |msgs| && msgs != []
    ensures var k := |msgs| - 1;
            SetOf(PacketsOf(numbers, msgs)) == SetOf(PacketsOf(numbers[..k], msgs[..k])) + {Packet(numbers[k], msgs[k])}
  {
    var k := |msgs| - 1;
    var all, front := PacketsOf(numbers, msgs), PacketsOf(numbers[..k], msgs[..k]);
    assert all == front + [Packet(numbers[k], msgs[k])];
    LastOfSet(front, all[k]);
  }

  lemma LastOfSet(front: seq<Packet>, last: Packet)
    ensures SetOf(front + [last]) == SetOf(front) + {last}
  {
    var all := front + [last];
    forall packet
      ensures packet in SetOf(all) <==> packet in SetOf(front) + {last}
    {
      if packet in SetOf(front) {
        var i :| 0 <= i < |front| && front[i] == packet;
        assert all[i] == packet;
      }
      assert all[|front|] == last;
    }
  }

  /** What the timer handler sends can be numbered. */
  lemma TimerHasNumbers(regime: Regime, p: Peer, out: set<Packet>, clock: nat -> Time,
                        s': StoreState, r: Result<(), TransportError>, sent: seq<DataMessage>) returns (numbers: seq<nat>)
    requires SenderInv(regime, p, out) && p.alive && HandlesTimer(p.store, clock, s', r, sent)
    ensures AreNumbered(sent, numbers, p.sent)
  {
    hide SenderInv, ResendAll;
    var resends := ResendAll(p.store, clock, 0);
    numbers := ResendsHaveNumbers(regime, p, out, clock, 0);
    if resends.result.Ok? && HasUrgentAcks(resends.store, clock(resends.readings)) {
      numbers := numbers + [0];
    }
  }

  lemma FlushSendsAcks(q: Peer, out: set<Packet>, now: Time)
    requires HasUrgentAcks(q.store, now)
    ensures var (s, rel) := AfterTakingAcks(q.store, 0);
            && q.store.remoteUnacked != []
            && Act(q, out, FlushAcks) == (q.(store := s), out + {Packet(0, DataMessage([], None, Some(rel)))})
  {
    var i :| 0 <= i < |q.store.remoteUnacked| && AckDue(q.store, i, now);
  }

  lemma {:induction false} OneMoreAction(regime: Regime, p: Peer, out: set<Packet>, incoming: set<Packet>,
                                         actions: seq<Action>, last: Action)
    requires EnabledAll(regime, p, out, incoming, actions)
    requires Enabled(regime, ActAll(regime, p, out, incoming, actions).0, incoming, last)
    ensures EnabledAll(regime, p, out, incoming, actions + [last])
    ensures var (q, out') := ActAll(regime, p, out, incoming, actions);
            ActAll(regime, p, out, incoming, actions + [last]) == Act(q, out', last)
    decreases |actions|
  {
    hide Act, Enabled;
    var all := actions + [last];
    if actions == [] {
      assert all[0] == last && all[1..] == [];
    } else {
      EnabledMayAct(regime, p, incoming, actions[0]);
      var (q, out') := Act(p, out, actions[0]);
      OneMoreAction(regime, q, out', incoming, actions[1..], last);
      assert all[0] == actions[0] && all[1..] == actions[1..] + [last];
    }
  }

  lemma EnabledMayAct(regime: Regime, p: Peer, incoming: set<Packet>, action: Action)
    requires Enabled(regime, p, incoming, action)
    ensures action.Receive? && action.meta.rel.Some? ==> action.meta.rel.value.Valid()
  {
  }

  // ---------------------------------------------------------------- receiving

  /**
    A data message, whole from the start or reassembled, is processed as the action of
    receiving it does: same store, and the application gets the unpacked message exactly when
    the action delivers one, or when the message has no reliable id.
   */
  lemma DataIsAction(codec: Codec, limit: nat, p: Peer, out: set<Packet>, packet: Packet, meta: MessageMeta, now: Time,
                     s': StoreState, result: Outcome)
    requires Carries(meta, packet.msg) && (meta.rel.Some? ==> meta.rel.value.Valid()) && p.alive
    requires (s', result) == ProcessedData(codec, limit, p.store, meta, now)
    ensures var (q, out') := Act(p, out, Receive(packet, meta, now));
            && q.store == s' && out' == out && q.sent == p.sent
            && q.delivered == p.delivered + (if IsAccepted(p.store, meta, now) then [ContentOf(meta)] else [])
            && result == (if !q.alive then Err(TooUnreliable)
                          else if IdOf(meta) == 0 || IsAccepted(p.store, meta, now) then FinalMessage(codec, limit, meta)
                          else Ok(None))
  {
    hide FinalMessage;
    RefusalIsOnlyError(p.store, meta, now);
    hide AfterIncoming;
    assert p.delivered + [] == p.delivered;
  }

  /** Reading a datagram with one data message is the action of receiving it. */
  lemma ReceiveIsAction(codec: Codec, limit: nat, p: Peer, out: set<Packet>, packet: Packet, meta: MessageMeta,
                        now: Time,
                        m: Messages, s': StoreState, m': Messages, pending: seq<Received>, result: Outcome)
    requires meta.typ == MSG_DATA && Carries(meta, packet.msg) && (meta.rel.Some? ==> meta.rel.value.Valid()) && p.alive
    requires ReadsTo(codec, limit, p.store, m, [Ok(meta)], now, s', m', pending, result)
    ensures var (q, out') := Act(p, out, Receive(packet, meta, now));
            && q.store == s' && m' == m && out' == out && pending == [] && q.sent == p.sent
            && q.delivered == p.delivered + (if IsAccepted(p.store, meta, now) then [ContentOf(meta)] else [])
            && result == (if !q.alive then Err(TooUnreliable)
                          else if IdOf(meta) == 0 || IsAccepted(p.store, meta, now) then FinalMessage(codec, limit, meta)
                          else Ok(None))
  {
    hide ReadsTo, ProcessedData, FinalMessage, Act;
    OneMessageIsProcessed(codec, limit, p.store, m, meta, now, s', m', pending, result);
    DataIsAction(codec, limit, p, out, packet, meta, now, s', result);
  }

  lemma OneMessageIsProcessed(codec: Codec, limit: nat, s: StoreState, m: Messages, meta: MessageMeta, now: Time,
                              s': StoreState, m': Messages, pending: seq<Received>, result: Outcome)
    requires meta.typ == MSG_DATA && meta.frag == None && RelOk(meta)
    requires ReadsTo(codec, limit, s, m, [Ok(meta)], now, s', m', pending, result)
    ensures m' == m && pending == [] && (s', result) == ProcessedData(codec, limit, s, meta, now)
  {
    var items: seq<ReadItem> := [Ok(meta)];
    assert ResolveAll(items) == [DataArrived(meta)];
    OnlyProcessed(codec, limit, s, DataArrived(meta), now);
    hide ReadsTo, ProcessedAll, ProcessedData;
    ReadsWithoutFragments(codec, limit, s, m, items, now, s', m', pending, result);
  }

  lemma RefusalIsOnlyError(s: StoreState, meta: MessageMeta, now: Time)
    requires meta.rel.Some? ==> meta.rel.value.Complete()
    ensures meta.rel.Some? ==>
      var r := AfterIncoming(s, meta, now).1;
      (r == Err(TooUnreliable) || r == Ok(true) || r == Ok(false)) && (IdOf(meta) == 0 ==> r == Ok(true))
  {
    hide Restore, AckAgain, AckAll;
  }

  predicate IsAccepted(s: StoreState, meta: MessageMeta, now: Time)
    requires meta.rel.Some? ==> meta.rel.value.Complete()
  {
    meta.rel.Some? && IdOf(meta) != 0 && AfterIncoming(s, meta, now).1 == Ok(true)
  }

  /** Taking a delayed message is the action of that name. */
  lemma DelayedIsAction(p: Peer, out: set<Packet>)
    requires p.store.delayed != []
    ensures var (q, out') := Act(p, out, TakeDelayed);
            && q.store == PopDelayed(p.store).0 && out' == out
            && q.delivered == p.delivered + [ContentOf(p.store.delayed[0])]
  {
  }

  // ---------------------------------------------------------------- actions as steps of the system

  function StepsOf(byA: bool, actions: seq<Action>): (steps: seq<Step>)
    ensures |steps| == |actions| && forall i :: 0 <= i < |actions| ==> steps[i] == Step(byA, actions[i])
  {
    seq(|actions|, i requires 0 <= i < |actions| => Step(byA, actions[i]))
  }

  /** The actions of one peer are steps of the system. */
  lemma {:induction false} ActionsAreSteps(regime: Regime, y: System, byA: bool, actions: seq<Action>)
    requires if byA then EnabledAll(regime, y.a, y.ab, y.ba, actions) else EnabledAll(regime, y.b, y.ba, y.ab, actions)
    ensures IsRun(regime, y, StepsOf(byA, actions))
    ensures After(regime, y, StepsOf(byA, actions))
            == if byA then var (p, out) := ActAll(regime, y.a, y.ab, y.ba, actions); System(p, y.b, out, y.ba)
               else var (p, out) := ActAll(regime, y.b, y.ba, y.ab, actions); System(y.a, p, y.ab, out)
    decreases |actions|
  {
    hide Act, Enabled;
    var steps := StepsOf(byA, actions);
    if actions != [] {
      assert CanStep(regime, y, steps[0]);
      if byA { EnabledMayAct(regime, y.a, y.ba, actions[0]); } else { EnabledMayAct(regime, y.b, y.ab, actions[0]); }
      var z := Next(regime, y, steps[0]);
      ActionsAreSteps(regime, z, byA, actions[1..]);
      assert steps[1..] == StepsOf(byA, actions[1..]);
    }
  }

  lemma {:induction false} RunsJoin(regime: Regime, y: System, first: seq<Step>, more: seq<Step>)
    requires IsRun(regime, y, first) && IsRun(regime, After(regime, y, first), more)
    ensures IsRun(regime, y, first + more)
    ensures After(regime, y, first + more) == After(regime, After(regime, y, first), more)
    decreases |first|
  {
    hide CanStep, Next;
    if first == [] {
      assert first + more == more;
    } else {
      assert (first + more)[0] == first[0] && (first + more)[1..] == first[1..] + more;
      RunsJoin(regime, Next(regime, y, first[0]), first[1..], more);
    }
  }

  lemma EmptyRun(regime: Regime)
    ensures IsRun(regime, Start, []) && After(regime, Start, []) == Start
  {
  }
}
