/** Statistics of packets and of acknowledgements. */
module StatTrackers {
  import opened Wrappers
  import opened Bytes
  import opened MessageTypes
  import opened Reliability

  // ---------------------------------------------------------------- packet sizes

  datatype PacketRecord = PacketRecord(timestamp: Time, size: nat, up: bool)

  /** Counters of one direction; no size seen yet is None. */
  datatype Sizes = Sizes(count: nat, total: nat, min: Option<nat>, max: nat)

  function SizesOf(packets: seq<PacketRecord>, up: bool): seq<nat> {
    if packets == [] then []
    else
      var last := packets[|packets| - 1];
      SizesOf(packets[..|packets| - 1], up) + if last.up == up then [last.size] else []
  }

  function Sum(s: seq<nat>): nat {
    if s == [] then 0 else Sum(s[..|s| - 1]) + s[|s| - 1]
  }

  predicate IsMin(s: seq<nat>, m: nat) {
    m in s && forall x :: x in s ==> m <= x
  }

  predicate IsMax(s: seq<nat>, m: nat) {
    m in s && forall x :: x in s ==> x <= m
  }

  lemma SizesAppend(packets: seq<PacketRecord>, p: PacketRecord, up: bool)
    ensures SizesOf(packets + [p], up) == SizesOf(packets, up) + if p.up == up then [p.size] else []
  {
    assert (packets + [p])[..|packets|] == packets;
  }

  lemma SumAppend(s: seq<nat>, x: nat)
    ensures Sum(s + [x]) == Sum(s) + x
  {
    assert (s + [x])[..|s|] == s;
  }

  /**
    What the counters hold for the sizes `s`. The maximum only looks at packets that did not
    set a new minimum, so it may miss the first one.
   */
  ghost predicate Summarizes(z: Sizes, s: seq<nat>) {
    && z.count == |s| && z.total == Sum(s)
    && (z.min == None <==> s == [])
    && (s != [] ==> IsMin(s, z.min.value))
    && (forall k :: 1 <= k < |s| ==> s[k] <= z.max || s[k] < s[0])
    && (z.max == 0 || exists k :: 1 <= k < |s| && s[k] == z.max)
  }

  function Counted(z: Sizes, size: nat): Sizes {
    var lower := z.min == None || size < z.min.value;
    Sizes(z.count + 1, z.total + size,
          if lower then Some(size) else z.min,
          if !lower && size > z.max then size else z.max)
  }

  lemma CountedSummarizes(z: Sizes, s: seq<nat>, size: nat)
    requires Summarizes(z, s)
    ensures Summarizes(Counted(z, size), s + [size])
  {
    var t := s + [size];
    SumAppend(s, size);
    assert t[|s|] == size;
    assert forall x :: x in t <==> x in s || x == size;
    assert forall k :: 0 <= k < |s| ==> t[k] == s[k];
  }

  /** Counts packets by direction, with sums and extreme sizes. */
  method SummarizePackets(packets: seq<PacketRecord>) returns (up: Sizes, down: Sizes)
    ensures Summarizes(up, SizesOf(packets, true)) && Summarizes(down, SizesOf(packets, false))
  {
    up, down := Sizes(0, 0, None, 0), Sizes(0, 0, None, 0);
    assert Summarizes(up, SizesOf([], true)) && Summarizes(down, SizesOf([], false));
    hide Summarizes, SizesOf, Counted;
    for i := 0 to |packets|
      invariant Summarizes(up, SizesOf(packets[..i], true)) && Summarizes(down, SizesOf(packets[..i], false))
    {
      var p := packets[i];
      assert packets[..i + 1] == packets[..i] + [p];
      SizesAppend(packets[..i], p, true);
      SizesAppend(packets[..i], p, false);
      if p.up {
        CountedSummarizes(up, SizesOf(packets[..i], true), p.size);
        up := Counted(up, p.size);
        assert SizesOf(packets[..i + 1], false) == SizesOf(packets[..i], false);
      } else {
        CountedSummarizes(down, SizesOf(packets[..i], false), p.size);
        down := Counted(down, p.size);
        assert SizesOf(packets[..i + 1], true) == SizesOf(packets[..i], true);
      }
    }
    assert packets[..|packets|] == packets;
  }

  /** The reported maximum is the true one exactly when the largest size occurs after the first packet, or is zero. */
  lemma MaximumIsRightIff(z: Sizes, s: seq<nat>, largest: nat)
    requires Summarizes(z, s) && IsMax(s, largest)
    ensures z.max == largest <==> largest == 0 || largest in s[1..]
  {
    if largest in s[1..] {
      var k :| 0 <= k < |s[1..]| && s[1..][k] == largest;
      assert s[k + 1] == largest && s[0] in s;
    }
    if z.max != 0 {
      var k :| 1 <= k < |s| && s[k] == z.max;
      assert s[1..][k - 1] == z.max && s[k] in s;
    }
  }

  /** Every packet counts once, in one of the two directions, with its size. */
  lemma {:induction false} EveryPacketCounts(packets: seq<PacketRecord>)
    ensures |SizesOf(packets, true)| + |SizesOf(packets, false)| == |packets|
    ensures Sum(SizesOf(packets, true)) + Sum(SizesOf(packets, false)) == TotalOf(packets)
    decreases |packets|
  {
    if packets != [] {
      var init, last := packets[..|packets| - 1], packets[|packets| - 1];
      EveryPacketCounts(init);
      SumAppend(SizesOf(init, last.up), last.size);
      assert SizesOf(init, !last.up) + [] == SizesOf(init, !last.up);
    }
  }

  /** The sizes of a direction are those of its packets. */
  lemma {:induction false} SizesTell(packets: seq<PacketRecord>, up: bool, size: nat)
    ensures size in SizesOf(packets, up) <==> exists i :: 0 <= i < |packets| && packets[i].up == up && packets[i].size == size
    decreases |packets|
  {
    if packets != [] {
      var init, last := packets[..|packets| - 1], packets[|packets| - 1];
      SizesTell(init, up, size);
      assert size in SizesOf(packets, up) <==> size in SizesOf(init, up) || (last.up == up && last.size == size);
    }
  }

  function TotalOf(packets: seq<PacketRecord>): nat {
    if packets == [] then 0 else packets[|packets| - 1].size + TotalOf(packets[..|packets| - 1])
  }

  // ---------------------------------------------------------------- the window

  ghost predicate Sorted(times: seq<Time>) {
    forall i, j :: 0 <= i < j < |times| ==> times[i] <= times[j]
  }

  /** Where the entries of the last `period` begin, found from the end; a zero period takes all. */
  method WindowStart(times: seq<Time>, now: Time, period: real) returns (start: nat)
    ensures start <= |times|
    ensures period == 0.0 ==> start == 0
    ensures period != 0.0 ==> forall i :: start <= i < |times| ==> Elapsed(times[i], now) <= period
    ensures period != 0.0 && start > 0 ==> Elapsed(times[start - 1], now) > period
  {
    if period == 0.0 {
      return 0;
    }
    start := |times|;
    while start != 0
      invariant start <= |times|
      invariant forall i :: start <= i < |times| ==> Elapsed(times[i], now) <= period
    {
      start := start - 1;
      if Elapsed(times[start], now) > period {
        start := start + 1;
        break;
      }
    }
  }

  /** Entries being recorded in order of time, the window is exactly the entries of the period. */
  lemma WindowIsPeriod(times: seq<Time>, now: Time, period: real, start: nat, i: nat)
    requires Sorted(times) && start <= |times| && i < |times|
    requires forall k :: start <= k < |times| ==> Elapsed(times[k], now) <= period
    requires start > 0 ==> Elapsed(times[start - 1], now) > period
    ensures start <= i <==> Elapsed(times[i], now) <= period
  {
    if i < start {
      assert times[i] <= times[start - 1];
    }
  }

  // ---------------------------------------------------------------- acknowledgements

  datatype Message = Message(timestamp: Time, up: bool, rel: Option<ReliabilityHeader>)

  /** Counts of reliable messages, and how long their acknowledgement took. */
  datatype RelStats = RelStats(
    upRetransmissions: nat,
    downUnknownAcks: nat,
    upUnacked: nat,
    acknowledged: nat,
    minAckDelay: real,
    maxAckDelay: real,
    avgAckDelay: real)

  /** For each id the times of its first send and of its first acknowledgement. */
  type Times = map<u16, (Option<Time>, Option<Time>)>

  predicate IsSend(m: Message) {
    m.rel.Some? && m.up && m.rel.value.messageId != 0
  }

  function SendCount(messages: seq<Message>): nat {
    if messages == [] then 0
    else SendCount(messages[..|messages| - 1]) + if IsSend(messages[|messages| - 1]) then 1 else 0
  }

  /** Ids sent, counting repeated sends once. */
  function SentIds(messages: seq<Message>): set<u16> {
    set m | m in messages && IsSend(m) :: m.rel.value.messageId
  }

  function IdSet(ids: seq<u16>): set<u16> {
    set a | a in ids
  }

  lemma IdSetAppend(ids: seq<u16>, id: u16)
    ensures IdSet(ids + [id]) == IdSet(ids) + {id}
  {
  }

  function AcksOf(m: Message): set<u16> {
    if m.rel.Some? && !m.up then IdSet(m.rel.value.acks) else {}
  }

  function AckedIds(messages: seq<Message>): set<u16> {
    set m, a | m in messages && a in AcksOf(m) :: a
  }

  lemma IdsAppend(messages: seq<Message>, m: Message)
    ensures SentIds(messages + [m]) == SentIds(messages) + if IsSend(m) then {m.rel.value.messageId} else {}
    ensures AckedIds(messages + [m]) == AckedIds(messages) + AcksOf(m)
    ensures SendCount(messages + [m]) == SendCount(messages) + if IsSend(m) then 1 else 0
  {
    var t := messages + [m];
    assert t[..|t| - 1] == messages;
    assert forall x :: x in t <==> x in messages || x == m;
  }

  /** Ids count as sent in messages to the server, and as acknowledged in the acks of messages from it; zero is no id. */
  lemma IdsTell(messages: seq<Message>, id: u16)
    ensures id in SentIds(messages)
            <==> id != 0 && exists i :: 0 <= i < |messages| && messages[i].up && messages[i].rel.Some?
                                        && messages[i].rel.value.messageId == id
    ensures id in AckedIds(messages)
            <==> exists i :: 0 <= i < |messages| && !messages[i].up && messages[i].rel.Some? && id in messages[i].rel.value.acks
  {
    if id in SentIds(messages) {
      var m :| m in messages && IsSend(m) && m.rel.value.messageId == id;
      var i :| 0 <= i < |messages| && messages[i] == m;
    }
    if id in AckedIds(messages) {
      var m :| m in messages && id in AcksOf(m);
      var i :| 0 <= i < |messages| && messages[i] == m;
    }
    if i :| 0 <= i < |messages| && !messages[i].up && messages[i].rel.Some? && id in messages[i].rel.value.acks {
      assert messages[i] in messages && id in AcksOf(messages[i]);
    }
    if i :| 0 <= i < |messages| && messages[i].up && messages[i].rel.Some? && messages[i].rel.value.messageId == id && id != 0 {
      assert messages[i] in messages && IsSend(messages[i]);
    }
  }

  // ---------------------------------------------------------------- first sends and first acks

  /** Whether a message is a send of `id`, or acknowledges it. */
  predicate Mentions(m: Message, id: u16, ack: bool) {
    if ack then id in AcksOf(m) else IsSend(m) && m.rel.value.messageId == id
  }

  function FirstTime(messages: seq<Message>, id: u16, ack: bool): Option<Time> {
    if messages == [] then None
    else
      var init, last := messages[..|messages| - 1], messages[|messages| - 1];
      if FirstTime(init, id, ack).Some? then FirstTime(init, id, ack)
      else if Mentions(last, id, ack) then Some(last.timestamp)
      else None
  }

  lemma FirstTimeAppend(messages: seq<Message>, m: Message, id: u16, ack: bool)
    ensures FirstTime(messages + [m], id, ack)
            == if FirstTime(messages, id, ack).Some? then FirstTime(messages, id, ack)
               else if Mentions(m, id, ack) then Some(m.timestamp) else None
  {
    assert (messages + [m])[..|messages|] == messages;
  }

  /** It is the time of the first message that mentions the id in that way, if any does. */
  lemma {:induction false} FirstTimeIsFirst(messages: seq<Message>, id: u16, ack: bool)
    ensures FirstTime(messages, id, ack) == None <==> forall i :: 0 <= i < |messages| ==> !Mentions(messages[i], id, ack)
    ensures FirstTime(messages, id, ack).Some? ==>
      exists i :: && 0 <= i < |messages| && Mentions(messages[i], id, ack)
                  && messages[i].timestamp == FirstTime(messages, id, ack).value
                  && forall j :: 0 <= j < i ==> !Mentions(messages[j], id, ack)
  {
    if messages != [] {
      var n := |messages| - 1;
      var init := messages[..n];
      FirstTimeIsFirst(init, id, ack);
      assert forall i :: 0 <= i < n ==> messages[i] == init[i];
    }
  }

  lemma FirstTimeIffMember(messages: seq<Message>, id: u16)
    ensures FirstTime(messages, id, false).Some? <==> id in SentIds(messages)
    ensures FirstTime(messages, id, true).Some? <==> id in AckedIds(messages)
  {
    FirstTimeIsFirst(messages, id, false);
    FirstTimeIsFirst(messages, id, true);
  }

  // ---------------------------------------------------------------- the table of times

  /** The table knows the id's first send and first acknowledgement, and lists the id only if there is one. */
  ghost predicate EntryRecorded(acks: Times, messages: seq<Message>, id: u16) {
    && Entry(acks, id) == (FirstTime(messages, id, false), FirstTime(messages, id, true))
    && (id in acks ==> acks[id].0.Some? || acks[id].1.Some?)
  }

  ghost predicate Records(acks: Times, messages: seq<Message>) {
    forall id :: EntryRecorded(acks, messages, id)
  }

  function Entry(acks: Times, id: u16): (Option<Time>, Option<Time>) {
    if id in acks then acks[id] else (None, None)
  }

  function WithSend(acks: Times, id: u16, at: Time): Times {
    acks[id := (Some(at), Entry(acks, id).1)]
  }

  function WithAck(acks: Times, id: u16, at: Time): Times {
    var e := Entry(acks, id);
    if e.1 == None then acks[id := (e.0, Some(at))] else acks
  }

  lemma SendRecorded(acks: Times, before: seq<Message>, m: Message)
    requires Records(acks, before) && IsSend(m) && FirstTime(before, m.rel.value.messageId, false) == None
    ensures Records(WithSend(acks, m.rel.value.messageId, m.timestamp), before + [m])
  {
    forall id: u16
      ensures EntryRecorded(WithSend(acks, m.rel.value.messageId, m.timestamp), before + [m], id)
    {
      assert EntryRecorded(acks, before, id);
      FirstTimeAppend(before, m, id, false);
      FirstTimeAppend(before, m, id, true);
    }
  }

  lemma NothingRecorded(acks: Times, before: seq<Message>, m: Message)
    requires Records(acks, before) && AcksOf(m) == {}
    requires IsSend(m) ==> FirstTime(before, m.rel.value.messageId, false).Some?
    ensures Records(acks, before + [m])
  {
    forall id: u16
      ensures EntryRecorded(acks, before + [m], id)
    {
      assert EntryRecorded(acks, before, id);
      FirstTimeAppend(before, m, id, false);
      FirstTimeAppend(before, m, id, true);
    }
  }

  /** The message with its first `n` acks only. */
  function Truncated(m: Message, n: nat): Message
    requires m.rel.Some? && n <= |m.rel.value.acks|
  {
    m.(rel := Some(m.rel.value.(acks := m.rel.value.acks[..n])))
  }

  lemma AckRecorded(acks: Times, before: seq<Message>, m: Message, n: nat)
    requires m.rel.Some? && !m.up && n < |m.rel.value.acks|
    requires Records(acks, before + [Truncated(m, n)])
    ensures Records(WithAck(acks, m.rel.value.acks[n], m.timestamp), before + [Truncated(m, n + 1)])
  {
    var list := m.rel.value.acks;
    assert list[..n + 1] == list[..n] + [list[n]];
    IdSetAppend(list[..n], list[n]);
    var acks', after := WithAck(acks, list[n], m.timestamp), before + [Truncated(m, n + 1)];
    forall id: u16
      ensures EntryRecorded(acks', after, id)
    {
      assert EntryRecorded(acks, before + [Truncated(m, n)], id);
      FirstTimeAppend(before, Truncated(m, n), id, false);
      FirstTimeAppend(before, Truncated(m, n), id, true);
      FirstTimeAppend(before, Truncated(m, n + 1), id, false);
      FirstTimeAppend(before, Truncated(m, n + 1), id, true);
    }
  }

  method RecordAcks(acks: Times, ghost before: seq<Message>, m: Message) returns (r: Times)
    requires Records(acks, before) && m.rel.Some? && !m.up
    ensures Records(r, before + [m])
  {
    hide Records;
    var list := m.rel.value.acks;
    r := acks;
    NothingRecorded(acks, before, Truncated(m, 0));
    for i := 0 to |list|
      invariant Records(r, before + [Truncated(m, i)])
    {
      AckRecorded(r, before, m, i);
      r := WithAck(r, list[i], m.timestamp);
    }
    assert list[..|list|] == list;
  }

  /**
    Counts resends, unknown acks and unacknowledged messages, and times the others. Resends
    are the sends beyond the first of each id, unknown acks are acknowledged ids never sent,
    and every sent id is counted once, as acknowledged or as unacknowledged.
   */
  method CountRelStats(messages: seq<Message>) returns (r: RelStats)
    requires forall m :: m in messages && m.rel.Some? ==> m.rel.value.Complete()
    ensures var sent, acked := SentIds(messages), AckedIds(messages);
            && r.upRetransmissions == SendCount(messages) - |sent|
            && r.downUnknownAcks == |acked - sent|
            && r.upUnacked == |sent - acked|
            && r.acknowledged == |sent * acked|
            && r.upUnacked + r.acknowledged == |sent|
    ensures DelaysTell(r, messages)
  {
    var outIds: set<u16> := {};
    var acks: Times := map[];
    var retransmissions := 0;
    assert Recorded([], outIds, retransmissions, acks);
    for i := 0 to |messages|
      invariant Recorded(messages[..i], outIds, retransmissions, acks)
    {
      hide Recorded;
      assert messages[i] in messages;
      outIds, retransmissions, acks := RecordMessage(messages[..i], messages[i], outIds, retransmissions, acks);
      assert messages[..i + 1] == messages[..i] + [messages[i]];
    }
    assert messages[..|messages|] == messages;
    r := CountTimes(acks, messages, retransmissions);
    assert outIds == (outIds - AckedIds(messages)) + (outIds * AckedIds(messages));
  }

  /** What the two passes share after the messages so far. */
  ghost predicate Recorded(messages: seq<Message>, outIds: set<u16>, retransmissions: nat, acks: Times) {
    && outIds == SentIds(messages)
    && retransmissions == SendCount(messages) - |outIds|
    && Records(acks, messages)
  }

  method RecordMessage(ghost before: seq<Message>, m: Message, outIds: set<u16>, retransmissions: nat, acks: Times)
    returns (outIds': set<u16>, retransmissions': nat, acks': Times)
    requires Recorded(before, outIds, retransmissions, acks) && (m.rel.Some? ==> m.rel.value.Complete())
    ensures Recorded(before + [m], outIds', retransmissions', acks')
  {
    hide Records, SentIds, AckedIds, SendCount, FirstTime, WithSend;
    outIds', retransmissions', acks' := outIds, retransmissions, acks;
    IdsAppend(before, m);
    assert outIds + {} == outIds;
    if m.rel == None {
      NothingRecorded(acks, before, m);
      return;
    }
    var hdr := m.rel.value;
    FirstTimeIffMember(before, hdr.messageId);
    if m.up && hdr.messageId != 0 {
      if hdr.messageId in outIds {
        retransmissions' := retransmissions + 1;
        assert outIds + {hdr.messageId} == outIds;
        NothingRecorded(acks, before, m);
      } else {
        SendRecorded(acks, before, m);
        acks' := WithSend(acks, hdr.messageId, m.timestamp);
        outIds' := outIds + {hdr.messageId};
      }
    } else if !m.up && hdr.ackCount > 0 {
      acks' := RecordAcks(acks, before, m);
    } else {
      NothingRecorded(acks, before, m);
    }
  }

  // ---------------------------------------------------------------- delays

  /** From the first send of an id to its first acknowledgement; zero if that came earlier. */
  function AckDelay(messages: seq<Message>, id: u16): (d: real)
    requires FirstTime(messages, id, false).Some? && FirstTime(messages, id, true).Some?
    ensures d >= 0.0
  {
    Elapsed(FirstTime(messages, id, false).value, FirstTime(messages, id, true).value)
  }

  ghost predicate Acknowledged(messages: seq<Message>, ids: set<u16>) {
    forall id :: id in ids ==> FirstTime(messages, id, false).Some? && FirstTime(messages, id, true).Some?
  }

  ghost function DelaySum(messages: seq<Message>, ids: set<u16>): real
    requires Acknowledged(messages, ids)
  {
    if ids == {} then 0.0
    else
      var id :| id in ids;
      AckDelay(messages, id) + DelaySum(messages, ids - {id})
  }

  /** The sum does not depend on the order of summation. */
  lemma {:induction false} DelaySumTakes(messages: seq<Message>, ids: set<u16>, id: u16)
    requires Acknowledged(messages, ids) && id in ids
    ensures DelaySum(messages, ids) == AckDelay(messages, id) + DelaySum(messages, ids - {id})
    decreases ids
  {
    var x :| x in ids && DelaySum(messages, ids) == AckDelay(messages, x) + DelaySum(messages, ids - {x});
    if x != id {
      DelaySumTakes(messages, ids - {x}, id);
      DelaySumTakes(messages, ids - {id}, x);
      assert ids - {x} - {id} == ids - {id} - {x};
    }
  }

  /** Least, greatest and summed delay of the ids, the least being infinite without any. */
  ghost predicate Delays(messages: seq<Message>, ids: set<u16>, least: Duration, greatest: real, total: real) {
    && Acknowledged(messages, ids)
    && total == DelaySum(messages, ids)
    && (least == Infinite <==> ids == {})
    && (ids == {} ==> greatest == 0.0)
    && (forall id :: id in ids ==> least.ms <= AckDelay(messages, id) <= greatest)
    && (ids != {} ==> (exists id :: id in ids && AckDelay(messages, id) == least.ms)
                      && exists id :: id in ids && AckDelay(messages, id) == greatest)
  }

  lemma DelayAdded(messages: seq<Message>, ids: set<u16>, least: Duration, greatest: real, total: real, id: u16)
    requires Delays(messages, ids, least, greatest, total) && id !in ids && Acknowledged(messages, {id})
    ensures var d := AckDelay(messages, id);
            Delays(messages, ids + {id}, Min(least, Finite(d)), if d > greatest then d else greatest, total + d)
  {
    var all, d := ids + {id}, AckDelay(messages, id);
    assert id in {id};
    assert Acknowledged(messages, all);
    DelaySumTakes(messages, all, id);
    assert all - {id} == ids;
    if ids != {} {
      var a :| a in ids && AckDelay(messages, a) == least.ms;
      var b :| b in ids && AckDelay(messages, b) == greatest;
      assert a in all && b in all;
    }
    assert id in all;
  }

  /** What is reported of the delays: their extremes and their mean, or zero if nothing was acknowledged. */
  ghost predicate DelaysTell(r: RelStats, messages: seq<Message>) {
    var ids := SentIds(messages) * AckedIds(messages);
    if ids == {} then r.minAckDelay == r.maxAckDelay == r.avgAckDelay == 0.0
    else exists total ::
           Delays(messages, ids, Finite(r.minAckDelay), r.maxAckDelay, total) && r.avgAckDelay * |ids| as real == total
  }

  /** How the final pass classifies an id. */
  datatype Kind = UnknownAck | Unacked | Acked

  function ClassOf(acks: Times, id: u16): Kind
    requires id in acks
  {
    if acks[id].0 == None then UnknownAck else if acks[id].1 == None then Unacked else Acked
  }

  lemma KindsTell(acks: Times, messages: seq<Message>, id: u16)
    requires Records(acks, messages) && id in acks
    ensures var sent, acked := SentIds(messages), AckedIds(messages);
            && (ClassOf(acks, id) == UnknownAck <==> id in acked - sent)
            && (ClassOf(acks, id) == Unacked <==> id in sent - acked)
            && (ClassOf(acks, id) == Acked <==> id in sent * acked)
    ensures Entry(acks, id) == (FirstTime(messages, id, false), FirstTime(messages, id, true))
  {
    assert EntryRecorded(acks, messages, id);
    FirstTimeIffMember(messages, id);
  }

  lemma KeysCover(acks: Times, messages: seq<Message>)
    requires Records(acks, messages)
    ensures acks.Keys == SentIds(messages) + AckedIds(messages)
  {
    forall id: u16
      ensures id in acks <==> id in SentIds(messages) + AckedIds(messages)
    {
      FirstTimeIffMember(messages, id);
      assert EntryRecorded(acks, messages, id);
    }
  }

  /** One pass over the table in whatever order. */
  method CountTimes(acks: Times, ghost messages: seq<Message>, retransmissions: nat) returns (r: RelStats)
    requires Records(acks, messages)
    ensures var sent, acked := SentIds(messages), AckedIds(messages);
            && r.upRetransmissions == retransmissions
            && r.downUnknownAcks == |acked - sent|
            && r.upUnacked == |sent - acked|
            && r.acknowledged == |sent * acked|
    ensures DelaysTell(r, messages)
  {
    hide Outside, Records, Delays, SentIds, AckedIds, FirstTime, Acknowledged, DelaysTell;
    var unknown, unacked, acknowledged := 0, 0, 0;
    var least, greatest, total := Infinite, 0.0, 0.0;
    var left := acks.Keys;
    ghost var sent, acked := SentIds(messages), AckedIds(messages);
    ghost var a, b, c := acked - sent, sent - acked, sent * acked;
    KeysCover(acks, messages);
    OutsideAll(a, left);
    OutsideAll(b, left);
    OutsideAll(c, left);
    NoDelays(messages, c - left);
    while left != {}
      invariant left <= acks.Keys
      invariant unknown == Outside(a, left) && unacked == Outside(b, left) && acknowledged == Outside(c, left)
      invariant Delays(messages, c - left, least, greatest, total)
      decreases |left|
    {
      var id :| id in left;
      KindsTell(acks, messages, id);
      Visit(a, left, id);
      Visit(b, left, id);
      Visit(c, left, id);
      ghost var seen := c - left;
      left := left - {id};
      match ClassOf(acks, id) {
        case UnknownAck =>
          unknown := unknown + 1;
          assert c - left == seen;
        case Unacked =>
          unacked := unacked + 1;
          assert c - left == seen;
        case Acked =>
          var delay := Elapsed(acks[id].0.value, acks[id].1.value);
          DelayAdded(messages, seen, least, greatest, total, id);
          assert c - left == seen + {id};
          least := Min(least, Finite(delay));
          greatest := if delay > greatest then delay else greatest;
          total := total + delay;
          acknowledged := acknowledged + 1;
      }
    }
    OutsideNone(a);
    OutsideNone(b);
    OutsideNone(c);
    assert c - left == c;
    r := Reported(messages, c, least, greatest, total, retransmissions, unknown, unacked, acknowledged);
  }

  lemma NoDelays(messages: seq<Message>, ids: set<u16>)
    requires ids == {}
    ensures Delays(messages, ids, Infinite, 0.0, 0.0)
  {
  }

  /** The mean, and zero for the infinite minimum when nothing was acknowledged. */
  method Reported(ghost messages: seq<Message>, ghost ids: set<u16>, least: Duration, greatest: real, total: real,
                  retransmissions: nat, unknown: nat, unacked: nat, acknowledged: nat)
    returns (r: RelStats)
    requires Delays(messages, ids, least, greatest, total) && acknowledged == |ids|
    requires ids == SentIds(messages) * AckedIds(messages)
    ensures r == RelStats(retransmissions, unknown, unacked, acknowledged, r.minAckDelay, r.maxAckDelay, r.avgAckDelay)
    ensures DelaysTell(r, messages)
  {
    hide SentIds, AckedIds;
    if acknowledged == 0 {
      r := RelStats(retransmissions, unknown, unacked, acknowledged, 0.0, greatest, 0.0);
    } else {
      r := RelStats(retransmissions, unknown, unacked, acknowledged, least.ms, greatest, total / acknowledged as real);
    }
  }

  /** How many of `a` the pass has visited. */
  ghost function Outside(a: set<u16>, left: set<u16>): nat {
    |a - left|
  }

  lemma OutsideAll(a: set<u16>, left: set<u16>)
    requires a <= left
    ensures Outside(a, left) == 0
  {
    assert a - left == {};
  }

  lemma OutsideNone(a: set<u16>)
    ensures Outside(a, {}) == |a|
  {
    assert a - {} == a;
  }

  lemma Visit(a: set<u16>, left: set<u16>, id: u16)
    requires id in left
    ensures Outside(a, left - {id}) == Outside(a, left) + if id in a then 1 else 0
  {
    assert a - (left - {id}) == (a - left) + if id in a then {id} else {};
  }
}
