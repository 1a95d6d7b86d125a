/**
  Reassembly of fragmented messages. Fragments arrive in any order, more than once,
  interleaved with those of other messages; incomplete messages expire after ten seconds.
 */
module FragmentStores {
  import opened Wrappers
  import opened Bytes
  import opened MessageTypes
  import opened Reliability

  const EXPIRY: Time := 10000.0

  datatype Fragment = Fragment(index: u16, data: bytes)

  datatype PartialMessage = PartialMessage(
    messageId: u16,
    receivedAt: Time,
    total: Option<nat>,
    fragments: seq<Fragment>,
    comp: Option<CompressionHeader>,
    rel: Option<ReliabilityHeader>)

  type Messages = map<u16, PartialMessage>

  type FragmentResult = Result<Option<MessageMeta>, TransportError>

  // ---------------------------------------------------------------- storing a fragment

  function Entry(m: Messages, id: u16, now: Time): PartialMessage {
    if id in m && m[id].fragments != [] then m[id]
    else if id in m then m[id].(receivedAt := now, messageId := id)
    else PartialMessage(id, now, None, [], None, None)
  }

  predicate HasIndex(q: seq<Fragment>, index: u16) {
    exists i :: 0 <= i < |q| && q[i].index == index
  }

  predicate IsRepeat(m: Messages, meta: MessageMeta, now: Time)
    requires meta.frag.Some?
  {
    HasIndex(Entry(m, meta.frag.value.messageId, now).fragments, meta.frag.value.fragmentIndex)
  }

  function WithFragment(e: PartialMessage, meta: MessageMeta): PartialMessage
    requires meta.frag.Some?
  {
    e.(total := if meta.frag.value.lastFragment then Some(meta.frag.value.fragmentIndex + 1) else e.total,
       fragments := e.fragments + [Fragment(meta.frag.value.fragmentIndex, meta.data)],
       comp := if meta.comp.Some? then meta.comp else e.comp,
       rel := if meta.rel.Some? then meta.rel else e.rel)
  }

  function Stored(m: Messages, meta: MessageMeta, now: Time): Messages
    requires meta.frag.Some?
  {
    var id := meta.frag.value.messageId;
    m[id := WithFragment(Entry(m, id, now), meta)]
  }

  // ---------------------------------------------------------------- reassembly

  function Insert(f: Fragment, q: seq<Fragment>): seq<Fragment> {
    if q == [] || f.index < q[0].index then [f] + q else [q[0]] + Insert(f, q[1..])
  }

  function SortedByIndex(q: seq<Fragment>): seq<Fragment> {
    if q == [] then [] else Insert(q[0], SortedByIndex(q[1..]))
  }

  predicate NoSkips(q: seq<Fragment>) {
    forall i :: 0 <= i < |q| ==> q[i].index == i
  }

  function Joined(q: seq<Fragment>): bytes {
    if q == [] then [] else q[0].data + Joined(q[1..])
  }

  function Reassembled(e: PartialMessage): FragmentResult {
    var q := SortedByIndex(e.fragments);
    if NoSkips(q) then Ok(Some(MessageMeta(0, e.comp, e.rel, None, Joined(q), 0)))
    else Err(DefragmentationError)
  }

  // ---------------------------------------------------------------- completion and expiry

  predicate IsComplete(e: PartialMessage) {
    e.total == Some(|e.fragments|)
  }

  predicate IsStale(e: PartialMessage, now: Time) {
    Elapsed(e.receivedAt, now) > EXPIRY
  }

  /**
    The outcome of a sweep over the store in an unspecified order: it ends at the first
    complete message, which it takes out and reassembles, and drops the stale incomplete ones
    it meets on the way; with no complete message it drops all stale ones.
   */
  ghost predicate IsSweep(m: Messages, m': Messages, r: FragmentResult, now: Time) {
    && m'.Keys <= m.Keys && (forall id :: id in m' ==> m'[id] == m[id])
    && if exists id :: id in m && IsComplete(m[id]) then
         exists id :: id in m && SweptUpTo(m, m', r, now, id)
       else
         r == Ok(None) && forall id :: id in m ==> (id in m' <==> !IsStale(m[id], now))
  }

  ghost predicate SweptUpTo(m: Messages, m': Messages, r: FragmentResult, now: Time, done: u16)
    requires done in m
  {
    && IsComplete(m[done]) && done !in m' && r == Reassembled(m[done])
    && forall id :: id in m && id !in m' && id != done ==> !IsComplete(m[id]) && IsStale(m[id], now)
  }

  /** All a call of processFragment may do. */
  ghost predicate IsProcessed(m: Messages, meta: MessageMeta, now: Time, m': Messages, r: FragmentResult)
    requires meta.frag.Some?
  {
    var id := meta.frag.value.messageId;
    if IsRepeat(m, meta, now) then m' == m[id := Entry(m, id, now)] && r == Ok(None)
    else IsSweep(Stored(m, meta, now), m', r, now)
  }

  /** memcpy of a whole buffer to a place in another. */
  method CopyInto(dst: array<byte>, at: nat, src: bytes)
    requires at + |src| <= dst.Length
    modifies dst
    ensures dst[..] == old(dst[..at]) + src + old(dst[at + |src|..])
  {
    forall i | 0 <= i < |src| {
      dst[at + i] := src[i];
    }
  }

  lemma JoinedAppend(q: seq<Fragment>, f: Fragment)
    ensures Joined(q + [f]) == Joined(q) + f.data
  {
    if q != [] {
      assert (q + [f])[1..] == q[1..] + [f];
      JoinedAppend(q[1..], f);
    } else {
      assert (q + [f])[1..] == [];
    }
  }

  class FragmentStore {
    var messages: Messages
    var nextMessageId: u16

    constructor ()
      ensures messages == map[] && nextMessageId == 1
    {
      messages, nextMessageId := map[], 1;
    }

    method NextMessageId() returns (id: u16)
      modifies this
      ensures id == old(nextMessageId) && nextMessageId == (id + 1) % 0x1_0000
      ensures messages == old(messages)
    {
      id := nextMessageId;
      nextMessageId := (nextMessageId + 1) % 0x1_0000;
    }

    method ProcessFragment(meta: MessageMeta, now: Time) returns (r: FragmentResult)
      requires meta.frag.Some?
      modifies this
      ensures IsProcessed(old(messages), meta, now, messages, r)
      ensures nextMessageId == old(nextMessageId)
    {
      var frh := meta.frag.value;
      var e := if frh.messageId in messages then messages[frh.messageId] else PartialMessage(0, 0.0, None, [], None, None);
      if e.fragments == [] {
        e := e.(receivedAt := now, messageId := frh.messageId);
      }
      messages := messages[frh.messageId := e];
      for i := 0 to |e.fragments|
        invariant unchanged(this`nextMessageId) && messages == old(messages)[frh.messageId := e]
        invariant forall j :: 0 <= j < i ==> e.fragments[j].index != frh.fragmentIndex
      {
        if e.fragments[i].index == frh.fragmentIndex {
          assert HasIndex(e.fragments, frh.fragmentIndex);
          return Ok(None);
        }
      }
      if frh.lastFragment {
        e := e.(total := Some(frh.fragmentIndex + 1));
      }
      e := e.(fragments := e.fragments + [Fragment(frh.fragmentIndex, meta.data)]);
      if meta.comp.Some? {
        e := e.(comp := meta.comp);
      }
      if meta.rel.Some? {
        e := e.(rel := meta.rel);
      }
      messages := messages[frh.messageId := e];
      assert messages == Stored(old(messages), meta, now);
      r := ProcessStored(now);
    }

    method ProcessStored(now: Time) returns (r: FragmentResult)
      modifies this
      ensures IsSweep(old(messages), messages, r, now)
      ensures nextMessageId == old(nextMessageId)
    {
      ghost var m := messages;
      var left := messages.Keys;
      while left != {}
        invariant nextMessageId == old(nextMessageId)
        invariant left <= messages.Keys <= m.Keys
        invariant forall id :: id in messages ==> messages[id] == m[id]
        invariant forall id :: id in m && id !in left ==> !IsComplete(m[id]) && (id in messages <==> !IsStale(m[id], now))
        decreases |left|
      {
        var id :| id in left;
        left := left - {id};
        var e := messages[id];
        if e.total == Some(|e.fragments|) {
          messages := messages - {id};
          r := Reassemble(e);
          assert SweptUpTo(m, messages, r, now, id);
          return;
        } else if Elapsed(e.receivedAt, now) > EXPIRY {
          messages := messages - {id};
        }
      }
      r := Ok(None);
    }

    method Reassemble(e: PartialMessage) returns (r: FragmentResult)
      ensures r == Reassembled(e)
    {
      var sorted := SortedByIndex(e.fragments);
      var totalSize := 0;
      for i := 0 to |sorted|
        invariant forall j :: 0 <= j < i ==> sorted[j].index == j
        invariant totalSize == |Joined(sorted[..i])|
      {
        if sorted[i].index != i {
          return Err(DefragmentationError);
        }
        totalSize := totalSize + |sorted[i].data|;
        JoinedAppend(sorted[..i], sorted[i]);
        assert sorted[..i + 1] == sorted[..i] + [sorted[i]];
      }
      assert sorted[..|sorted|] == sorted;
      var out := new byte[totalSize];
      var cur := 0;
      for i := 0 to |sorted|
        invariant cur == |Joined(sorted[..i])| <= totalSize
        invariant out[..cur] == Joined(sorted[..i])
      {
        JoinedAppend(sorted[..i], sorted[i]);
        assert sorted[..i + 1] == sorted[..i] + [sorted[i]];
        JoinedPrefix(sorted, i + 1);
        CopyInto(out, cur, sorted[i].data);
        cur := cur + |sorted[i].data|;
      }
      assert out[..] == out[..cur];
      r := Ok(Some(MessageMeta(0, e.comp, e.rel, None, out[..], 0)));
    }
  }

  lemma {:induction false} JoinedPrefix(q: seq<Fragment>, n: nat)
    requires n <= |q|
    ensures |Joined(q[..n])| <= |Joined(q)|
    decreases |q| - n
  {
    if n < |q| {
      JoinedAppend(q[..n], q[n]);
      assert q[..n + 1] == q[..n] + [q[n]];
      JoinedPrefix(q, n + 1);
    } else {
      assert q[..n] == q;
    }
  }
}
