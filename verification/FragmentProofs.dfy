/**
  Whatever the order, repetition, loss and interleaving of the fragments of many messages,
  and whatever expires meanwhile: what comes out of the store is what went in.
 */
module FragmentProofs {
  import opened Wrappers
  import opened Bytes
  import opened MessageTypes
  import opened Reliability
  import opened FragmentStores

  /** A message as it was split: its pieces, and the headers its first fragment carries. */
  datatype SplitMessage = SplitMessage(pieces: seq<bytes>, comp: Option<CompressionHeader>, rel: Option<ReliabilityHeader>)

  predicate FitsIndices(sent: map<u16, SplitMessage>) {
    forall id :: id in sent ==> 1 <= |sent[id].pieces| <= LAST_FRAGMENT_MASK
  }

  /** The messages on their way, by fragmentation id; no id is used twice, and indices fit their field. */
  type Sent = m: map<u16, SplitMessage> | FitsIndices(m)

  /** The metadata of fragment `i` of message `id`, as decoded on arrival. */
  ghost predicate IsFragment(meta: MessageMeta, sent: Sent, id: u16, i: nat) {
    && id in sent && i < |sent[id].pieces|
    && meta.frag == Some(FragmentationHeader(id, i, i == |sent[id].pieces| - 1))
    && meta.data == sent[id].pieces[i]
    && meta.comp == (if i == 0 then sent[id].comp else None)
    && meta.rel == (if i == 0 then sent[id].rel else None)
  }

  function Flatten(pieces: seq<bytes>): bytes {
    if pieces == [] then [] else pieces[0] + Flatten(pieces[1..])
  }

  /** What the receiver is to be given for a message. */
  ghost predicate IsWhole(meta: MessageMeta, m: SplitMessage) {
    meta.data == Flatten(m.pieces) && meta.comp == m.comp && meta.rel == m.rel && meta.frag == None
  }

  // ---------------------------------------------------------------- sorting

  ghost predicate StrictlyIncreasing(q: seq<Fragment>) {
    forall i, j :: 0 <= i < j < |q| ==> q[i].index < q[j].index
  }

  ghost predicate Distinct(q: seq<Fragment>) {
    forall i, j :: 0 <= i < j < |q| ==> q[i].index != q[j].index
  }

  lemma {:induction false} InsertSorts(f: Fragment, q: seq<Fragment>)
    requires StrictlyIncreasing(q) && forall g :: g in q ==> g.index != f.index
    ensures var r := Insert(f, q);
            && StrictlyIncreasing(r) && |r| == |q| + 1
            && forall g :: g in r <==> g == f || g in q
  {
    if q != [] {
      Uncons(q);
      if f.index >= q[0].index {
        InsertSorts(f, q[1..]);
        Cons(q[0], Insert(f, q[1..]));
      } else {
        Cons(f, q);
      }
    }
  }

  lemma Uncons(q: seq<Fragment>)
    requires q != []
    ensures q[0] in q && forall g :: g in q <==> g == q[0] || g in q[1..]
    ensures StrictlyIncreasing(q) ==> StrictlyIncreasing(q[1..]) && forall g :: g in q[1..] ==> q[0].index < g.index
  {
    assert q == [q[0]] + q[1..];
  }

  lemma Cons(f: Fragment, q: seq<Fragment>)
    requires StrictlyIncreasing(q) && forall g :: g in q ==> f.index < g.index
    ensures StrictlyIncreasing([f] + q)
  {
  }

  lemma {:induction false} SortingSorts(q: seq<Fragment>)
    requires Distinct(q)
    ensures var r := SortedByIndex(q);
            && StrictlyIncreasing(r) && |r| == |q|
            && forall g :: g in r <==> g in q
  {
    if q != [] {
      SortingSorts(q[1..]);
      Uncons(q);
      forall g | g in SortedByIndex(q[1..])
        ensures g.index != q[0].index
      {
        var k :| 0 <= k < |q[1..]| && q[1..][k] == g;
        assert q[k + 1] == g;
      }
      InsertSorts(q[0], SortedByIndex(q[1..]));
    }
  }

  /** k distinct indices below k, in order, are 0 to k - 1. */
  lemma {:induction false} FullRange(q: seq<Fragment>, i: nat)
    requires StrictlyIncreasing(q) && i < |q|
    requires forall j :: 0 <= j < |q| ==> q[j].index < |q|
    ensures q[i].index == i
  {
    AtLeast(q, i);
    AtMost(q, i);
  }

  lemma {:induction false} AtLeast(q: seq<Fragment>, i: nat)
    requires StrictlyIncreasing(q) && i < |q|
    ensures q[i].index >= i
  {
    if i > 0 {
      AtLeast(q, i - 1);
    }
  }

  lemma {:induction false} AtMost(q: seq<Fragment>, i: nat)
    requires StrictlyIncreasing(q) && i < |q|
    requires forall j :: 0 <= j < |q| ==> q[j].index < |q|
    ensures q[i].index <= i
    decreases |q| - i
  {
    if i < |q| - 1 {
      AtMost(q, i + 1);
    }
  }

  lemma {:induction false} JoinedPieces(q: seq<Fragment>, pieces: seq<bytes>)
    requires |q| == |pieces| && forall i :: 0 <= i < |q| ==> q[i].data == pieces[i]
    ensures Joined(q) == Flatten(pieces)
  {
    if q != [] {
      JoinedPieces(q[1..], pieces[1..]);
    }
  }

  // ---------------------------------------------------------------- entries

  function Indices(q: seq<Fragment>): set<nat> {
    set i | 0 <= i < |q| :: q[i].index
  }

  function UpTo(k: nat): (s: set<nat>)
    ensures forall i: nat :: i in s <==> i < k
  {
    if k == 0 then {} else UpTo(k - 1) + {k - 1}
  }

  ghost predicate NoneComplete(m: Messages) {
    forall id :: id in m ==> !IsComplete(m[id])
  }

  /** An entry holds pieces of its message, each once, and knows its size and headers if it can. */
  ghost predicate EntryOk(e: PartialMessage, m: SplitMessage) {
    && e.fragments != [] && Distinct(e.fragments)
    && (forall f :: f in e.fragments ==> f.index < |m.pieces| && f.data == m.pieces[f.index])
    && e.total == (if |m.pieces| - 1 in Indices(e.fragments) then Some(|m.pieces|) else None)
    && e.comp == (if 0 in Indices(e.fragments) then m.comp else None)
    && e.rel == (if 0 in Indices(e.fragments) then m.rel else None)
  }

  ghost predicate StoreOk(m: Messages, sent: Sent) {
    forall id :: id in m ==> id in sent && EntryOk(m[id], sent[id]) && !IsComplete(m[id])
  }

  lemma {:induction false} CountIndices(q: seq<Fragment>)
    requires Distinct(q)
    ensures |Indices(q)| == |q|
  {
    if q != [] {
      var init, last := q[..|q| - 1], q[|q| - 1];
      CountIndices(init);
      assert Indices(q) == Indices(init) + {last.index as nat};
      assert last.index !in Indices(init);
    }
  }

  lemma {:induction false} CountUpTo(k: nat)
    ensures |UpTo(k)| == k
  {
    if k > 0 {
      CountUpTo(k - 1);
      var s, t := UpTo(k - 1), UpTo(k);
      assert t == s + {k - 1} && k - 1 !in s;
    }
  }

  lemma SameSizeSubset(a: set<nat>, b: set<nat>)
    requires a <= b && |a| == |b|
    ensures a == b
  {
    assert |b - a| == |b| - |a|;
  }

  /** Counting fragments against the total is the same as having every index. */
  lemma CompleteIffAll(e: PartialMessage, m: SplitMessage)
    requires EntryOk(e, m)
    ensures IsComplete(e) <==> Indices(e.fragments) == UpTo(|m.pieces|)
  {
    CountIndices(e.fragments);
    CountUpTo(|m.pieces|);
    forall i | i in Indices(e.fragments)
      ensures i in UpTo(|m.pieces|)
    {
      var j :| 0 <= j < |e.fragments| && e.fragments[j].index == i;
      assert e.fragments[j] in e.fragments;
    }
    if IsComplete(e) {
      SameSizeSubset(Indices(e.fragments), UpTo(|m.pieces|));
    }
    if Indices(e.fragments) == UpTo(|m.pieces|) {
      assert e.fragments[0] in e.fragments;
      assert |m.pieces| - 1 in UpTo(|m.pieces|);
    }
  }

  /** A complete entry reassembles to its message; there is no defragmentation error. */
  lemma CompleteReassembles(e: PartialMessage, m: SplitMessage)
    requires EntryOk(e, m) && IsComplete(e)
    ensures var r := Reassembled(e); r.Ok? && r.value.Some? && IsWhole(r.value.value, m)
  {
    CompleteIffAll(e, m);
    var q := SortedByIndex(e.fragments);
    SortingSorts(e.fragments);
    assert |q| == |m.pieces|;
    forall i | 0 <= i < |q|
      ensures q[i].index == i && q[i].data == m.pieces[i]
    {
      assert forall j :: 0 <= j < |q| ==> q[j] in e.fragments;
      FullRange(q, i);
    }
    JoinedPieces(q, m.pieces);
    assert e.fragments[0] in e.fragments;
    assert 0 in UpTo(|m.pieces|);
  }

  lemma AppendedEntryOk(m: Messages, meta: MessageMeta, now: Time, sent: Sent, id: u16, i: nat)
    requires StoreOk(m, sent) && IsFragment(meta, sent, id, i) && !IsRepeat(m, meta, now)
    ensures var e := WithFragment(Entry(m, id, now), meta);
            EntryOk(e, sent[id]) && Indices(e.fragments) == Indices(Entry(m, id, now).fragments) + {i}
  {
    hide IsComplete;
    var before := Entry(m, id, now).fragments;
    var e := WithFragment(Entry(m, id, now), meta);
    assert e.fragments == before + [Fragment(i, meta.data)];
    assert e.fragments[|before|].index == i;
    forall j | j in Indices(before)
      ensures j in Indices(e.fragments)
    {
      var k :| 0 <= k < |before| && before[k].index == j;
      assert e.fragments[k].index == j;
    }
    assert i !in Indices(before);
  }

  // ---------------------------------------------------------------- one arrival

  /** The fragment indices the store holds of message `id`. */
  function Present(m: Messages, id: u16): set<nat> {
    if id in m then Indices(m[id].fragments) else {}
  }

  lemma RepeatIffPresent(m: Messages, meta: MessageMeta, now: Time, sent: Sent, id: u16, i: nat)
    requires StoreOk(m, sent) && IsFragment(meta, sent, id, i)
    ensures IsRepeat(m, meta, now) <==> i in Present(m, id)
  {
    if i in Present(m, id) {
      var k :| 0 <= k < |m[id].fragments| && m[id].fragments[k].index == i;
      assert HasIndex(Entry(m, id, now).fragments, i);
    }
  }

  /** Only the message that just got a fragment can be complete. */
  lemma StoredEntries(m: Messages, meta: MessageMeta, now: Time, sent: Sent, id: u16, i: nat)
    requires StoreOk(m, sent) && IsFragment(meta, sent, id, i) && i !in Present(m, id)
    ensures var s := Stored(m, meta, now);
            && (forall x :: x in s ==> x in sent && EntryOk(s[x], sent[x]))
            && (forall x :: x in s && x != id ==> x in m && s[x] == m[x] && !IsComplete(s[x]))
            && Present(s, id) == Present(m, id) + {i}
            && (IsComplete(s[id]) <==> Present(m, id) + {i} == UpTo(|sent[id].pieces|))
            && id in s && s[id].receivedAt == (if id in m then m[id].receivedAt else now)
  {
    RepeatIffPresent(m, meta, now, sent, id, i);
    AppendedEntryOk(m, meta, now, sent, id, i);
    var s := Stored(m, meta, now);
    CompleteIffAll(s[id], sent[id]);
  }

  /** The sweep after a new fragment: it takes out that message if complete, and else only stale ones. */
  lemma SweepOutcome(s: Messages, m': Messages, r: FragmentResult, now: Time, sent: Sent, id: u16)
    requires IsSweep(s, m', r, now) && id in s
    requires forall x :: x in s ==> x in sent && EntryOk(s[x], sent[x])
    requires forall x :: x in s && x != id ==> !IsComplete(s[x])
    ensures StoreOk(m', sent) && r.Ok?
    ensures r.value.Some? <==> IsComplete(s[id])
    ensures r.value.Some? ==> IsWhole(r.value.value, sent[id]) && id !in m'
    ensures r.value == None && !IsStale(s[id], now) ==> id in m'
    ensures forall x :: x in m' ==> x in s && m'[x] == s[x]
    ensures forall x :: x in s && x != id && !IsStale(s[x], now) ==> x in m'
  {
    if IsComplete(s[id]) {
      CompleteReassembles(s[id], sent[id]);
      assert exists x :: x in s && IsComplete(s[x]);
      var done :| done in s && SweptUpTo(s, m', r, now, done);
      assert done == id;
    } else {
      assert !exists x :: x in s && IsComplete(s[x]);
    }
  }

  ghost predicate Finishes(m: Messages, sent: Sent, id: u16, i: nat)
    requires id in sent
  {
    i !in Present(m, id) && Present(m, id) + {i} == UpTo(|sent[id].pieces|)
  }

  lemma FreshIsNotStale(e: PartialMessage, now: Time)
    ensures e.receivedAt == now ==> !IsStale(e, now)
  {
  }

  lemma RepeatChangesNothing(m: Messages, meta: MessageMeta, now: Time, m': Messages, r: FragmentResult, sent: Sent,
                             id: u16, i: nat)
    requires StoreOk(m, sent) && IsFragment(meta, sent, id, i) && i in Present(m, id)
    requires IsRepeat(m, meta, now) && IsProcessed(m, meta, now, m', r)
    ensures m' == m && r == Ok(None) && id in m
  {
    hide IsComplete, IsSweep;
    assert Entry(m, id, now) == m[id];
  }

  /**
    One arrival, exactly: a message comes out if and only if this fragment was its last
    missing one, and then it is that message, whole; otherwise nothing comes out. No
    complete message stays behind, and other messages change only by expiring.
   */
  lemma ArrivalOutcome(m: Messages, meta: MessageMeta, now: Time, m': Messages, r: FragmentResult, sent: Sent,
                       id: u16, i: nat)
    requires StoreOk(m, sent) && IsFragment(meta, sent, id, i)
    requires IsProcessed(m, meta, now, m', r)
    ensures StoreOk(m', sent) && r.Ok?
    ensures r.value.Some? <==> Finishes(m, sent, id, i)
    ensures r.value.Some? ==> IsWhole(r.value.value, sent[id]) && id !in m'
    ensures forall x :: x in m' && x != id ==> x in m && m'[x] == m[x]
    ensures forall x :: x in m && x != id && !IsStale(m[x], now) ==> x in m'
    ensures id in m' ==> Present(m', id) == Present(m, id) + {i} && m'[id].receivedAt == if id in m then m[id].receivedAt else now
    ensures r.value == None && !(id in m && IsStale(m[id], now)) ==> id in m'
  {
    RepeatIffPresent(m, meta, now, sent, id, i);
    if i in Present(m, id) {
      RepeatChangesNothing(m, meta, now, m', r, sent, id, i);
      hide EntryOk, Reassembled, IsComplete, IsProcessed, IsFragment;
      assert Present(m, id) + {i} == Present(m, id);
    } else {
      hide IsSweep, EntryOk, Reassembled, IsComplete, WithFragment, Entry, Stored;
      StoredEntries(m, meta, now, sent, id, i);
      FreshIsNotStale(Stored(m, meta, now)[id], now);
      SweepOutcome(Stored(m, meta, now), m', r, now, sent, id);
    }
  }

  // ---------------------------------------------------------------- runs

  datatype Arrival = Arrival(meta: MessageMeta, id: u16, index: nat, now: Time)

  ghost predicate IsRun(sent: Sent, arrivals: seq<Arrival>, stores: seq<Messages>, results: seq<FragmentResult>) {
    && |stores| == |arrivals| + 1 && |results| == |arrivals| && stores[0] == map[]
    && (forall j :: 0 <= j < |arrivals| ==> IsFragment(arrivals[j].meta, sent, arrivals[j].id, arrivals[j].index))
    && (forall j :: 0 <= j < |arrivals| ==>
          IsProcessed(stores[j], arrivals[j].meta, arrivals[j].now, stores[j + 1], results[j]))
  }

  lemma {:induction false} RunKeepsStore(sent: Sent, arrivals: seq<Arrival>, stores: seq<Messages>,
                                         results: seq<FragmentResult>, n: nat)
    requires IsRun(sent, arrivals, stores, results) && n <= |arrivals|
    ensures StoreOk(stores[n], sent)
  {
    if n > 0 {
      RunKeepsStore(sent, arrivals, stores, results, n - 1);
      var a := arrivals[n - 1];
      ArrivalOutcome(stores[n - 1], a.meta, a.now, stores[n], results[n - 1], sent, a.id, a.index);
    }
  }

  /**
    Fragment safety: over any run, with any interleaving, repetition, loss and expiry, each
    call succeeds, and a message it returns is the one whose fragment arrived, with the
    bytes and headers it was sent with; no complete message is ever left in the store.
   */
  lemma FragmentSafety(sent: Sent, arrivals: seq<Arrival>, stores: seq<Messages>, results: seq<FragmentResult>, j: nat)
    requires IsRun(sent, arrivals, stores, results) && j < |arrivals|
    ensures results[j].Ok?
    ensures results[j].value.Some? ==> IsWhole(results[j].value.value, sent[arrivals[j].id])
    ensures NoneComplete(stores[j + 1])
  {
    RunKeepsStore(sent, arrivals, stores, results, j);
    RunKeepsStore(sent, arrivals, stores, results, j + 1);
    var a := arrivals[j];
    ArrivalOutcome(stores[j], a.meta, a.now, stores[j + 1], results[j], sent, a.id, a.index);
  }

  /** The indices of message `id` among the first `n` arrivals. */
  function Seen(arrivals: seq<Arrival>, id: u16, n: nat): set<nat>
    requires n <= |arrivals|
  {
    set j | 0 <= j < n && arrivals[j].id == id :: arrivals[j].index
  }

  /**
    Arrival `f` is the first of message `id`, and none of those from it up to `n`, of whatever
    message, is more than ten seconds later. How long the store was in use before does not matter.
   */
  ghost predicate WithinExpiry(arrivals: seq<Arrival>, id: u16, f: nat, n: nat)
    requires f < |arrivals| && n <= |arrivals|
  {
    && arrivals[f].id == id && (forall j :: 0 <= j < f ==> arrivals[j].id != id)
    && (forall j :: f <= j < n ==> arrivals[j].now <= arrivals[f].now + EXPIRY)
  }

  /** From its first fragment until it is complete, the store holds exactly the indices of a message that arrived. */
  lemma {:induction false} PresentIsSeen(sent: Sent, arrivals: seq<Arrival>, stores: seq<Messages>,
                                         results: seq<FragmentResult>,
                                        id: u16, f: nat, n: nat)
    requires IsRun(sent, arrivals, stores, results) && f < |arrivals| && n <= |arrivals| && id in sent
    requires WithinExpiry(arrivals, id, f, n)
    requires forall j :: 0 <= j <= n ==> Seen(arrivals, id, j) != UpTo(|sent[id].pieces|)
    ensures Present(stores[n], id) == Seen(arrivals, id, n)
    ensures id in stores[n] <==> f < n
    ensures id in stores[n] ==> stores[n][id].receivedAt == arrivals[f].now
  {
    hide IsProcessed, EntryOk, IsFragment;
    if n > 0 {
      PresentIsSeen(sent, arrivals, stores, results, id, f, n - 1);
      RunKeepsStore(sent, arrivals, stores, results, n - 1);
      var a := arrivals[n - 1];
      ArrivalOutcome(stores[n - 1], a.meta, a.now, stores[n], results[n - 1], sent, a.id, a.index);
      SeenStep(arrivals, id, n);
      assert id in stores[n - 1] ==> !IsStale(stores[n - 1][id], a.now);
    }
  }

  lemma SeenStep(arrivals: seq<Arrival>, id: u16, n: nat)
    requires 0 < n <= |arrivals|
    ensures Seen(arrivals, id, n)
            == Seen(arrivals, id, n - 1) + if arrivals[n - 1].id == id then {arrivals[n - 1].index} else {}
  {
    var s, t := Seen(arrivals, id, n - 1), Seen(arrivals, id, n);
    forall i | i in s
      ensures i in t
    {
      var j :| 0 <= j < n - 1 && arrivals[j].id == id && arrivals[j].index == i;
      assert arrivals[j].id == id;
    }
    assert arrivals[n - 1].id == id ==> arrivals[n - 1].index in t;
  }

  /**
    The fragment round trip: unless more than ten seconds pass after its first fragment, for
    every order of arrival of the fragments of a message, with repeats and among fragments of
    other messages, nothing comes out of its arrivals before the last missing one, and that
    one yields the payload. The store may have been in use for any time before.
   */
  lemma FragmentRoundTrip(sent: Sent, arrivals: seq<Arrival>, stores: seq<Messages>, results: seq<FragmentResult>,
                          f: nat, n: nat)
    requires IsRun(sent, arrivals, stores, results) && f <= n < |arrivals|
    requires WithinExpiry(arrivals, arrivals[n].id, f, n + 1)
    requires var id := arrivals[n].id;
             && id in sent
             && (forall j :: 0 <= j <= n ==> Seen(arrivals, id, j) != UpTo(|sent[id].pieces|))
    ensures var id := arrivals[n].id;
            if Seen(arrivals, id, n + 1) == UpTo(|sent[id].pieces|)
            then results[n].Ok? && results[n].value.Some? && IsWhole(results[n].value.value, sent[id])
            else results[n] == Ok(None)
  {
    var a := arrivals[n];
    PresentIsSeen(sent, arrivals, stores, results, a.id, f, n);
    RunKeepsStore(sent, arrivals, stores, results, n);
    ArrivalOutcome(stores[n], a.meta, a.now, stores[n + 1], results[n], sent, a.id, a.index);
    SeenStep(arrivals, a.id, n + 1);
  }

  // ---------------------------------------------------------------- a fragmentation id used twice

  const EARLIER := SplitMessage([[1], [2]], None, None)
  const LATER := SplitMessage([[3], [4]], None, None)

  function PieceOf(m: SplitMessage, i: nat): MessageMeta
    requires i < |m.pieces| <= LAST_FRAGMENT_MASK
  {
    MessageMeta(MSG_DATA, m.comp, m.rel, Some(FragmentationHeader(7, i, i == |m.pieces| - 1)), m.pieces[i], 5)
  }

  const EARLIER_HALF := PartialMessage(7, 0.0, None, [Fragment(0, [1])], None, None)
  const MIXED := MessageMeta(0, None, None, None, [1, 4], 0)

  lemma EarlierHalfIsStored()
    ensures IsProcessed(map[], PieceOf(EARLIER, 0), 0.0, map[7 := EARLIER_HALF], Ok(None))
  {
    var first := PieceOf(EARLIER, 0);
    assert [] + [Fragment(0, [1])] == [Fragment(0, [1])];
    assert WithFragment(Entry(map[], 7, 0.0), first) == EARLIER_HALF;
    assert Stored(map[], first, 0.0) == map[7 := EARLIER_HALF];
  }

  lemma MixedIsJoined()
    ensures Reassembled(PartialMessage(7, 0.0, Some(2), [Fragment(0, [1]), Fragment(1, [4])], None, None)) == Ok(Some(MIXED))
  {
    var q := [Fragment(0, [1]), Fragment(1, [4])];
    assert q[1..] == [Fragment(1, [4])] && q[1..][1..] == [];
    assert SortedByIndex(q) == q;
    assert Joined(q) == [1] + ([4] + Joined([])) == [1, 4];
  }

  /** Two messages under one id at a time: a fragment of each is enough for a message that nobody sent. */
  lemma ReusedIdMixes()
    ensures IsFragment(PieceOf(EARLIER, 0), map[7 := EARLIER], 7, 0) && IsFragment(PieceOf(LATER, 1), map[7 := LATER], 7, 1)
    ensures IsProcessed(map[], PieceOf(EARLIER, 0), 0.0, map[7 := EARLIER_HALF], Ok(None))
    ensures IsProcessed(map[7 := EARLIER_HALF], PieceOf(LATER, 1), 0.0, map[], Ok(Some(MIXED)))
  {
    hide SortedByIndex, Joined;
    EarlierHalfIsStored();
    MixedIsJoined();
    var m, second := map[7 := EARLIER_HALF], PieceOf(LATER, 1);
    var e := PartialMessage(7, 0.0, Some(2), [Fragment(0, [1]), Fragment(1, [4])], None, None);
    assert m[7].fragments + [Fragment(1, [4])] == e.fragments;
    assert WithFragment(Entry(m, 7, 0.0), second) == e;
    var s := Stored(m, second, 0.0);
    assert s == map[7 := e];
    assert SweptUpTo(s, map[], Ok(Some(MIXED)), 0.0, 7);
  }

  /**
    Expiry, in milliseconds: a new fragment that completes no message drops exactly the
    messages whose first fragment came more than ten seconds ago, its own among them; one that
    completes a message drops none that is younger.
   */
  lemma ExpiredAreDropped(m: Messages, meta: MessageMeta, now: Time, m': Messages, r: FragmentResult, sent: Sent,
                          id: u16, i: nat, x: u16)
    requires StoreOk(m, sent) && IsFragment(meta, sent, id, i) && i !in Present(m, id)
    requires IsProcessed(m, meta, now, m', r) && x in m
    ensures r == Ok(None) ==> (x in m' <==> now - m[x].receivedAt <= 10000.0)
    ensures now - m[x].receivedAt <= 10000.0 && x != id ==> x in m'
  {
    assert meta.frag.Some?;
    hide IsComplete, EntryOk, IsFragment, IsSweep, Stored, Present, Finishes, IsWhole;
    ArrivalOutcome(m, meta, now, m', r, sent, id, i);
    RepeatIffPresent(m, meta, now, sent, id, i);
    StoredKeepsTimes(m, meta, now, sent, id, i, x);
    if r == Ok(None) {
      NoneCompleteAfter(Stored(m, meta, now), m', now, id);
    }
  }

  lemma StoredKeepsTimes(m: Messages, meta: MessageMeta, now: Time, sent: Sent, id: u16, i: nat, x: u16)
    requires StoreOk(m, sent) && IsFragment(meta, sent, id, i) && i !in Present(m, id) && x in m
    ensures x in Stored(m, meta, now) && Stored(m, meta, now)[x].receivedAt == m[x].receivedAt
  {
    hide IsComplete, EntryOk;
    StoredEntries(m, meta, now, sent, id, i);
  }

  lemma NoneCompleteAfter(s: Messages, m': Messages, now: Time, id: u16)
    requires IsSweep(s, m', Ok(None), now)
    ensures forall x :: x in s ==> (x in m' <==> !IsStale(s[x], now))
  {
  }

  /** Reassembly fails exactly if the indices are not those from 0 up, without a gap. */
  lemma SkipsAreErrors(e: PartialMessage)
    requires Distinct(e.fragments)
    ensures Reassembled(e) == Err(DefragmentationError) <==> Indices(e.fragments) != UpTo(|e.fragments|)
    ensures Reassembled(e).Err? ==> Reassembled(e) == Err(DefragmentationError)
  {
    var q := SortedByIndex(e.fragments);
    SortingSorts(e.fragments);
    if Indices(e.fragments) == UpTo(|e.fragments|) {
      forall j | 0 <= j < |q|
        ensures q[j].index < |q|
      {
        assert q[j] in e.fragments;
        var k :| 0 <= k < |e.fragments| && e.fragments[k] == q[j];
        assert q[j].index as nat in Indices(e.fragments);
      }
      forall i | 0 <= i < |q|
        ensures q[i].index == i
      {
        FullRange(q, i);
      }
    }
    if NoSkips(q) {
      forall i: nat
        ensures i in Indices(e.fragments) <==> i < |q|
      {
        SortedIndices(e.fragments, q, i);
      }
    }
  }

  lemma SortedIndices(fragments: seq<Fragment>, q: seq<Fragment>, i: nat)
    requires NoSkips(q) && forall g :: g in q <==> g in fragments
    ensures i in Indices(fragments) <==> i < |q|
  {
    if i in Indices(fragments) {
      var k :| 0 <= k < |fragments| && fragments[k].index == i;
      assert fragments[k] in fragments && fragments[k] in q;
      var j :| 0 <= j < |q| && q[j] == fragments[k];
    }
    if i < |q| {
      assert q[i] in q && q[i] in fragments;
      var k :| 0 <= k < |fragments| && fragments[k] == q[i];
      assert fragments[k].index == i;
    }
  }

  /** The ten seconds of a message count from the first of its fragments in the store. */
  lemma FirstFragmentStartsTheClock(m: Messages, meta: MessageMeta, now: Time)
    requires meta.frag.Some?
    ensures var id := meta.frag.value.messageId;
            var e := Stored(m, meta, now)[id];
            e.receivedAt == (if id in m && m[id].fragments != [] then m[id].receivedAt else now)
            && (id !in m || m[id].fragments == [] ==> e.messageId == id)
  {
  }
}
