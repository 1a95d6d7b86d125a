/** One endpoint's transport: sending, the timer handler, and the receive order. */
module UdpTransports {
  import opened Wrappers
  import opened Bytes
  import opened MessageTypes
  import opened ControlMessages
  import opened MessageCodec
  import opened Reliability
  import opened FragmentStores
  import opened Fragmentation
  import opened Compression
  import opened DatagramIterator

  // ---------------------------------------------------------------- the retransmission loop

  /** How many more times the queued messages can be sent, in all. */
  function Budget(q: seq<LocalMessage>): nat {
    if q == [] then 0
    else (if q[0].attempts <= MAX_RETRANSMISSIONS then MAX_RETRANSMISSIONS + 1 - q[0].attempts else 0) + Budget(q[1..])
  }

  lemma {:induction false} BudgetUpdate(q: seq<LocalMessage>, k: nat, m: LocalMessage)
    requires k < |q| && m.attempts == q[k].attempts + 1 && q[k].attempts <= MAX_RETRANSMISSIONS
    ensures Budget(q[k := m]) == Budget(q) - 1
  {
    if k > 0 {
      assert q[k := m][1..] == q[1..][k - 1 := m];
      BudgetUpdate(q[1..], k - 1, m);
    } else {
      assert q[k := m][1..] == q[1..];
    }
  }

  lemma RetransmissionLowersBudget(s: StoreState, now: Time)
    ensures var (t, r) := AfterRetransmit(s, now);
            r.Ok? && r.value.Resend? ==> Budget(t.localUnacked) == Budget(s.localUnacked) - 1
  {
    var k := FirstDue(s, 0, now);
    if k < |s.localUnacked| && s.localUnacked[k].attempts < MAX_RETRANSMISSIONS {
      BudgetUpdate(s.localUnacked, k, AfterRetransmit(s, now).0.localUnacked[k]);
    }
  }

  datatype Resends = Resends(store: StoreState, msgs: seq<DataMessage>, result: Result<(), TransportError>, readings: nat)

  /** The loop that resends while something is due; `clock` gives the successive clock readings. */
  function ResendAll(s: StoreState, clock: nat -> Time, k: nat): Resends
    decreases Budget(s.localUnacked)
  {
    var (t, r) := AfterRetransmit(s, clock(k));
    RetransmissionLowersBudget(s, clock(k));
    match r
    case Err(e) => Resends(t, [], Err(e), k + 1)
    case Ok(Nothing) => Resends(t, [], Ok(()), k + 1)
    case Ok(Resend(msg)) =>
      var rest := ResendAll(t, clock, k + 1);
      rest.(msgs := [msg] + rest.msgs)
  }

  /** The loop as a whole does `all`: what was resent so far, and what is still to be resent. */
  ghost predicate ResendsSoFar(all: Resends, s: StoreState, clock: nat -> Time, k: nat, sent: seq<DataMessage>) {
    all == ResendAll(s, clock, k).(msgs := sent + ResendAll(s, clock, k).msgs)
  }

  lemma RoundResends(all: Resends, s: StoreState, clock: nat -> Time, k: nat, sent: seq<DataMessage>)
    requires ResendsSoFar(all, s, clock, k, sent)
    ensures var (t, r) := AfterRetransmit(s, clock(k));
            match r
            case Err(e) => all == Resends(t, sent, Err(e), k + 1)
            case Ok(Nothing) => all == Resends(t, sent, Ok(()), k + 1)
            case Ok(Resend(msg)) =>
              ResendsSoFar(all, t, clock, k + 1, sent + [msg]) && Budget(t.localUnacked) < Budget(s.localUnacked)
  {
    hide AfterRetransmit, Budget;
    RetransmissionLowersBudget(s, clock(k));
    assert sent + [] == sent;
    var (t, r) := AfterRetransmit(s, clock(k));
    if r.Ok? && r.value.Resend? {
      var rest := ResendAll(t, clock, k + 1).msgs;
      assert sent + ([r.value.msg] + rest) == (sent + [r.value.msg]) + rest;
    }
  }

  ghost predicate NothingDue(s: StoreState, now: Time) {
    forall i :: 0 <= i < |s.localUnacked| ==> !LocalDue(s, i, now)
  }

  /**
    The loop ends whatever the clock shows: it resends no more than the budget allows, and
    when it ends without error nothing is due at its last clock reading.
   */
  lemma {:induction false} ResendAllBounded(s: StoreState, clock: nat -> Time, k: nat)
    ensures var r := ResendAll(s, clock, k);
            && |r.msgs| <= Budget(s.localUnacked)
            && r.readings == k + |r.msgs| + 1
            && |r.store.localUnacked| == |s.localUnacked|
            && (r.result.Ok? ==>
                  && |r.msgs| + Budget(r.store.localUnacked) == Budget(s.localUnacked)
                  && NothingDue(r.store, clock(r.readings - 1)))
    decreases Budget(s.localUnacked)
  {
    var (t, r) := AfterRetransmit(s, clock(k));
    RetransmissionLowersBudget(s, clock(k));
    if r.Ok? && r.value.Resend? {
      ResendAllBounded(t, clock, k + 1);
    }
  }

  // ---------------------------------------------------------------- receiving

  /** What the application gets: a control message, or the payload of a data message. */
  datatype Received = FromControl(msg: ControlMessage) | Payload(data: bytes)

  function FinalMessage(codec: Codec, limit: nat, meta: MessageMeta): (r: Result<Option<Received>, TransportError>)
    ensures r.Ok? ==> r.value.Some? && r.value.value.Payload?
  {
    match FinalData(codec, limit, meta.comp, meta.data)
    case Ok(data) => Ok(Some(Payload(data)))
    case Err(e) => Err(e)
  }

  type Outcome = Result<Option<Received>, TransportError>

  /**
    The header holds all the acks it announces. A decoded one that announces more than eight
    does not: there the program reads behind its array of eight, and what it does is not
    defined. `DecodedIsRelOkIff` tells which datagrams lead there.
   */
  predicate RelOk(meta: MessageMeta) {
    meta.rel.Some? ==> meta.rel.value.Complete()
  }

  /** Of all datagrams that decode, those that announce more than eight acks, and only those, lead to such a header. */
  lemma DecodedIsRelOkIff(data: bytes, udpConnId: bool)
    requires data != [] && DecodedMeta(data, udpConnId).Ok?
    ensures RelOk(DecodedMeta(data, udpConnId).value) <==> AnnouncedAcks(data, udpConnId) <= MAX_ACKS
  {
    hide DecodedMeta, HasBit;
    DecodedAcks(data, udpConnId);
  }

  /** A data message with id 1 and an empty payload that announces nine acks and holds eight. */
  const NINE_ACKS: bytes := [0x90, 1, 0, 9, 0] + [0, 0, 0, 0, 0, 0, 0, 0] + [0, 0, 0, 0, 0, 0, 0, 0]

  /** The decoder accepts it, and hands on a header that the reliable store reads past. */
  lemma NineAcksAreAccepted()
    ensures var r := DecodedMeta(NINE_ACKS, false);
            r.Ok? && !RelOk(r.value) && r.value.rel.value.ackCount == 9 && |r.value.rel.value.acks| == 8
  {
    hide DecodedMeta, DecodeData;
    DataBranch(NINE_ACKS, false);
    PlainReliableDecodes(NINE_ACKS[1..]);
  }

  lemma PlainReliableDecodes(body: bytes)
    requires |body| >= 4 && 4 + 2 * HeldAcks(At16(body, 2)) <= |body|
    ensures var r := DecodeData(0x90, body, 1);
            && r.Ok? && r.value.rel.Some?
            && r.value.rel.value.ackCount == At16(body, 2) && |r.value.rel.value.acks| == HeldAcks(At16(body, 2))
  {
    hide ParseAcks, At16;
  }

  /** A control message is decoded and handed over. */
  function ControlOutcome(meta: MessageMeta): Outcome {
    match Decoded(meta.typ, meta.data)
    case Ok((msg, _)) => Ok(Some(FromControl(msg)))
    case Err(_) => Err(DecodeFailed)
  }

  /** One message of a datagram, when it is not a fragment. */
  function ProcessedOne(codec: Codec, limit: nat, s: StoreState, meta: MessageMeta, now: Time): (StoreState, Outcome)
    requires RelOk(meta)
  {
    if meta.typ != MSG_DATA then (s, ControlOutcome(meta))
    else ProcessedData(codec, limit, s, meta, now)
  }

  /** A data message, whole or reassembled: the reliable layer decides whether it is handed on. */
  function ProcessedData(codec: Codec, limit: nat, s: StoreState, meta: MessageMeta, now: Time): (StoreState, Outcome)
    requires RelOk(meta)
  {
    if meta.rel == None then (s, FinalMessage(codec, limit, meta))
    else
      var (t, r) := AfterIncoming(s, meta, now);
      match r
      case Err(e) => (t, Err(e))
      case Ok(false) => (t, Ok(None))
      case Ok(true) => (t, FinalMessage(codec, limit, meta))
  }

  /** What a fragment leads to: nothing yet, an error, or the reassembled message going on. */
  ghost predicate FragmentOutcome(codec: Codec, limit: nat, s: StoreState, r: FragmentResult, now: Time,
                                  s': StoreState, out: Outcome) {
    match r
    case Err(e) => s' == s && out == Err(e)
    case Ok(None) => s' == s && out == Ok(None)
    case Ok(Some(whole)) => RelOk(whole) && (s', out) == ProcessedData(codec, limit, s, whole, now)
  }

  /** A fragment is stored, and what comes out of the fragment store is processed further. */
  ghost predicate ProcessedFragment(codec: Codec, limit: nat, s: StoreState, m: Messages, meta: MessageMeta, now: Time,
                                    s': StoreState, m': Messages, out: Outcome)
    requires meta.frag.Some?
  {
    exists r :: IsProcessed(m, meta, now, m', r) && FragmentOutcome(codec, limit, s, r, now, s', out)
  }

  predicate IsFragmentMeta(meta: MessageMeta) {
    meta.typ == MSG_DATA && meta.frag.Some?
  }

  ghost predicate PartialRelsOk(m: Messages) {
    forall id :: id in m && m[id].rel.Some? ==> m[id].rel.value.Complete()
  }

  lemma FragmentsKeepRels(m: Messages, meta: MessageMeta, now: Time, m': Messages, r: FragmentResult)
    requires meta.frag.Some? && RelOk(meta) && PartialRelsOk(m) && IsProcessed(m, meta, now, m', r)
    ensures PartialRelsOk(m') && (r.Ok? && r.value.Some? ==> RelOk(r.value.value))
  {
    if !IsRepeat(m, meta, now) {
      var s := Stored(m, meta, now);
      assert PartialRelsOk(s);
      if exists id :: id in s && IsComplete(s[id]) {
        var done :| done in s && SweptUpTo(s, m', r, now, done);
      }
    }
  }

  /** What iterating over a datagram yields at each step: a message's metadata, or why there is none. */
  type ReadItem = Result<MessageMeta, DecodeError>

  predicate AllRelOk(items: seq<ReadItem>) {
    forall i :: 0 <= i < |items| && items[i].Ok? ==> RelOk(items[i].value)
  }

  predicate IsFragmentItem(item: ReadItem) {
    item.Ok? && IsFragmentMeta(item.value)
  }

  predicate NoFragments(items: seq<ReadItem>) {
    forall i :: 0 <= i < |items| ==> !IsFragmentItem(items[i])
  }

  // ---------------------------------------------------------------- what the items of a datagram come to

  /** One message, whatever it is. */
  ghost predicate IsProcessedOne(codec: Codec, limit: nat, s: StoreState, m: Messages, meta: MessageMeta, now: Time,
                                 s': StoreState, m': Messages, out: Outcome)
    requires RelOk(meta)
  {
    if IsFragmentMeta(meta) then ProcessedFragment(codec, limit, s, m, meta, now, s', m', out)
    else (s', out) == ProcessedOne(codec, limit, s, meta, now) && m' == m
  }

  /** What an item comes to once the fragment store has seen it. */
  datatype Resolved =
    | Failure(error: TransportError)      // bytes that do not decode, or fragments that do not fit together
    | Silence                             // padding, or a fragment of a message that stays incomplete
    | ControlArrived(meta: MessageMeta)
    | DataArrived(meta: MessageMeta)      // a data message, whole from the start or reassembled

  predicate ResolvedOk(x: Resolved) {
    x.DataArrived? ==> RelOk(x.meta)
  }

  predicate AllResolvedOk(xs: seq<Resolved>) {
    forall i :: 0 <= i < |xs| ==> ResolvedOk(xs[i])
  }

  /** An item that is not a fragment. */
  function Resolve(item: ReadItem): Resolved {
    if item.Err? then Failure(DecodeFailed)
    else if item.value.typ == MSG_PADDING then Silence
    else if item.value.typ == MSG_DATA then DataArrived(item.value)
    else ControlArrived(item.value)
  }

  function ResolveAll(items: seq<ReadItem>): (xs: seq<Resolved>)
    ensures |xs| == |items| && forall i :: 0 <= i < |items| ==> xs[i] == Resolve(items[i])
  {
    seq(|items|, i requires 0 <= i < |items| => Resolve(items[i]))
  }

  /** A fragment, by what the fragment store returns for it. */
  function Completed(r: FragmentResult): Resolved {
    match r
    case Err(e) => Failure(e)
    case Ok(None) => Silence
    case Ok(Some(whole)) => DataArrived(whole)
  }

  ghost predicate Resolves(m: Messages, item: ReadItem, now: Time, m': Messages, x: Resolved) {
    if IsFragmentItem(item) then exists r :: IsProcessed(m, item.value, now, m', r) && x == Completed(r)
    else m' == m && x == Resolve(item)
  }

  function ProcessedResolved(codec: Codec, limit: nat, s: StoreState, x: Resolved, now: Time): (StoreState, Outcome)
    requires ResolvedOk(x)
  {
    match x
    case Failure(e) => (s, Err(e))
    case Silence => (s, Ok(None))
    case ControlArrived(meta) => (s, ControlOutcome(meta))
    case DataArrived(meta) => ProcessedData(codec, limit, s, meta, now)
  }

  /** One step of the iteration, whatever it yields. */
  ghost predicate IsProcessedItem(codec: Codec, limit: nat, s: StoreState, m: Messages, item: ReadItem, now: Time,
                                  s': StoreState, m': Messages, out: Outcome, x: Resolved)
  {
    Resolves(m, item, now, m', x) && ResolvedOk(x) && (s', out) == ProcessedResolved(codec, limit, s, x, now)
  }

  /** Processing a message is processing what it comes to. */
  lemma OneResolves(codec: Codec, limit: nat, s: StoreState, m: Messages, meta: MessageMeta, now: Time,
                    s': StoreState, m': Messages, out: Outcome) returns (x: Resolved)
    requires RelOk(meta) && meta.typ != MSG_PADDING && IsProcessedOne(codec, limit, s, m, meta, now, s', m', out)
    ensures IsProcessedItem(codec, limit, s, m, Ok(meta), now, s', m', out, x)
  {
    hide ProcessedData, IsProcessed, Decoded;
    if IsFragmentMeta(meta) {
      var r :| IsProcessed(m, meta, now, m', r) && FragmentOutcome(codec, limit, s, r, now, s', out);
      x := Completed(r);
    } else {
      x := Resolve(Ok(meta));
    }
  }

  function HandedBy(out: Outcome): seq<Received> {
    if out.Ok? && out.value.Some? then [out.value.value] else []
  }

  function ErrorOf(out: Outcome): Option<TransportError> {
    if out.Err? then Some(out.error) else None
  }

  datatype Batch = Batch(store: StoreState, out: seq<Received>, error: Option<TransportError>)

  /** The items of one datagram in turn, up to the first error. */
  function ProcessedAll(codec: Codec, limit: nat, s: StoreState, xs: seq<Resolved>, now: Time): Batch
    requires AllResolvedOk(xs)
    decreases |xs|
  {
    if xs == [] then Batch(s, [], None)
    else
      var (t, r) := ProcessedResolved(codec, limit, s, xs[0], now);
      if r.Err? then Batch(t, [], Some(r.error))
      else
        var rest := ProcessedAll(codec, limit, t, xs[1..], now);
        rest.(out := HandedBy(r) + rest.out)
  }

  lemma HandedInTurn(a: seq<Received>, b: seq<Received>, c: seq<Received>)
    ensures (a + b) + c == a + (b + c) && [] + c == c && c + [] == c
  {
  }

  /** One item more at the end. */
  lemma {:induction false} OneMoreProcessed(codec: Codec, limit: nat, s: StoreState, xs: seq<Resolved>, x: Resolved,
                                            now: Time)
    requires AllResolvedOk(xs) && ResolvedOk(x) && ProcessedAll(codec, limit, s, xs, now).error == None
    ensures AllResolvedOk(xs + [x])
    ensures var b := ProcessedAll(codec, limit, s, xs, now);
            var (t, r) := ProcessedResolved(codec, limit, b.store, x, now);
            ProcessedAll(codec, limit, s, xs + [x], now) == Batch(t, b.out + HandedBy(r), ErrorOf(r))
    decreases |xs|
  {
    hide ProcessedResolved, ResolvedOk;
    var all := xs + [x];
    if xs == [] {
      assert all[0] == x && all[1..] == [];
      HandedInTurn([], [], HandedBy(ProcessedResolved(codec, limit, s, x, now).1));
    } else {
      assert all[0] == xs[0] && all[1..] == xs[1..] + [x];
      var (u, first) := ProcessedResolved(codec, limit, s, xs[0], now);
      OneMoreProcessed(codec, limit, u, xs[1..], x, now);
      var b := ProcessedAll(codec, limit, u, xs[1..], now);
      HandedInTurn(HandedBy(first), b.out, HandedBy(ProcessedResolved(codec, limit, b.store, x, now).1));
      HandedInTurn([], [], HandedBy(first));
    }
  }

  /** What follows an error plays no part. */
  lemma {:induction false} ErrorEnds(codec: Codec, limit: nat, s: StoreState, xs: seq<Resolved>, more: seq<Resolved>,
                                     now: Time)
    requires AllResolvedOk(xs) && AllResolvedOk(xs + more) && ProcessedAll(codec, limit, s, xs, now).error.Some?
    ensures ProcessedAll(codec, limit, s, xs + more, now) == ProcessedAll(codec, limit, s, xs, now)
    decreases |xs|
  {
    hide ProcessedResolved, ResolvedOk;
    var all := xs + more;
    assert all[0] == xs[0] && all[1..] == xs[1..] + more;
    var (u, first) := ProcessedResolved(codec, limit, s, xs[0], now);
    if first.Ok? {
      ErrorEnds(codec, limit, u, xs[1..], more, now);
    }
  }

  // ---------------------------------------------------------------- reading a datagram

  /** The first items in turn come to `xs`, while the fragment store goes through `ms`. */
  ghost predicate Resolution(ms: seq<Messages>, items: seq<ReadItem>, now: Time, xs: seq<Resolved>) {
    && |xs| <= |items| && |ms| == |xs| + 1 && AllResolvedOk(xs)
    && forall i :: 0 <= i < |xs| ==> Resolves(ms[i], items[i], now, ms[i + 1], xs[i])
  }

  /** All items, or those up to the first error, which is the last of them. */
  ghost predicate ReadsThrough(codec: Codec, limit: nat, s: StoreState, items: seq<ReadItem>, xs: seq<Resolved>,
                               now: Time)
    requires AllResolvedOk(xs)
  {
    if ProcessedAll(codec, limit, s, xs, now).error == None then |xs| == |items|
    else xs != [] && ProcessedAll(codec, limit, s, xs[..|xs| - 1], now).error == None
  }

  /**
    What a batch leads to. The first message handed over is returned and the others become
    pending; after an error the error is returned in its place, and the first is lost.
   */
  predicate BatchLeads(b: Batch, s': StoreState, pending: seq<Received>, out: Outcome) {
    && s' == b.store && pending == (if b.out == [] then [] else b.out[1..])
    && out == (if b.error.Some? then Err(b.error.value) else Ok(if b.out == [] then None else Some(b.out[0])))
  }

  ghost predicate ReadsAs(codec: Codec, limit: nat, s: StoreState, m: Messages, items: seq<ReadItem>, now: Time,
                          s': StoreState, m': Messages, pending: seq<Received>, out: Outcome,
                          xs: seq<Resolved>, ms: seq<Messages>)
  {
    && Resolution(ms, items, now, xs) && ms[0] == m && ms[|xs|] == m'
    && ReadsThrough(codec, limit, s, items, xs, now)
    && BatchLeads(ProcessedAll(codec, limit, s, xs, now), s', pending, out)
  }

  /** Reading a datagram: its items come to something, and that is processed in turn up to the first error. */
  ghost predicate ReadsTo(codec: Codec, limit: nat, s: StoreState, m: Messages, items: seq<ReadItem>, now: Time,
                          s': StoreState, m': Messages, pending: seq<Received>, out: Outcome)
  {
    exists xs, ms :: ReadsAs(codec, limit, s, m, items, now, s', m', pending, out, xs, ms)
  }

  /**
    All that one attempt to receive may do: messages pending from an earlier datagram come
    first, then the delayed queue, and only then the socket, which delivers `datagram`.
   */
  ghost predicate Receives(codec: Codec, limit: nat, s: StoreState, m: Messages, waiting: seq<Received>,
                           datagram: bytes,
                           server: bool, now: Time, s': StoreState, m': Messages, waiting': seq<Received>, r: Outcome)
  {
    if waiting != [] then s' == s && m' == m && waiting' == waiting[1..] && r == Ok(Some(waiting[0]))
    else if s.delayed != [] then
      s' == PopDelayed(s).0 && m' == m && waiting' == [] && r == FinalMessage(codec, limit, s.delayed[0])
    else if datagram == [] then s' == s && m' == m && waiting' == [] && r == Err(ZeroLengthMessage)
    else ReadsTo(codec, limit, s, m, Iterate(datagram, 0, server), now, s', m', waiting', r)
  }

  lemma OneMoreResolved(ms: seq<Messages>, items: seq<ReadItem>, now: Time, xs: seq<Resolved>, m': Messages,
                        x: Resolved)
    requires Resolution(ms, items, now, xs) && |xs| < |items| && ResolvedOk(x)
    requires Resolves(ms[|xs|], items[|xs|], now, m', x)
    ensures Resolution(ms + [m'], items, now, xs + [x])
  {
    hide Resolves, ResolvedOk;
  }

  lemma {:induction false} NoFragmentsResolve(ms: seq<Messages>, items: seq<ReadItem>, now: Time, xs: seq<Resolved>,
                                              n: nat)
    requires NoFragments(items) && Resolution(ms, items, now, xs) && n <= |xs|
    ensures ms[n] == ms[0] && xs[..n] == ResolveAll(items)[..n]
  {
    if n > 0 {
      NoFragmentsResolve(ms, items, now, xs, n - 1);
      assert Resolves(ms[n - 1], items[n - 1], now, ms[n], xs[n - 1]);
      assert xs[..n] == xs[..n - 1] + [xs[n - 1]];
      assert ResolveAll(items)[..n] == ResolveAll(items)[..n - 1] + [Resolve(items[n - 1])];
    }
  }

  lemma ResolvedAllOk(items: seq<ReadItem>)
    requires AllRelOk(items)
    ensures AllResolvedOk(ResolveAll(items))
  {
  }

  /** Without fragments, what a datagram leads to is a function of it. */
  lemma ReadsWithoutFragments(codec: Codec, limit: nat, s: StoreState, m: Messages, items: seq<ReadItem>, now: Time,
                              s': StoreState, m': Messages, pending: seq<Received>, out: Outcome)
    requires AllRelOk(items) && NoFragments(items)
    requires ReadsTo(codec, limit, s, m, items, now, s', m', pending, out)
    ensures AllResolvedOk(ResolveAll(items))
    ensures m' == m && BatchLeads(ProcessedAll(codec, limit, s, ResolveAll(items), now), s', pending, out)
  {
    hide ProcessedAll, Resolve;
    var xs, ms :| ReadsAs(codec, limit, s, m, items, now, s', m', pending, out, xs, ms);
    ResolvedAllOk(items);
    NoFragmentsResolve(ms, items, now, xs, |xs|);
    var all := ResolveAll(items);
    assert xs == all[..|xs|] && all == xs + all[|xs|..];
    if ProcessedAll(codec, limit, s, xs, now).error.Some? {
      ErrorEnds(codec, limit, s, xs, all[|xs|..], now);
    } else {
      assert xs == all;
    }
  }

  /** A datagram with a single fragment: nothing becomes pending, and the fragment's outcome is returned. */
  lemma ReadsSingleFragment(codec: Codec, limit: nat, s: StoreState, m: Messages, meta: MessageMeta, now: Time,
                            s': StoreState, m': Messages, pending: seq<Received>, out: Outcome)
    requires RelOk(meta) && IsFragmentMeta(meta)
    requires ReadsTo(codec, limit, s, m, [Ok(meta)], now, s', m', pending, out)
    ensures pending == [] && ProcessedFragment(codec, limit, s, m, meta, now, s', m', out)
  {
    hide ProcessedData, IsProcessed;
    var items: seq<ReadItem> := [Ok(meta)];
    var xs, ms :| ReadsAs(codec, limit, s, m, items, now, s', m', pending, out, xs, ms);
    assert |xs| == 1 && xs == [xs[0]];
    assert Resolves(ms[0], items[0], now, ms[1], xs[0]) && ResolvedOk(xs[0]);
    var r :| IsProcessed(m, meta, now, m', r) && xs[0] == Completed(r);
    OnlyProcessed(codec, limit, s, xs[0], now);
    hide ProcessedAll;
    assert FragmentOutcome(codec, limit, s, r, now, s', out);
  }

  lemma OnlyProcessed(codec: Codec, limit: nat, s: StoreState, x: Resolved, now: Time)
    requires ResolvedOk(x)
    ensures AllResolvedOk([x])
    ensures var (t, r) := ProcessedResolved(codec, limit, s, x, now);
            ProcessedAll(codec, limit, s, [x], now) == Batch(t, HandedBy(r), ErrorOf(r))
  {
    hide ProcessedResolved;
    assert [] + [x] == [x];
    OneMoreProcessed(codec, limit, s, [], x, now);
    HandedInTurn([], [], HandedBy(ProcessedResolved(codec, limit, s, x, now).1));
  }

  /** While reading: the items so far caused no error, and what they handed over is here. */
  ghost predicate HasRead(codec: Codec, limit: nat, s: StoreState, m: Messages, items: seq<ReadItem>, now: Time,
                          s': StoreState, m': Messages, handed: seq<Received>, xs: seq<Resolved>, ms: seq<Messages>)
  {
    && Resolution(ms, items, now, xs) && ms[0] == m && ms[|xs|] == m'
    && ProcessedAll(codec, limit, s, xs, now) == Batch(s', handed, None)
  }

  lemma ReadOne(codec: Codec, limit: nat, s: StoreState, m: Messages, items: seq<ReadItem>, now: Time, s1: StoreState,
                m1: Messages, handed: seq<Received>, xs: seq<Resolved>, ms: seq<Messages>,
                s2: StoreState, m2: Messages, out: Outcome, x: Resolved)
    requires HasRead(codec, limit, s, m, items, now, s1, m1, handed, xs, ms) && |xs| < |items|
    requires IsProcessedItem(codec, limit, s1, m1, items[|xs|], now, s2, m2, out, x)
    ensures out.Ok? ==> HasRead(codec, limit, s, m, items, now, s2, m2, handed + HandedBy(out), xs + [x], ms + [m2])
    ensures out.Err? ==> ReadsTo(codec, limit, s, m, items, now, s2, m2, if handed == [] then [] else handed[1..], out)
  {
    hide ProcessedResolved, Resolves, ResolvedOk, ProcessedAll;
    OneMoreResolved(ms, items, now, xs, m2, x);
    OneMoreProcessed(codec, limit, s, xs, x, now);
    assert (xs + [x])[..|xs|] == xs;
    if out.Err? {
      HandedInTurn([], [], handed);
      assert ReadsAs(codec, limit, s, m, items, now, s2, m2, if handed == [] then [] else handed[1..], out, xs + [x],
                     ms + [m2]);
    }
  }

  lemma ReadEverything(codec: Codec, limit: nat, s: StoreState, m: Messages, items: seq<ReadItem>, now: Time,
                       s': StoreState,
                       m': Messages, handed: seq<Received>, xs: seq<Resolved>, ms: seq<Messages>)
    requires HasRead(codec, limit, s, m, items, now, s', m', handed, xs, ms) && |xs| == |items|
    ensures ReadsTo(codec, limit, s, m, items, now, s', m', if handed == [] then [] else handed[1..],
                    Ok(if handed == [] then None else Some(handed[0])))
  {
    hide Resolution, ProcessedAll;
    assert ReadsAs(codec, limit, s, m, items, now, s', m', if handed == [] then [] else handed[1..],
                   Ok(if handed == [] then None else Some(handed[0])), xs, ms);
  }

  // ---------------------------------------------------------------- datagrams of several messages

  /** The fragmentation id after a message was sent. */
  function FragIdAfter(msg: DataMessage, mtu: nat, fragId: u16): u16 {
    if UnfragmentedSize(msg) <= mtu then fragId else (fragId + 1) % 0x1_0000
  }

  function FragIdAfterAll(msgs: seq<DataMessage>, mtu: nat, fragId: u16): u16
    decreases |msgs|
  {
    if msgs == [] then fragId else FragIdAfterAll(msgs[1..], mtu, FragIdAfter(msgs[0], mtu, fragId))
  }

  ghost predicate AllHaveRoom(msgs: seq<DataMessage>, mtu: nat) {
    forall i :: 0 <= i < |msgs| ==> RoomForPayload(msgs[i], mtu)
  }

  /** The datagrams of messages sent one after the other, each fragmented one under the next id. */
  ghost function AllDatagrams(msgs: seq<DataMessage>, connectionId: u64, mtu: nat, fragId: u16): seq<bytes>
    requires AllHaveRoom(msgs, mtu)
    decreases |msgs|
  {
    if msgs == [] then []
    else MessageDatagrams(msgs[0], connectionId, mtu, fragId)
         + AllDatagrams(msgs[1..], connectionId, mtu, FragIdAfter(msgs[0], mtu, fragId))
  }

  /** What went out for the messages, in order, while the fragmentation id went on from `fragId` to `next`. */
  ghost predicate WentOut(msgs: seq<DataMessage>, datagrams: seq<bytes>, connectionId: u64, mtu: nat, fragId: u16,
                          next: u16) {
    && AllHaveRoom(msgs, mtu)
    && datagrams == AllDatagrams(msgs, connectionId, mtu, fragId)
    && next == FragIdAfterAll(msgs, mtu, fragId)
  }

  lemma {:induction false} OneMoreWentOut(msgs: seq<DataMessage>, datagrams: seq<bytes>, connectionId: u64, mtu: nat,
                                         fragId: u16, next: u16, msg: DataMessage)
    requires WentOut(msgs, datagrams, connectionId, mtu, fragId, next) && RoomForPayload(msg, mtu)
    ensures WentOut(msgs + [msg], datagrams + MessageDatagrams(msg, connectionId, mtu, next), connectionId, mtu, fragId,
                    FragIdAfter(msg, mtu, next))
    decreases |msgs|
  {
    hide MessageDatagrams, RoomForPayload, FragIdAfter;
    var all := msgs + [msg];
    if msgs == [] {
      assert all[0] == msg && all[1..] == [] && AllHaveRoom(all, mtu) && AllHaveRoom([], mtu);
      assert FragIdAfterAll(all, mtu, fragId) == FragIdAfterAll([], mtu, FragIdAfter(msg, mtu, fragId));
      assert AllDatagrams(all, connectionId, mtu, fragId)
          == MessageDatagrams(msg, connectionId, mtu, fragId)
             + AllDatagrams([], connectionId, mtu, FragIdAfter(msg, mtu, fragId));
      assert MessageDatagrams(msg, connectionId, mtu, next) + [] == [] + MessageDatagrams(msg, connectionId, mtu, next);
    } else {
      assert all[1..] == msgs[1..] + [msg];
      var second := FragIdAfter(msgs[0], mtu, fragId);
      OneMoreWentOut(msgs[1..], AllDatagrams(msgs[1..], connectionId, mtu, second), connectionId, mtu, second, next, msg);
    }
  }

  // ---------------------------------------------------------------- what sending does to the store

  /** The header gets the waiting acks and, for a reliable message, the next id, under which the message is queued. */
  ghost predicate SendsData(s: StoreState, reliable: bool, now: Time, s': StoreState, r: Result<(), TransportError>,
                            msg: DataMessage) {
    var (t, rel) := AfterTakingAcks(s, 0);
    if reliable then
      var (u, id) := TakeMessageId(t);
      && msg.rel == (if id != 0 || rel.ackCount > 0 then Some(rel.(messageId := id)) else None)
      && (s', r) == (if id != 0 then AfterPush(u, msg, now) else (u, Ok(())))
    else
      && msg.rel == (if rel.ackCount > 0 then Some(rel) else None)
      && s' == t && r == Ok(())
  }

  /** Everything due is resent; then, if there was no error and an ack is urgent, waiting acks go out on their own. */
  ghost predicate HandlesTimer(s: StoreState, clock: nat -> Time, s': StoreState, r: Result<(), TransportError>,
                               sent: seq<DataMessage>) {
    var resends := ResendAll(s, clock, 0);
    if resends.result.Err? then r == resends.result && sent == resends.msgs && s' == resends.store
    else
      r == Ok(()) &&
      if HasUrgentAcks(resends.store, clock(resends.readings)) then
        var (t, rel) := AfterTakingAcks(resends.store, 0);
        s' == t && sent == resends.msgs + [DataMessage([], None, Some(rel))]
      else s' == resends.store && sent == resends.msgs
  }

  // ---------------------------------------------------------------- the class

  /** Headers take at most 24 bytes, and 13 more go to the fixed and the fragmentation header. */
  const MIN_MTU := 38

  lemma HeadersLeaveRoom(msg: DataMessage, mtu: nat)
    requires MessageOk(msg) && mtu >= MIN_MTU
    ensures RoomForPayload(msg, mtu)
  {
  }

  ghost predicate Sendable(q: seq<LocalMessage>) {
    forall m :: m in q ==> MessageOk(m.msg)
  }

  lemma ResendKeepsSendable(s: StoreState, now: Time)
    requires Sendable(s.localUnacked)
    ensures var (t, r) := AfterRetransmit(s, now);
            Sendable(t.localUnacked) && (r.Ok? && r.value.Resend? ==> MessageOk(r.value.msg))
  {
    var k := FirstDue(s, 0, now);
    if k < |s.localUnacked| {
      assert s.localUnacked[k] in s.localUnacked;
      var q := AfterRetransmit(s, now).0.localUnacked;
      assert forall m :: m in q ==> m == q[k] || m in s.localUnacked;
    }
  }

  lemma PushKeepsSendable(s: StoreState, msg: DataMessage, now: Time)
    requires Sendable(s.localUnacked) && MessageOk(msg)
    ensures msg.rel.Some? ==> Sendable(AfterPush(s, msg, now).0.localUnacked)
  {
  }

  class UdpTransport {
    const relStore: ReliableStore
    const fragStore: FragmentStore
    const mtu: nat
    const codec: Codec
    var connectionId: u64
    var messageSizeLimit: nat
    var pendingMessages: seq<Received>

    ghost predicate Valid()
      reads this, relStore, fragStore
    {
      mtu >= MIN_MTU && Sendable(relStore.localUnacked) && PartialRelsOk(fragStore.messages)
    }

    constructor (codec: Codec, messageSizeLimit: nat)
      ensures Valid() && mtu == UDP_SAFE_MTU && this.codec == codec && pendingMessages == []
      ensures relStore.State() == InitialState && fragStore.messages == map[]
      ensures fresh(relStore) && fresh(fragStore)
    {
      relStore := new ReliableStore();
      fragStore := new FragmentStore();
      mtu, connectionId, pendingMessages := UDP_SAFE_MTU, 0, [];
      this.codec, this.messageSizeLimit := codec, messageSizeLimit;
    }

    /** The datagrams of a message: one if it fits, else its fragments under the next id. */
    method BuildDatagrams(msg: DataMessage) returns (datagrams: seq<bytes>)
      requires MessageOk(msg) && RoomForPayload(msg, mtu)
      modifies fragStore
      ensures datagrams == MessageDatagrams(msg, connectionId, mtu, old(fragStore.nextMessageId))
      ensures fragStore.messages == old(fragStore.messages)
      ensures fragStore.nextMessageId == FragIdAfter(msg, mtu, old(fragStore.nextMessageId))
    {
      hide DataHeader, FragmentDatagrams, Pieces;
      if UnfragmentedSize(msg) <= mtu {
        var writer := new ByteWriter();
        EncodeDataHeader(writer, msg, connectionId, false);
        writer.WriteBytes(msg.data);
        assert [] + DataHeader(msg, connectionId, false) == DataHeader(msg, connectionId, false);
        datagrams := [writer.written];
      } else {
        var fragMessageId := fragStore.NextMessageId();
        datagrams := BuildFragments(msg, connectionId, mtu, fragMessageId);
      }
    }

    /** Sends a data message whose headers are set; a first reliable send is queued for retransmission. */
    method DoSendUnfragmentedData(msg: DataMessage, retransmission: bool, now: Time)
      returns (r: Result<(), TransportError>, datagrams: seq<bytes>)
      requires Valid() && MessageOk(msg)
      modifies relStore, fragStore
      ensures Valid() && RoomForPayload(msg, mtu)
      ensures datagrams == MessageDatagrams(msg, connectionId, mtu, old(fragStore.nextMessageId))
      ensures fragStore.messages == old(fragStore.messages)
      ensures fragStore.nextMessageId == FragIdAfter(msg, mtu, old(fragStore.nextMessageId))
      ensures (relStore.State(), r)
              == if msg.rel.Some? && msg.rel.value.messageId != 0 && !retransmission
                 then AfterPush(old(relStore.State()), msg, now) else (old(relStore.State()), Ok(()))
    {
      HeadersLeaveRoom(msg, mtu);
      PushKeepsSendable(relStore.State(), msg, now);
      hide MessageDatagrams, AfterPush, Sendable, RoomForPayload, PartialRelsOk;
      var isReliable := msg.rel.Some? && msg.rel.value.messageId != 0 && !retransmission;
      datagrams := BuildDatagrams(msg);
      r := Ok(());
      if isReliable {
        r := relStore.PushLocalUnacked(msg, now);
      }
    }

    /** Attaches waiting acks and, for a reliable message, the next id; then sends. */
    method SendData(content: DataMessage, reliable: bool, now: Time)
      returns (r: Result<(), TransportError>, msg: DataMessage, datagrams: seq<bytes>)
      requires Valid() && content.rel == None
      modifies relStore, fragStore
      ensures Valid() && MessageOk(msg) && RoomForPayload(msg, mtu)
      ensures msg.data == content.data && msg.comp == content.comp
      ensures datagrams == MessageDatagrams(msg, connectionId, mtu, old(fragStore.nextMessageId))
      ensures fragStore.nextMessageId == FragIdAfter(msg, mtu, old(fragStore.nextMessageId))
      ensures fragStore.messages == old(fragStore.messages)
      ensures SendsData(old(relStore.State()), reliable, now, relStore.State(), r, msg)
    {
      var relHdr := relStore.SetOutgoingAcks(0);
      if reliable {
        var id := relStore.NextMessageId();
        relHdr := relHdr.(messageId := id);
      }
      msg := content.(rel := if relHdr.messageId != 0 || relHdr.ackCount > 0 then Some(relHdr) else None);
      r, datagrams := DoSendUnfragmentedData(msg, false, now);
    }

    /** Resends while something is due, each message as its datagrams, fragmented ones under ids of their own. */
    method ResendDue(clock: nat -> Time)
      returns (r: Result<(), TransportError>, sent: seq<DataMessage>, datagrams: seq<bytes>, readings: nat)
      requires Valid()
      modifies relStore, fragStore
      ensures Valid()
      ensures ResendAll(old(relStore.State()), clock, 0) == Resends(relStore.State(), sent, r, readings)
      ensures WentOut(sent, datagrams, connectionId, mtu, old(fragStore.nextMessageId), fragStore.nextMessageId)
      ensures fragStore.messages == old(fragStore.messages)
    {
      assert WentOut([], [], connectionId, mtu, fragStore.nextMessageId, fragStore.nextMessageId);
      ghost var all, fragId := ResendAll(relStore.State(), clock, 0), fragStore.nextMessageId;
      assert [] + all.msgs == all.msgs;
      assert ResendsSoFar(all, relStore.State(), clock, 0, []);
      hide MessageDatagrams, RoomForPayload, FragIdAfter, AfterPush, AfterRetransmit, WentOut, ResendAll, ResendsSoFar,
           Sendable;
      readings, sent, datagrams := 0, [], [];
      while true
        invariant Valid() && fragStore.messages == old(fragStore.messages)
        invariant ResendsSoFar(all, relStore.State(), clock, readings, sent)
        invariant WentOut(sent, datagrams, connectionId, mtu, fragId, fragStore.nextMessageId)
        decreases Budget(relStore.localUnacked)
      {
        RoundResends(all, relStore.State(), clock, readings, sent);
        ResendKeepsSendable(relStore.State(), clock(readings));
        ghost var next := fragStore.nextMessageId;
        var due := relStore.MaybeRetransmit(clock(readings));
        readings := readings + 1;
        if due.Err? {
          r := Err(due.error);
          return;
        }
        if due.value.Nothing? {
          r := Ok(());
          return;
        }
        var ignored, ds := DoSendUnfragmentedData(due.value.msg, true, clock(readings));
        OneMoreWentOut(sent, datagrams, connectionId, mtu, fragId, next, due.value.msg);
        sent, datagrams := sent + [due.value.msg], datagrams + ds;
      }
    }

    /**
      Resends what is due, then acknowledges what is urgent; each message goes out as its
      datagrams. Keepalives are not modelled.
     */
    method HandleTimerExpiry(clock: nat -> Time)
      returns (r: Result<(), TransportError>, sent: seq<DataMessage>, datagrams: seq<bytes>)
      requires Valid()
      modifies relStore, fragStore
      ensures Valid()
      ensures HandlesTimer(old(relStore.State()), clock, relStore.State(), r, sent)
      ensures WentOut(sent, datagrams, connectionId, mtu, old(fragStore.nextMessageId), fragStore.nextMessageId)
      ensures fragStore.messages == old(fragStore.messages)
    {
      hide MessageDatagrams, RoomForPayload, FragIdAfter, AfterPush, WentOut, ResendAll, HasUrgentAcks;
      var readings;
      r, sent, datagrams, readings := ResendDue(clock);
      if r.Err? {
        return;
      }
      var urgent := relStore.HasUrgentOutgoingAcks(clock(readings));
      if urgent {
        var relHdr := relStore.SetOutgoingAcks(0);
        var msg := DataMessage([], None, Some(relHdr));
        ghost var next := fragStore.nextMessageId;
        var ignored, ds := DoSendUnfragmentedData(msg, false, clock(readings));
        OneMoreWentOut(sent, datagrams, connectionId, mtu, old(fragStore.nextMessageId), next, msg);
        sent, datagrams := sent + [msg], datagrams + ds;
      }
      r := Ok(());
    }

    /**
      One attempt to receive: messages pending from an earlier datagram first, then the
      delayed queue, and only then the socket, which delivers `datagram`. Of several
      messages in it the first is returned and the others wait.
     */
    method ReceiveMessageInner(datagram: bytes, now: Time) returns (r: Result<Option<Received>, TransportError>)
      requires Valid() && AllRelOk(Iterate(datagram, 0, false))
      modifies this`pendingMessages, relStore, fragStore
      ensures PartialRelsOk(fragStore.messages)
      ensures Receives(codec, messageSizeLimit, old(relStore.State()), old(fragStore.messages), old(pendingMessages),
                       datagram, false, now, relStore.State(), fragStore.messages, pendingMessages, r)
    {
      if pendingMessages != [] {
        r := Ok(Some(pendingMessages[0]));
        pendingMessages := pendingMessages[1..];
        return;
      }
      var delayed := relStore.PopDelayedMessage();
      if delayed.Some? {
        r := FinalMessage(codec, messageSizeLimit, delayed.value);
        return;
      }
      if datagram == [] {
        return Err(ZeroLengthMessage);
      }
      var items := IterateAll(datagram, false);
      r := ReadDatagram(items, now);
    }

    /** Processes the messages of one datagram; the first is returned, the others become pending. */
    method ReadDatagram(items: seq<ReadItem>, now: Time) returns (r: Result<Option<Received>, TransportError>)
      requires pendingMessages == [] && PartialRelsOk(fragStore.messages) && AllRelOk(items)
      modifies this`pendingMessages, relStore, fragStore
      ensures PartialRelsOk(fragStore.messages)
      ensures ReadsTo(codec, messageSizeLimit, old(relStore.State()), old(fragStore.messages), items, now,
                      relStore.State(), fragStore.messages, pendingMessages, r)
    {
      var toReturn: Option<Received> := None;
      ghost var s, m := relStore.State(), fragStore.messages;
      ghost var xs: seq<Resolved>, ms := [], [m];
      assert HasRead(codec, messageSizeLimit, s, m, items, now, s, m, [], xs, ms);
      hide HasRead, ReadsTo, IsProcessedItem, PartialRelsOk, ReliableStore.State;
      for i := 0 to |items|
        invariant PartialRelsOk(fragStore.messages)
        invariant toReturn == None ==> pendingMessages == []
        invariant |xs| == i
        invariant HasRead(codec, messageSizeLimit, s, m, items, now, relStore.State(), fragStore.messages,
                          Handed(toReturn, pendingMessages), xs, ms)
      {
        ghost var before, s1, m1 := Handed(toReturn, pendingMessages), relStore.State(), fragStore.messages;
        ghost var x;
        var out;
        out, x := ProcessItem(items[i], now);
        ReadOne(codec, messageSizeLimit, s, m, items, now, s1, m1, before, xs, ms, relStore.State(),
                fragStore.messages, out, x);
        if out.Err? {
          return out;
        }
        xs, ms := xs + [x], ms + [fragStore.messages];
        if out.value.Some? {
          if toReturn == None {
            toReturn := out.value;
          } else {
            pendingMessages := pendingMessages + [out.value.value];
          }
        }
        assert Handed(toReturn, pendingMessages) == before + HandedBy(out);
      }
      ReadEverything(codec, messageSizeLimit, s, m, items, now, relStore.State(), fragStore.messages,
                     Handed(toReturn, pendingMessages), xs, ms);
      r := Ok(toReturn);
    }

    /** Undecodable bytes end the reading, padding is passed over. */
    method ProcessItem(item: ReadItem, now: Time) returns (r: Result<Option<Received>, TransportError>,
                       ghost x: Resolved)
      requires (item.Ok? ==> RelOk(item.value)) && PartialRelsOk(fragStore.messages)
      modifies relStore, fragStore
      ensures PartialRelsOk(fragStore.messages)
      ensures IsProcessedItem(codec, messageSizeLimit, old(relStore.State()), old(fragStore.messages), item, now,
                              relStore.State(), fragStore.messages, r, x)
    {
      hide ProcessedOne, ProcessedFragment, PartialRelsOk;
      if item.Err? || item.value.typ == MSG_PADDING {
        x := Resolve(item);
        r := if item.Err? then Err(DecodeFailed) else Ok(None);
        return;
      }
      ghost var s, m := relStore.State(), fragStore.messages;
      r := ProcessOne(item.value, now);
      x := OneResolves(codec, messageSizeLimit, s, m, item.value, now, relStore.State(), fragStore.messages, r);
    }

    method ProcessOne(meta: MessageMeta, now: Time) returns (r: Result<Option<Received>, TransportError>)
      requires RelOk(meta) && PartialRelsOk(fragStore.messages)
      modifies relStore, fragStore
      ensures PartialRelsOk(fragStore.messages)
      ensures IsProcessedOne(codec, messageSizeLimit, old(relStore.State()), old(fragStore.messages), meta, now,
                             relStore.State(), fragStore.messages, r)
    {
      if meta.typ != MSG_DATA {
        var decoded := DecodeWithMeta(meta.typ, meta.data);
        return if decoded.Ok? then Ok(Some(FromControl(decoded.value.0))) else Err(DecodeFailed);
      }
      var whole := meta;
      if meta.frag.Some? {
        var recvf := fragStore.ProcessFragment(meta, now);
        FragmentsKeepRels(old(fragStore.messages), meta, now, fragStore.messages, recvf);
        if recvf.Err? {
          r := Err(recvf.error);
          assert FragmentOutcome(codec, messageSizeLimit, old(relStore.State()), recvf, now, relStore.State(), r);
          return;
        }
        if recvf.value == None {
          r := Ok(None);
          assert FragmentOutcome(codec, messageSizeLimit, old(relStore.State()), recvf, now, relStore.State(), r);
          return;
        }
        whole := recvf.value.value;
        r := ProcessData(whole, now);
        assert FragmentOutcome(codec, messageSizeLimit, old(relStore.State()), recvf, now, relStore.State(), r);
      } else {
        r := ProcessData(whole, now);
      }
    }

    method ProcessData(meta: MessageMeta, now: Time) returns (r: Result<Option<Received>, TransportError>)
      requires RelOk(meta)
      modifies relStore
      ensures (relStore.State(), r) == ProcessedData(codec, messageSizeLimit, old(relStore.State()), meta, now)
    {
      if meta.rel.Some? {
        var accepted := relStore.HandleIncoming(meta, now);
        if accepted.Err? {
          return Err(accepted.error);
        }
        if !accepted.value {
          return Ok(None);
        }
      }
      r := FinalMessage(codec, messageSizeLimit, meta);
    }
  }

  function Handed(first: Option<Received>, pending: seq<Received>): seq<Received> {
    if first == None then [] else [first.value] + pending
  }
}
