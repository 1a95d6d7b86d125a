# Verified model of the Qunet client library

This project models the protocol core of qunet-cpp in Dafny 4.11 and proves what it promises:
the reliable layer over UDP, fragmentation and reassembly, the wire codec and the datagram
iterator, stream framing, QUIC send accounting, the UDP handshake, the connection worker and
the acknowledgement statistics. `dafny verify dfyconfig.toml` checks all of it.

Every component that changes state in the program is a class or a method with loops here. Each
operation is tied to a function on the state's value, and the promises are lemmas about those
functions: invariants of every operation, and theorems over whole runs. At the top stands the
exchange of two whole transports (ExchangePromises): payloads in at one end, payloads out at the
other, and encoded datagrams, fragments among them, lost, repeated and reordered in between.

| file | contents |
|---|---|
| Wrappers, Bytes, MessageTypes | optional values and results; little-endian fields, writer and reader; headers and constants |
| SequenceNumbers | 16-bit ids that skip zero, and exactly when they stand for unbounded sequence numbers |
| Reliability, ReliabilityProofs, ReliabilityCases | the reliable store; its invariant, the retransmission bounds; each operation case by case, in ids and milliseconds |
| ReliableDelivery | two endpoints over a network that drops, repeats and reorders: exactly-once order, ack safety, conservation |
| FragmentStore, FragmentProofs | reassembly under interleaving, repetition, loss and expiry |
| Fragmentation | how the sender splits a message, and that the pieces decode |
| MessageCodec, DataLayouts, ControlMessages, ControlLayouts, DatagramIterator | headers and control messages, and that the decoders accept exactly what is laid out so; several messages in a datagram, padding |
| Compression, DataPath | the compression step; the whole way from payload to payload |
| DeliveryProgress | that everything sent can still be delivered and acknowledged, even if all acknowledgements so far were lost |
| WindowedAcks | acknowledgements through any number of id wraps, and how far ahead an arrival can be |
| UdpTransport, TransportCases, TransportSteps | sending, the timer handler, receiving; their results case by case; that these are the steps of the two-endpoint system |
| Exchange, ExchangeSteps, ExchangePromises | two transports exchanging encoded, fragmented datagrams: a refinement of the two-endpoint system, and its promises from payload to payload |
| ReceiveOrder, ReceiveLoss | when a datagram's messages are handed out in order, and when one of them is lost |
| StreamFraming | length-prefixed frames whatever the read boundaries |
| QuicStream | conservation of written, sent and acknowledged bytes |
| HandshakeAssembly, HandshakeCases | the database chunks of the UDP handshake; what each event does to it, for any server |
| ConnectionLifecycle, LifecycleCases | the states of the connection worker; where each event leads from each state |
| StatTracker | packet sizes, the time window, acknowledgement counts |

Conventions. Time is a real number of milliseconds given to each operation, which reads it
once; a wait subtracted below zero is zero. Random numbers, the growth of ring buffers, clock
readings, the outcome of socket operations and the order of iteration over hash maps are
parameters or nondeterministic choices. The buffer library (dbuf) is not part of this model:
fields are little-endian, a boolean is a byte that is not zero, a string is preceded by a u16
length. The compressors are parameters, two functions of which one undoes the other.

## What the code does not promise

Some properties one would expect hold only under a condition. The model keeps the code as it
is and states the condition.

* The 16-bit duplicate test agrees with unbounded numbering exactly inside a window
  (`SequenceNumbers.ClassifyRefinesUnbounded`). A late message from before the id wrap, or one
  more than 16383 behind, is stored instead of acknowledged again.
* A compressed message with a connection id does not survive the codec's own decoder, because
  the two fields are written in one order and read in the other
  (`MessageCodec.DataHeaderRoundTrip`).
* Announcing more than eight acks makes the claimed offset too large
  (`MessageCodec.ClaimedOffsetIsExact`). The decoder accepts such a header and keeps the count,
  and the reliable store and the statistics then read behind the array of eight. The
  operations of the model ask for headers that hold the acks they announce; of all datagrams
  that decode, exactly those that announce at most eight give one
  (`UdpTransports.DecodedIsRelOkIff`, with a concrete datagram in
  `UdpTransports.NineAcksAreAccepted`).
* Connection control messages never survive encoding and decoding
  (`ControlMessages.ConnectionControlNeverRoundTrips`); a control code above 255 decodes but has
  no length (`ControlMessages.DecodingConsumesTheLength`, with a concrete body in
  `ControlMessages.WideCodeHasNoLength`).
* Several reliable messages in one datagram can be handed out of order. Whether they will be
  can be told from the ids in the datagram and those waiting in the store
  (`ReceiveOrder.OrderKeptIff`, with a concrete case in `ReceiveOrder.BatchBreaksOrder`).
* An accepted, and so acknowledged, reliable message is not always handed out. An error in a
  datagram drops the first message handed over before it: bytes that do not decode, a control
  message without a decoder, fragments that do not fit together, a payload that does not unpack,
  a message refused by a full store (`ReceiveLoss.ErrorLosesAccepted`, with the bytes of such a
  datagram in `ReceiveLoss.LosingDatagram`). And a message whose own payload does not unpack is lost even
  alone, directly (`ReceiveLoss.OwnPayloadIsLost`) or out of the delayed queue
  (`UdpTransports.UdpTransport.ReceiveMessageInner`). Whether that happens can be told from what
  the items of the datagram come to and the waiting ids, refusals by a full store included
  (`ReceiveLoss.AcceptedIsGivenIff`), and such a message is lost for good
  (`ReceiveLoss.AcceptedIsSettled`).
* A message that came behind the last handshake message in its datagram is dropped when the
  handshake finishes (`HandshakeAssembly.PerformHandshake`).
* The reported maximum packet size can miss the first packet
  (`StatTrackers.MaximumIsRightIff`).
* Fragment indices run into the last-fragment bit beyond 32768 pieces (`Fragmentation.IndicesFit`).
* When a fragmentation id comes round again while fragments of the earlier message are in the
  store, the two are joined to a message that nobody sent (`FragmentProofs.ReusedIdMixes`). The
  theorems about whole exchanges ask of a fragment that the store holds none of another message
  under its id, and of nothing else about fragmentation ids.
* The pause before reconnect attempt 0 never happens: the first attempt is number 1, and the
  16-bit counter never wraps around to 0 (`ConnectionLifecycle.NoAttemptZero`).

## Model

| member | source | states |
|---|---|---|
| SequenceNumbers.NextIdIsNextNumber | src/socket/transport/udp/ReliableStore.cpp:157-165 | the skip-zero increment of both id counters takes the id of message n to that of message n + 1, through every wrap |
| SequenceNumbers.ClassifyRefinesUnbounded | src/socket/transport/udp/ReliableStore.cpp:25-29 | for numbers less than a full period apart, the 16-bit duplicate / in order / out of order decision equals the one on unbounded numbers if and only if the arrival is inside the window |
| SequenceNumbers.StaleAcrossWrapIsNotDuplicate | src/socket/transport/udp/ReliableStore.cpp:25-26 | a concrete stale message from before the wrap that is not taken for a duplicate |
| SequenceNumbers.IdsRepeatWithPeriod | src/socket/transport/udp/ReliableStore.cpp:71-76 | two messages have the same id if and only if their numbers differ by a multiple of 65535 |
| SequenceNumbers.LiftStands | src/socket/transport/udp/ReliableStore.cpp:108-119 | an id stands for exactly one number in the period from the expected one on, and keeps standing for it until that number is expected |
| Reliability.ReliableStore.HandleIncoming | src/socket/transport/udp/ReliableStore.cpp:14-47 | the whole new state and the verdict: acks first, then duplicate, stored, refused or accepted; what that is in each case: AcksAlone, DuplicateIsAckedAgain, AheadIsStored, ExpectedIsTaken of ReliabilityCases |
| Reliability.ReliableStore.StoreRemoteOutOfOrder | src/socket/transport/udp/ReliableStore.cpp:49-68 | refuses when 32 are stored, ignores a stored id, else appends |
| Reliability.ReliableStore.PushRemoteUnacked | src/socket/transport/udp/ReliableStore.cpp:71-81 | acknowledges the expected id, advances, and restores what that makes due |
| Reliability.ReliableStore.PushRemoteUnackedWithId | src/socket/transport/udp/ReliableStore.cpp:87-106 | queues an ack, for a duplicate only if none is waiting; DuplicateIsAckedAgain tells the effect on the queue of acks |
| Reliability.ReliableStore.MaybeRestoreRemote | src/socket/transport/udp/ReliableStore.cpp:108-119 | the mutual recursion terminates and computes the restore function |
| Reliability.ReliableStore.PopDelayedMessage | src/socket/transport/udp/ReliableStore.cpp:125-133 | takes the oldest delayed message, if any |
| Reliability.ReliableStore.AckLocal | src/socket/transport/udp/ReliableStore.cpp:143-155 | removes the first queued message with the id, or nothing |
| Reliability.ReliableStore.SetOutgoingAcks | src/socket/transport/udp/ReliableStore.cpp:167-182 | moves the eight oldest waiting acks, or all, into the header |
| Reliability.ReliableStore.PushLocalUnacked | src/socket/transport/udp/ReliableStore.cpp:184-205 | queues a sent message, or fails with 64 queued |
| Reliability.ReliableStore.UntilTimerExpiry | src/socket/transport/udp/ReliableStore.cpp:207-236 | the result bounds every queued entry's wait and is one of them, infinite only without entries |
| Reliability.ReliableStore.MaybeRetransmit | src/socket/transport/udp/ReliableStore.cpp:242-266 | the first due message is stamped and counted; it is returned, or given up after ten resends; in milliseconds by RetransmitsFirstOverdue |
| Reliability.ReliableStore.HasUrgentOutgoingAcks | src/socket/transport/udp/ReliableStore.cpp:268-279 | true if and only if some ack has waited its deadline |
| Reliability.RetransmissionDeadline | src/socket/transport/udp/ReliableStore.cpp:281-292 | at least 175 ms times the attempt, clamped to 1..6, for every round-trip estimate; exactly what it is, by DueIffOverdue |
| ReliabilityProofs.RestoreMovesMaximalRun | src/socket/transport/udp/ReliableStore.cpp:108-119 | restoring moves exactly the maximal run of consecutive stored ids to the delayed queue, in order, each acknowledged, and nothing else |
| ReliabilityProofs.HandleIncomingKeepsInv | src/socket/transport/udp/ReliableStore.cpp:14-68 | after any message that holds the acks it announces: the expected id is not zero, at most 32 stored ids, distinct, non-zero and other than the expected one, at most 64 queued |
| ReliabilityProofs.OtherOperationsKeepInv | src/socket/transport/udp/ReliableStore.cpp:125-266 | all other operations keep that invariant |
| ReliabilityProofs.UntilTimerExpiryIsExact | src/socket/transport/udp/ReliableStore.cpp:207-279 | after any wait, a retransmission or an urgent ack is due if and only if the timer is no longer than the wait |
| ReliabilityProofs.AcksDrainOldestFirst | src/socket/transport/udp/ReliableStore.cpp:167-182 | n waiting acks leave oldest first, each once, in ceil(n / 8) headers |
| ReliabilityProofs.ReactKeepsInv | src/socket/transport/udp/ReliableStore.cpp:242-266 | each event keeps send counts and times, and giving up needs eleven sends and 46 * 175 ms |
| ReliabilityProofs.RetransmissionBounds | src/socket/transport/udp/ReliableStore.cpp:242-296 | over every run, clock and round-trip trace: at most eleven sends of any queued message, and if the store gives up, the very event at which it does comes no sooner than 46 * 175 ms after the first send of that message, which was sent eleven times |
| ReliabilityCases.AcksRemoveTheirMessages | src/socket/transport/udp/ReliableStore.cpp:137-155 | from a queue of distinct ids, arriving acks remove exactly the messages they name; the others stay in order |
| ReliabilityCases.AcksAlone | src/socket/transport/udp/ReliableStore.cpp:14-23 | a message without an id only brings acks, and goes on |
| ReliabilityCases.DuplicateIsAckedAgain | src/socket/transport/udp/ReliableStore.cpp:25-106 | a message up to 16383 ids behind is not handed on; an ack of it waits afterwards, the one that waited or one new at the end; else nothing changes but by the acks it brings |
| ReliabilityCases.AheadIsStored | src/socket/transport/udp/ReliableStore.cpp:28-68 | any other message but the expected one: refused with 32 stored, ignored if stored, else stored last; nothing else changes but by its acks |
| ReliabilityCases.ExpectedIsTaken | src/socket/transport/udp/ReliableStore.cpp:43-119 | the expected message is handed on; the stored ones that follow it without a gap, all and in order, become due, and each is acknowledged |
| ReliabilityCases.PushedOrFull | src/socket/transport/udp/ReliableStore.cpp:184-205 | with fewer than 64 queued, a message is queued last as sent now and not yet again; else it is refused |
| ReliabilityCases.DueIffOverdue | src/socket/transport/udp/ReliableStore.cpp:242-296 | a message is due if and only if, for each of its attempts from one to six, 1.6 round trips and 50 ms (200 ms stand for an unknown round trip), and 175 ms, have passed since it was last sent |
| ReliabilityCases.RetransmitsFirstOverdue | src/socket/transport/udp/ReliableStore.cpp:242-266 | in milliseconds: nothing is sent again unless overdue, and the first overdue message is stamped, counted and sent again, or given up after ten times |
| ReliabilityCases.UrgentAfterFifty | src/socket/transport/udp/ReliableStore.cpp:268-296 | acks are urgent if and only if one has waited 50 ms |
| ReliabilityCases.TimerInMillis | src/socket/transport/udp/ReliableStore.cpp:207-296 | the timer runs exactly until a message is overdue or an ack has waited 50 ms |
| ReliableDelivery.ArrivalKeepsReceiver | src/socket/transport/udp/ReliableStore.cpp:14-133 | any admissible packet, repeated or reordered, leaves delivered plus delayed messages a prefix of those sent |
| ReliableDelivery.ActKeepsSender | src/socket/transport/udp/ReliableStore.cpp:157-205 | whatever a peer does, packets and queued messages carry the message their id stands for |
| ReliableDelivery.ActKeepsAcks | src/socket/transport/udp/ReliableStore.cpp:167-182 | every ack sent, or resent in a kept header, is for an accepted message |
| ReliableDelivery.ActKeepsConservation | src/socket/transport/udp/ReliableStore.cpp:137-205 | ids leave the retransmission queue only acknowledged, and none is lost or counted twice |
| ReliableDelivery.ExactlyOnceInOrder | src/socket/transport/udp/ReliableStore.cpp:14-133 | in every run of two endpoints over a lossy, duplicating, reordering network, without id wrap or through any number of wraps inside the window, the messages handed over are a prefix of those sent |
| ReliableDelivery.AckSafety | src/socket/transport/udp/ReliableStore.cpp:83-205 | in every run without id reuse: acknowledged ids were accepted, queued ids are distinct and at most 64, each queued id is either still queued or acknowledged, and every ack on the wire is for an accepted message |
| ReliableDelivery.RetransmissionHasNumber | src/socket/transport/udp/ReliableStore.cpp:242-266 | whatever is due for retransmission is a message that was sent |
| DeliveryProgress.SettleOne | src/socket/transport/udp/ReliableStore.cpp:14-182 | from any state of a run: when a message not ahead of the expected one arrives, again or for the first time, the waiting acks are sent and the one for it is received, it is accepted and out of the sender's queue |
| DeliveryProgress.EverythingCanArrive | src/socket/transport/udp/ReliableStore.cpp:14-205 | every run without id reuse with both ends alive can go on so that all that was sent is delivered in order, and all acknowledged that is at most 16382 behind the last one |
| WindowedAcks.ArrivalIsWindowed | src/socket/transport/udp/ReliableStore.cpp:25-29 | with messages leaving the 64 places of the queue only when accepted, no arrival is more than 64 ahead of the expected message, so the ahead half of the id window is met |
| WindowedAcks.AckSafetyThroughWraps | src/socket/transport/udp/ReliableStore.cpp:83-205 | in every run through any number of wraps in which no message arrives too old and no ack is a period or more back, counted from when its packet was last sent: a queued message stays queued until the remote accepted it, the sender is at most 65 messages ahead, and the messages handed over are a prefix of those sent |
| WindowedAcks.SecondLapAckIsFresh | src/socket/transport/UdpTransport.cpp:495-511 | an ack packet that equals one of the lap before, as in one-way traffic, counts as sent anew and may be received |
| FragmentStores.FragmentStore.ProcessFragment | src/socket/transport/udp/FragmentStore.cpp:14-70 | a repeat changes nothing; a new fragment is stored with its headers and the store is swept |
| FragmentStores.FragmentStore.ProcessStored | src/socket/transport/udp/FragmentStore.cpp:72-93 | for every iteration order, a complete message is taken out and reassembled, and only stale incomplete ones are dropped |
| FragmentStores.FragmentStore.Reassemble | src/socket/transport/udp/FragmentStore.cpp:95-138 | sorted fragments without a skip are joined in a buffer filled exactly, else the result is a defragmentation error |
| FragmentStores.FragmentStore.NextMessageId | src/socket/transport/udp/FragmentStore.cpp:140-142 | fragmentation ids wrap at 16 bits and include zero |
| FragmentProofs.CompleteIffAll | src/socket/transport/udp/FragmentStore.cpp:78 | counting fragments against the total is the same as having every index |
| FragmentProofs.CompleteReassembles | src/socket/transport/udp/FragmentStore.cpp:95-138 | a complete message reassembles to its bytes and headers, without error |
| FragmentProofs.ArrivalOutcome | src/socket/transport/udp/FragmentStore.cpp:14-93 | a message comes out if and only if the fragment was its last missing one; no complete message stays; others change only by expiring |
| FragmentProofs.FragmentSafety | src/socket/transport/udp/FragmentStore.cpp:14-138 | over every run with interleaving, repetition, loss and expiry, each call succeeds and returns only messages as they were sent |
| FragmentProofs.FragmentRoundTrip | src/socket/transport/udp/FragmentStore.cpp:14-138 | in a store used for any time before: for every order of a message's fragments with repeats and interleaving, within ten seconds of its first one, nothing comes out before the last missing fragment, and that yields the payload |
| FragmentProofs.ExpiredAreDropped | src/socket/transport/udp/FragmentStore.cpp:72-93 | a new fragment that completes nothing drops exactly the messages whose first fragment came more than 10000 ms ago; one that completes a message drops none that is younger |
| FragmentProofs.FirstFragmentStartsTheClock | src/socket/transport/udp/FragmentStore.cpp:14-70 | the ten seconds of a message count from the first of its fragments in the store |
| FragmentProofs.SkipsAreErrors | src/socket/transport/udp/FragmentStore.cpp:95-138 | reassembly fails if and only if the indices are not those from 0 up without a gap |
| FragmentProofs.ReusedIdMixes | src/socket/transport/udp/FragmentStore.cpp:14-93 | a concrete pair of messages under one fragmentation id whose fragments are joined |
| Fragmentation.PiecesTile | src/socket/transport/UdpTransport.cpp:276-292 | the pieces are non-empty, within their sizes, and concatenate to the payload |
| Fragmentation.BuildFragments | src/socket/transport/UdpTransport.cpp:282-316 | the fragment loop terminates and builds exactly the datagrams of the pieces |
| Fragmentation.DatagramsFitMtu | src/socket/transport/UdpTransport.cpp:242-316 | every datagram of a message is at most the MTU |
| Fragmentation.AtLeastTwoFragments | src/socket/transport/UdpTransport.cpp:246-287 | a message that does not fit has at least two fragments |
| Fragmentation.OneDatagramIff | src/socket/transport/UdpTransport.cpp:242-269 | one datagram if and only if payload, headers and nine bytes fit the MTU |
| Fragmentation.FragmentsAreFull | src/socket/transport/UdpTransport.cpp:272-316 | every fragment but the last fills its datagram; without a connection id eight bytes stay free |
| Fragmentation.IndicesFit | src/socket/transport/UdpTransport.cpp:303 | indices stay below the last-fragment bit if and only if the payload is at most the first piece and 32767 further ones |
| Fragmentation.FragmentsDecode | src/socket/transport/UdpTransport.cpp:296-304 | each fragment datagram decodes to that fragment: index, last bit, piece, and headers on the first only |
| MessageCodec.EncodeDataHeader | src/socket/message/QunetMessage.cpp:37-88 | appends the header layout, optional headers only when not omitted |
| MessageCodec.DecodeMeta | src/socket/message/QunetMessage.cpp:327-426 | computes the decoding function on every input, errors included |
| MessageCodec.DecodeDataUndoesLayout | src/socket/message/QunetMessage.cpp:359-425 | for every header combination, up to eight acks, fragmentation and boundary, decoding gives back all parts, and the payload ends at the boundary or at the end |
| MessageCodec.PlainRoundTrip | src/socket/message/QunetMessage.cpp:37-88 | without a connection id, or without compression, decoding inverts the sender's encoding |
| MessageCodec.MisplacedIdDecodes | src/socket/message/QunetMessage.cpp:59-68 | with both, the upper half of the connection id is read as the uncompressed size |
| MessageCodec.DataHeaderRoundTrip | src/socket/message/QunetMessage.cpp:331-338 | decoding inverts encoding if and only if there is no connection id, no compression, or the size equals the upper half of the id |
| MessageCodec.CompressedWithIdIsMisread | src/socket/message/QunetMessage.cpp:59-68 | a concrete message that is misread |
| MessageCodec.ClaimedOffsetIsExact | src/socket/message/QunetMessage.cpp:388-393 | for all bytes that decode, the payload is a slice, and the claimed offset is its start if and only if at most eight acks are announced |
| MessageCodec.DecodedAcks | src/socket/message/QunetMessage.cpp:383-394 | for any bytes that decode, the count field is kept as it stands there, and of the acks at most eight |
| DataLayouts.DecodedIsWhatIsLaidOut | src/socket/message/QunetMessage.cpp:359-426 | the decoder accepts a data message if and only if the parts its header byte announces stand there one behind the other, and enough payload if there is a boundary; it yields those parts and that payload, else InvalidData |
| DataLayouts.HeaderPlaces | src/socket/message/QunetMessage.cpp:37-88 | which bits the sender sets in the header byte, and where it writes size, connection id, message id, count and acks |
| ControlMessages.LengthForNonDataMessage | src/socket/message/QunetMessage.cpp:200-325 | computes the length function on every type and body, errors included |
| ControlMessages.DecodeWithMeta | src/socket/message/QunetMessage.cpp:145-198 | computes the decoding function on every type and body, errors included; which function that is, by DecodedIsWhatIsLaidOut and LaidOutDecodes of ControlLayouts |
| ControlMessages.LengthIsWhatDecodingConsumes | src/socket/message/QunetMessage.cpp:200-325 | where a decodable type has a length, decoding that many bytes succeeds and consumes them all |
| ControlMessages.DecodingConsumesTheLength | src/socket/message/QunetMessage.cpp:299-316 | what decoding consumes is the length, except for connection control codes above 255 |
| ControlMessages.WideCodeHasNoLength | src/socket/message/QunetMessage.cpp:299-316 | a concrete control body with code 0x0101 that decodes to an MTU and has no length |
| ControlLayouts.DecodedIsWhatIsLaidOut | src/socket/message/QunetMessage.cpp:145-198 | for every type and all bytes, decoding succeeds if and only if the bytes begin with the layout of a message of that type, and yields that message and the length of the layout; else the data or the type is invalid |
| ControlLayouts.LaidOutDecodes | include/qunet/socket/message/messages.hpp:29-307 | every message the client can receive, with any field values, decodes to itself and has its length, whatever follows |
| ControlLayouts.PongLength | src/socket/message/QunetMessage.cpp:205-220 | the length of a pong with any protocols and data |
| ControlLayouts.ChunkResponseLength | src/socket/message/QunetMessage.cpp:290-296 | the length of a database chunk |
| ControlLayouts.FixedLengths | src/socket/message/QunetMessage.cpp:200-322 | the lengths of what only clients send, and of padding |
| ControlLayouts.UnknownTypes | src/socket/message/QunetMessage.cpp:200-325 | any other type has neither a length nor a decoder |
| ControlMessages.KeepaliveRoundTrip | include/qunet/socket/message/messages.hpp:29-47 | keepalives decode to what was encoded |
| ControlMessages.ConnectionErrorRoundTrip | include/qunet/socket/message/messages.hpp:207-230 | connection errors decode to what was encoded |
| ControlMessages.ConnectionControlNeverRoundTrips | include/qunet/socket/message/messages.hpp:252-307 | no connection control message decodes to what was encoded |
| DatagramIterator.UdpMessageIter.Next | src/socket/message/QunetMessage.cpp:430-442 | yields the decoded rest and strictly advances on success |
| DatagramIterator.IterateAll | src/socket/transport/UdpTransport.cpp:366-370 | iterating ends, at the end of the datagram or at the first error |
| DatagramIterator.ItemDecodes | src/socket/message/QunetMessage.cpp:327-426 | an item at the front of a datagram decodes to itself and consumes exactly its bytes |
| DatagramIterator.DatagramYieldsItsItems | src/socket/message/QunetMessage.cpp:430-442 | concatenated control messages, bounded data messages and a last open one yield exactly that list, with or without a connection id |
| DatagramIterator.PadMessageToMinimum | src/socket/transport/udp/Padding.hpp:38-66 | the length becomes max(22, length) by appending nothing or one padding item |
| DatagramIterator.PaddingAddsAtMostOneItem | src/socket/transport/udp/Padding.hpp:59-66 | a padded control message yields itself, and one padding item if and only if it was short |
| Compression.OutgoingMessage.Prepare | src/socket/Socket.cpp:217-246 | replaces payload and header in place by the prepared message |
| Compression.OutgoingMessage.DoCompress | src/socket/Socket.cpp:320-356 | compresses, but leaves a message alone that would not get smaller |
| Compression.FinalDataUndoesPrepared | src/socket/transport/BaseTransport.cpp:100-147 | the receiver gets the payload back, or refuses a compressed one beyond its limit |
| Compression.PreparedIsNoLonger | src/socket/Socket.cpp:341-345 | a prepared message carries a compression header if and only if it is shorter than the payload, and is never longer |
| Compression.CompressorBySize | src/socket/Socket.cpp:280-356 | no compression below 128 bytes, nor below 1024 if lz4 does not help; zstd from 512 on, or if lz4 saves enough; else lz4; with the payload kept where it does not shrink |
| Compression.RefusedData | src/socket/transport/BaseTransport.cpp:100-147 | exactly what is beyond the limit or does not decompress is refused, each with its error |
| DataPath.WholeDatagramRecovers | src/socket/transport/UdpTransport.cpp:248-269 | a message that fits one datagram is recovered with header and payload |
| DataPath.DecodedArrivalIsFragment | src/socket/transport/UdpTransport.cpp:403-412 | decoding a fragment's datagram gives a legitimate arrival of that fragment |
| DataPath.DataPathIdentity | src/socket/transport/UdpTransport.cpp:231-325 | compression, fragmentation, any arrival order within ten seconds of the message's first fragment, reassembly and decompression give back header and payload, and nothing before the last missing fragment |
| DataPath.ReassembledCarries | src/socket/transport/UdpTransport.cpp:403-412 | over any run of datagrams through the fragment store, whatever it returns carries the message sent under that fragmentation id, as the reliable layer assumes of its arrivals |
| DataPath.DatagramCarries | src/socket/transport/UdpTransport.cpp:248-269 | the same for a message that fits one datagram |
| DataPath.RetransmissionIsSameMessage | src/socket/transport/UdpTransport.cpp:486-491 | a retransmission decodes to the same id, acks and pieces as the first send, under its own fragmentation id |
| DataPath.PayloadsArriveInOrder | src/socket/transport/UdpTransport.cpp:337-352 | in every run the delivered messages decompress, in order, to the first payloads sent |
| UdpTransports.UdpTransport.DoSendUnfragmentedData | src/socket/transport/UdpTransport.cpp:231-325 | sends one datagram or the fragments, and queues a first reliable send only |
| UdpTransports.UdpTransport.SendData | src/socket/transport/UdpTransport.cpp:208-229 | attaches waiting acks and, if reliable, the next id; no header when there is neither; sends the datagrams of that message |
| UdpTransports.ResendAllBounded | src/socket/transport/UdpTransport.cpp:486-491 | the retransmission loop ends whatever the clock shows, within the remaining sends, with nothing due at its last reading |
| UdpTransports.UdpTransport.ResendDue | src/socket/transport/UdpTransport.cpp:486-491 | the loop resends what the resend function says, and what goes out are the datagrams of those messages, each fragmented one under the next fragmentation id |
| UdpTransports.UdpTransport.HandleTimerExpiry | src/socket/transport/UdpTransport.cpp:482-511 | resends all that is due, then sends one ack message if and only if an ack is urgent; the datagrams sent and the fragmentation id afterwards are those of the messages sent |
| UdpTransports.UdpTransport.ReceiveMessageInner | src/socket/transport/UdpTransport.cpp:337-385 | pending messages come first, then the delayed queue, then the socket; an empty datagram is an error, any other is read as its iteration yields, whatever it holds |
| UdpTransports.UdpTransport.ReadDatagram | src/socket/transport/UdpTransport.cpp:366-384 | the messages and fragments of a datagram are processed in turn, each in the state the one before left, up to an error, be it of decoding or of processing; the first message handed over is returned and the others become pending, and after an error the first is lost |
| UdpTransports.ReadsWithoutFragments | src/socket/transport/UdpTransport.cpp:366-384 | without fragments the stores, the result and the pending messages are a function of the datagram |
| UdpTransports.ReadsSingleFragment | src/socket/transport/UdpTransport.cpp:401-412 | a datagram with a single fragment: nothing becomes pending, and what the fragment leads to is returned |
| UdpTransports.UdpTransport.ProcessOne | src/socket/transport/UdpTransport.cpp:387-427 | control messages are decoded, fragments go through the fragment store, reliable messages through the reliable store |
| UdpTransports.DecodedIsRelOkIff | src/socket/message/QunetMessage.cpp:383-394 | for any bytes that decode: the header holds the acks it announces, as the reliable store takes for granted, if and only if the count in the bytes is at most eight |
| UdpTransports.NineAcksAreAccepted | src/socket/message/QunetMessage.cpp:383-394 | a concrete datagram that decodes to nine announced acks of which eight are held |
| TransportCases.BacklogComesFirst | src/socket/transport/UdpTransport.cpp:337-352 | whatever the socket delivers, the next calls return the pending messages and then the delayed ones, each once and in order, and change nothing else |
| TransportCases.EmptyDatagramIsError | src/socket/transport/UdpTransport.cpp:354-362 | an empty datagram is an error and changes nothing |
| TransportCases.ControlIsHandedOver | src/socket/transport/UdpTransport.cpp:387-395 | a control message is handed over as it was sent |
| TransportCases.TruncatedControlFails | src/socket/message/QunetMessage.cpp:200-345 | cut off anywhere, it does not decode |
| TransportCases.ItemsByKind | src/socket/transport/UdpTransport.cpp:366-427 | undecodable bytes are an error, padding is passed over, a message without an id is handed over unpacked |
| TransportCases.FragmentErrorIsReturned | src/socket/transport/UdpTransport.cpp:401-412 | fragments that do not fit together are an error of the call, which changes no reliable state |
| TransportCases.SendingIs | src/socket/transport/UdpTransport.cpp:208-229 | the header takes the oldest acks, eight at most, the others go on waiting; a reliable message takes the next id and is queued unless 64 are; no header without either |
| TransportCases.TimerFlushesUrgent | src/socket/transport/UdpTransport.cpp:495-511 | acks go out on their own if and only if one of them has waited 50 ms, the eight oldest |
| TransportCases.FragmentedTakesNextId | src/socket/transport/UdpTransport.cpp:271-282 | each message sent in fragments takes the next fragmentation id, the others none |
| TransportSteps.SendIsAction | src/socket/transport/UdpTransport.cpp:208-229 | sending does to the store, and puts on the wire, what the send actions of the run theorems do |
| TransportSteps.TimerIsActions | src/socket/transport/UdpTransport.cpp:482-511 | the timer handler is a run of enabled retransmit actions, and the action of sending acks alone if some are urgent; what it sends are exactly the packets these actions put out |
| TransportSteps.TimerHasNumbers | src/socket/transport/UdpTransport.cpp:486-511 | every message it sends carries a message that was sent before, or none |
| TransportSteps.ReceiveIsAction | src/socket/transport/UdpTransport.cpp:366-427 | reading a datagram with one data message is the receive action, and its result is the message exactly when the action delivers one or it has no reliable id |
| TransportSteps.DelayedIsAction | src/socket/transport/UdpTransport.cpp:349-352 | taking a delayed message is the action of that name |
| Exchanges.SendingsAreDatagrams | src/socket/transport/UdpTransport.cpp:231-325 | the datagrams on the wire of an exchange are exactly those the sending methods put out |
| ExchangeSteps.ReadAsOneItem | src/socket/transport/UdpTransport.cpp:364-370 | every datagram of the wire is read as the one message, or fragment, it was built from |
| ExchangeSteps.FragmentArrives | src/socket/transport/UdpTransport.cpp:403-412 | a fragment of the wire never fails in the store, and its message comes out, carrying what was sent, if and only if it is whole with it |
| ExchangeSteps.CallIsSteps | src/socket/transport/UdpTransport.cpp:208-511 | each call of a transport is a number of enabled actions of a peer, whose store and history are the transport's afterwards |
| ExchangePromises.ExchangeIsRun | src/socket/transport/UdpTransport.cpp:208-511 | every exchange of two transports, with encoding, fragmentation, reassembly and decoding, is a run of the two-endpoint system with the same stores |
| ExchangePromises.PayloadsExactlyOnceInOrder | src/socket/transport/UdpTransport.cpp:208-511 | in every exchange, whatever datagrams are lost, repeated or reordered, the reliable payloads one side received are a prefix of those the other sent |
| ExchangePromises.NoPayloadIsLost | src/socket/transport/UdpTransport.cpp:208-511 | without id reuse and while the sender lives, each reliable payload sent was received, waits in the delayed queue, or is still queued for retransmission among at most 64 |
| ExchangePromises.ReceivingNeverFails | src/socket/transport/UdpTransport.cpp:337-427 | in every exchange no datagram is refused by decoding, reassembly or decompression; the only error is that too many messages wait, or that nothing came |
| ExchangePromises.ReadingHandsOutTheNext | src/socket/transport/UdpTransport.cpp:337-427 | in every exchange, reading a datagram hands out a reliable payload if and only if its message is whole by then and next in order, and it is that payload |
| ExchangePromises.OnePayloadArrives | src/socket/transport/UdpTransport.cpp:208-427 | a concrete exchange in which a payload is sent and received |
| ReceiveOrder.OrderKeptIff | src/socket/transport/UdpTransport.cpp:342-382 | of a datagram with whatever messages and fragments, if it is without error, told beforehand from the ids of its messages, those that fragments complete included, and the waiting ones: which reliable messages are accepted, and that they are handed out in order if and only if, once a message of that run arrives before a predecessor and must wait, all later ones must wait too |
| ReceiveOrder.RoomIsErrorFree | src/socket/transport/UdpTransport.cpp:366-384 | that there is no such error is sure beforehand if everything decodes and the store has room for all reliable messages |
| ReceiveOrder.BatchFits | src/socket/transport/UdpTransport.cpp:364-370 | no datagram below 64 KiB comes to more reliable messages than the bound the theorems ask for, whatever it holds, fragments included |
| ReceiveOrder.OrderKeptIffInTurn | src/socket/transport/UdpTransport.cpp:342-382 | in terms of the processing itself: the order is kept if and only if no message was accepted directly behind released ones |
| ReceiveOrder.SingleMessageInTurn | src/socket/transport/UdpTransport.cpp:369-382 | a datagram with one data message never breaks the order |
| ReceiveOrder.BatchBreaksOrder | src/socket/transport/UdpTransport.cpp:369-382 | a concrete datagram that does, with a control message between the two |
| ReceiveLoss.NothingLostIff | src/socket/transport/UdpTransport.cpp:366-384 | for every datagram, fragments included: what is returned and what becomes pending is all that was handed over if and only if there was no error, or nothing before it |
| ReceiveLoss.AcceptedIsGivenIff | src/socket/transport/UdpTransport.cpp:366-427 | told beforehand, from what the items and fragments come to and the ids that wait: there is no error if and only if nothing failed before, every control message decodes, no message is ahead with 32 waiting, and all that goes on unpacks; and every accepted reliable message is given to the application if and only if what fails first is not one itself and what is handed over first before it is not one either |
| ReceiveLoss.LedgerIsOfBatch | src/socket/transport/UdpTransport.cpp:369-382 | the messages of that account are those the transport hands over |
| ReceiveLoss.RoomNeverRefuses | src/socket/transport/udp/ReliableStore.cpp:49-68 | a store with room for all reliable messages of a datagram, those that fragments complete included, refuses none |
| ReceiveLoss.RefusedIff | src/socket/transport/udp/ReliableStore.cpp:14-68 | a message is refused if and only if it is ahead of the expected one and 32 wait already |
| ReceiveLoss.AcceptedIsSettled | src/socket/transport/udp/ReliableStore.cpp:14-106 | an accepted message is acknowledged, none with its id is in the delayed queue, and none that comes later is accepted; so one that is not given is lost |
| ReceiveLoss.ErrorLosesAccepted | src/socket/transport/UdpTransport.cpp:366-384 | with anything directly behind it that fails, whatever comes then, the expected message is acknowledged, neither returned nor pending nor delayed, and not accepted when it is sent again |
| ReceiveLoss.OwnPayloadIsLost | src/socket/transport/BaseTransport.cpp:110-137 | the same for the expected message in front, alone or not, if its own payload does not unpack |
| ReceiveLoss.LosingDatagram | src/socket/transport/UdpTransport.cpp:366-384 | the bytes of a datagram that loses its first message |
| ReceiveOrder.TransportHandsOutDirect | src/socket/transport/UdpTransport.cpp:369-427 | what the transport hands out of a datagram without error, fragments included, are the messages handed over in it, decompressed, and the reliable ones among them are those accepted directly |
| StreamFraming.ReceiveMessage | src/socket/transport/Common.hpp:75-163 | result and remaining bytes are a function of the available bytes, whatever the reads and the ring position; an undecodable frame consumes its own bytes only |
| StreamFraming.TakeFrame | src/socket/transport/Common.hpp:106-161 | parses the buffered bytes: skips empty frames, refuses oversized ones, takes a whole one |
| StreamFraming.ReceiveAll | src/socket/transport/Common.hpp:75-163 | repeated receiving yields the frames of the bytes that can be read; however the bytes of sent frames are divided into reads, the messages received are those of the non-empty frames sent, in order |
| StreamFraming.SendFrame | src/socket/transport/Common.hpp:16-71 | the length reserved in front is filled in with the size of what follows |
| StreamFraming.ParseExtends | src/socket/transport/Common.hpp:106-133 | further bytes never change a frame already found |
| StreamFraming.FramesOfWire | src/socket/transport/Common.hpp:106-163 | the frames found are those sent, in order; empty ones vanish |
| StreamFraming.StreamedPayloadRecovers | src/socket/transport/Common.hpp:60-61 | a streamed data message is received as its payload |
| StreamFraming.StreamedControlRecovers | src/socket/transport/Common.hpp:106-163 | a streamed control message is received as it was sent |
| StreamFraming.OversizedIsRefused | src/socket/transport/Common.hpp:106-133 | a frame announced beyond the limit is refused, and no byte taken |
| StreamFraming.PartialIsAwaited | src/socket/transport/Common.hpp:106-133 | a frame that is not there as a whole is waited for, and no byte taken |
| StreamFraming.BadFramesAreErrors | src/socket/transport/Common.hpp:135-161 | a frame that does not decode or unpack yields its error |
| StreamFraming.EndIsReported | src/socket/transport/Common.hpp:75-105 | while no frame is whole, the end of the stream is reported, or that nothing has come |
| QuicStreams.QuicStream.Write | src/socket/transport/quic/QuicStream.cpp:79-97 | takes min(length, capacity) bytes and keeps the accounting |
| QuicStreams.QuicStream.PeekUnsentData | src/socket/transport/quic/QuicStream.cpp:163-168 | offers exactly the written bytes from the stream offset on |
| QuicStreams.QuicStream.AdvanceSentData | src/socket/transport/quic/QuicStream.cpp:170-173 | moves unsent bytes to unacknowledged ones |
| QuicStreams.QuicStream.OnAck | src/socket/transport/quic/QuicStream.cpp:129-149 | drops acknowledged bytes; both assertions of the program hold |
| QuicStreams.QuicStream.UnflushedBytes | src/socket/transport/quic/QuicStream.cpp:61-63 | the number of written bytes never sent, zero when closed |
| QuicStreams.WriteTakesWhatFits | src/socket/transport/quic/QuicStream.cpp:65-97 | a write takes all there is room for: up to 16 MiB if nothing is in flight, else up to the present capacity |
| QuicStreams.ApplyKeepsInv | src/socket/transport/quic/QuicStream.cpp:61-173 | writes, sends and contiguous acks keep the buffer equal to the unacknowledged part of what was written |
| QuicStreams.StreamConservation | src/socket/transport/quic/QuicStream.cpp:61-173 | over every run: written = acknowledged + unacknowledged + unflushed, and the network was offered the written stream without gap or repeat |
| HandshakeAssembly.PerformHandshake | src/socket/transport/UdpTransport.cpp:55-180 | computes the fold over all events; on finishing, and only then, the unexpected messages replace what was queued behind the last message; what each event does, by HandshakeStep |
| HandshakeAssembly.DecodedIsEventOk | src/socket/transport/UdpTransport.cpp:151 | every chunk the decoder yields has data of the announced size, as the handshake takes for granted |
| HandshakeAssembly.Combine | src/socket/transport/UdpTransport.cpp:147-169 | for any server every chunk is copied inside the buffer, despite 32-bit arithmetic in the test |
| HandshakeAssembly.SetSizeFull | src/socket/transport/UdpTransport.cpp:137-145 | sizes of distinct non-empty tiles add up to the whole if and only if all are there |
| HandshakeAssembly.HeldTilesCombine | src/socket/transport/UdpTransport.cpp:150-163 | all tiles, in whatever order, combine to the data |
| HandshakeAssembly.RoundOfTiles | src/socket/transport/UdpTransport.cpp:99-145 | one round: a new tile is added, a repeat changes nothing, the last one finishes |
| HandshakeAssembly.TiledDataIsAssembled | src/socket/transport/UdpTransport.cpp:99-171 | for every order with repeats, timeouts and other messages, the handshake ends exactly with the last distinct chunk and yields the data |
| HandshakeCases.HandshakeStep | src/socket/transport/UdpTransport.cpp:84-171 | for any server and any prefix of events that has not ended the handshake, what the next event does: timeouts and other messages go on, a refusal and a finish without a database end it with that message, a chunk fails, is ignored, is taken, or ends it with the chunks put together; other messages are kept in order |
| HandshakeCases.EndedStaysEnded | src/socket/transport/UdpTransport.cpp:99-179 | once it has ended, nothing that comes later matters |
| HandshakeCases.CurrentDatabaseFinishes | src/socket/transport/UdpTransport.cpp:103-107 | the usual answer to a client with the current database ends it with the connection id of that answer |
| ConnectionLifecycle.Connection.WorkerThreadLoop | src/Connection.cpp:264-475 | one turn of the worker changes the state as the turn function says; where each turn leads, by the lemmas of LifecycleCases |
| ConnectionLifecycle.Connection.OnFatalError | src/Connection.cpp:523-543 | reconnects only from Connected and with consent, else resets |
| ConnectionLifecycle.Connection.ChangeState | src/Connection.cpp:1319-1336 | becoming connected clears the attempt count and the stateless flag |
| ConnectionLifecycle.Connection.ThreadFinalConnect | src/Connection.cpp:902-940 | the first working candidate is used; the errors are those of the candidates before it, in order |
| ConnectionLifecycle.Connection.ThreadTryReconnect | src/Connection.cpp:1052-1076 | only success replaces the socket, and only stateless success calls the reset callback |
| ConnectionLifecycle.TurnKeepsInv | src/Connection.cpp:264-475 | every turn keeps the worker invariant |
| ConnectionLifecycle.LifecycleSafety | src/Connection.cpp:264-543 | over every run: Connected, Reconnecting and Closing have a socket, an address and a type; at most six tries; the reset callback was called as often as the run's events have successful stateless tries |
| ConnectionLifecycle.TriesAreLegitimate | src/Connection.cpp:380-424 | each try is at most the sixth, a stateless one follows a refusal, and the callback is called exactly on stateless success |
| ConnectionLifecycle.ErrorsLeaveConnectedIffFatal | src/Connection.cpp:483-521 | an error ends Connected if and only if it is fatal; the callback decides where to |
| ConnectionLifecycle.NoAttemptZero | src/Connection.cpp:384-399 | in every run the 16-bit attempt counter stays one behind: the next attempt's number is one more than the tries made since Connected was left, so it is between 1 and 7, the counter never wraps, and the branch for attempt 0 is not reached |
| LifecycleCases.RequestConnects | src/Connection.cpp:264-940 | a connection request ends Connected, with socket, address and type of the first candidate that works, if and only if one works; else idle |
| LifecycleCases.RequestEndsIdle | src/Connection.cpp:264-296 | a request that is bad, finds nothing to try or is interrupted leaves nothing behind |
| LifecycleCases.DisconnectCloses | src/Connection.cpp:308-353 | a connected worker starts closing on a disconnect request, and nothing else changes |
| LifecycleCases.ErrorEndsOrSuspends | src/Connection.cpp:483-543 | which errors end or suspend the connection, by name, and that others change nothing |
| LifecycleCases.ReconnectingIsCancelled | src/Connection.cpp:371-392 | a disconnect request or the seventh try ends reconnecting idle |
| LifecycleCases.TryLeadsTo | src/Connection.cpp:380-424 | where one of the six tries leads: connected through the new socket with the old address, with the callback exactly if stateless; a refused stateful try makes the next one stateless; other failures only count |
| LifecycleCases.RefusalMakesStateless | src/Connection.cpp:380-424 | a refusal and then a success: stateless, connected, callback called once |
| LifecycleCases.ClosingEndsIdle | src/Connection.cpp:440-472 | closing ends idle, cleanly or not |
| LifecycleCases.DisconnectIsHonoured | src/Connection.cpp:308-472 | in every run, a disconnect request makes a reconnecting worker idle in one turn and a connected one in two |
| StatTrackers.SummarizePackets | src/util/StatTracker.cpp:97-118 | counts, sums and minima of both directions are right, and what the maxima are |
| StatTrackers.MaximumIsRightIff | src/util/StatTracker.cpp:106-110 | the reported maximum is the true one if and only if the largest size is zero or occurs after the first packet |
| StatTrackers.EveryPacketCounts | src/util/StatTracker.cpp:97-118 | every packet counts once, in one of the two directions, with its size |
| StatTrackers.SizesTell | src/util/StatTracker.cpp:97-118 | the sizes summarised for a direction are those of its packets |
| StatTrackers.WindowStart | src/util/StatTracker.cpp:30-44 | the longest suffix within the period; all for a zero period |
| StatTrackers.WindowIsPeriod | src/util/StatTracker.cpp:34-44 | for entries in order of time that suffix is exactly the period |
| StatTrackers.CountRelStats | src/util/StatTracker.cpp:128-190 | resends, unknown acks, unacknowledged and acknowledged ids are the sizes of the sets they stand for, every sent id is counted once, and the ack delays are the least, greatest and mean time from first send to first ack of the acknowledged ids |
| StatTrackers.FirstTimeIsFirst | src/util/StatTracker.cpp:141-162 | the recorded time of an id is that of the first message that sends, or acknowledges, it |
| StatTrackers.IdsTell | src/util/StatTracker.cpp:128-190 | ids count as sent in messages to the server, and as acknowledged in the acks of messages from it; zero is no id |

## Left out

- Sockets, coroutines, channels and locks: operations are atomic steps, and what the environment does is a parameter or a nondeterministic choice.
- The internals of zstd, lz4, TLS and the QUIC library, and failures of compressors.
- FinalDataUndoesPrepared: payloads of 4 GiB and more, whose size does not fit the 32-bit header field.
- FragmentSafety: messages of more than 32768 fragments, and reuse of a fragmentation id while its fragments are on the way, where ReusedIdMixes shows what can happen.
- ExactlyOnceInOrder: a message is one packet of the network; the same for encoded, fragmented datagrams is PayloadsExactlyOnceInOrder.
- PayloadsExactlyOnceInOrder: fragments that meet one of another message under their id in the store (ReusedIdMixes); messages the codec cannot carry (compressed ones with a connection id, more than 32768 fragments, 4 GiB, compressed ones beyond the receiver's limit); datagrams not of the other transport, control messages among them; and, with id wraps, arrivals outside the id window.
- NoPayloadIsLost: the same; through id wraps, what holds of the queues is AckSafetyThroughWraps.
- HandleIncoming: headers that announce more acks than the eight they hold, where the program reads behind its array; what it finds there is not modelled. DecodedIsRelOkIff tells which datagrams these are.
- ProcessOne: the same headers.
- CountRelStats: the same headers; and the float ratios of snapshots.
- AckSafety: runs that reuse ids, where an old ack can meet a new message; what holds there is AckSafetyThroughWraps.
- EverythingCanArrive: runs that reuse ids; and messages more than 16382 behind the last one, which the receiver takes for ones far ahead and does not acknowledge again.
- AckSafetyThroughWraps: messages that arrive too old for the id window, and acks a period or more back, counted from when their packet was last sent, for which the ids do not tell old from new.
- ReceiveMessage: the refusal when the receive buffer has grown to its limit, which depends on the growth of the ring buffer.
- Write: the growth of the ring buffer, assumed to stay within the maximum and to happen only when needed.
- The receiving half of QuicStream, which drops data that does not fit, and sending a QUIC packet with the lock released.
- WorkerThreadLoop: name resolution, pinging, candidate order and waiting times; simulateConnectionDrop and destroy, which act from other threads.
- Keepalive schedules, round-trip smoothing, packet loss simulation, logging and error texts.
- The sorting of ping results, whose comparison is not transitive, and of connection types.
- DNS, the pinger, URL parsing and the database file format.
