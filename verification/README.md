# A verified model of the security key firmware

The firmware is a USB security key. Hosts talk to it in 64-byte CTAPHID reports (section 11.2 of CTAP 2.1),
which it assembles into CBOR requests (RFC 8949), answers after the user has pressed a button, and sends back
in fragments. Credentials are not stored: a credential ID carries its private scalar, sealed under a wrapping
root. This project models the parts of the firmware where most can go wrong and proves what they are for.

## How it is laid out

| files | what they model |
|---|---|
| `Bytes`, `Bits`, `Memory`, `Wire` | machine integers and big-endian bytes, bitwise operations, buffer copies, the report format |
| `CtaphidProtocol` | the receiver as a host can observe it: channels with generations, one transaction in progress, pending timeouts |
| `CtaphidTable`, `CtaphidCore` | the receiver as it is written: a channel table and two payload buffers updated in place, proved to take the protocol's steps |
| `CtaphidTx`, `CtaphidProbe` | fragmentation on the device, and the host script's fragmentation and reassembly |
| `CtaphidAnswers` | which reports are refused, accepted and answered, outcome by outcome |
| `CtaphidRuns`, `CtaphidTokens`, `CtaphidTimeouts`, `CtaphidCancels` | guarantees over whole runs of the protocol |
| `UsbQueue`, `UsbBus`, `UsbHistory` | the report queue, readiness and connection generations of the bus, and what they are after any events |
| `CtaphidTransport`, `CtaphidIsolation` | the concurrent shell: transport task, application tasks, bus events and reset requests, and its safety |
| `CtaphidDelivery`, `CtaphidLoop` | what each locked section does, told by what a caller can observe and by the events that fall into it |
| `CtaphidSources`, `CtaphidLift` | where everything on the wire comes from, and how runs of the transport are runs of the protocol |
| `CtaphidExchange` | a whole exchange: request, cancellation, answer, and what the host reads |
| `CtaphidSchedules` | runs in which no connection event falls into a window, and runs from start-up to the states that matter |
| `CborItem`, `CborReader`, `CborWriter`, `CborKeys`, `CborChain`, `CborExamples` | data items and their one encoding, the bounded reader and writer, the key mask |
| `CtapStatus`, `CtapMaps`, `CtapFields`, `AssertionRequest`, `CredentialRequest` | the grammar of both requests and the hand-written parsers for it |
| `RequestStatus` | the status of a request as a function of the items it is made of |
| `RequestRoundTrips` | every request a command has a place for, written and parsed back |
| `Crypto`, `Cred`, `ToyCipher` | the cryptographic libraries as opaque operations with laws, credential IDs, an instance that meets the laws |
| `CtapCommand`, `GetAssertion`, `MakeCredential`, `Passkey`, `RelyingParty` | the two commands, registering followed by asserting, and what a relying party makes of the responses |
| `P256Util`, `Press` | scalar and signature checks, the debounced button |

Code that changes state in place is modelled by classes and arrays: each method's contract equates the new
abstract value with a function of the old one, and what the firmware promises is proved about that function.
`CtaphidCore.Core` refines `CtaphidProtocol`, `UsbQueue.Ring` a list, `UsbBus.Usb` the bus machine, the CBOR
reader and writer the set of encoded items. The concurrent shell is a state machine over values: a section
that holds the core mutex is one step, but the bus and the reset flag are not protected by that mutex, so
every step carries the events that happen between any two reads of them.

## Main results

* `CtaphidExchange.ExchangeWorks`: every request goes through the whole transport and back, frame by frame, to the
  task that takes it and to the host that asked, cancelled or not.
* `CtaphidIsolation.ConnectionIsolation`, `CtaphidIsolation.NoOrphan`: safety over every interleaving of the
  transport task, the application, bus events and resets; `CtaphidSources.EveryReportHasASource` and
  `CtaphidLift.AnswersOverRuns` say what is on the wire.
* `CtaphidRuns.RoundTrip`, `CtaphidCancels.CancelledExactlyWhen`, `CtaphidTimeouts.PaceCatchesExactly`,
  `CtaphidTokens.StaleTokenIsInert`: the receiver over every run, and by `CtaphidLift.ReachIsRun` over every
  interleaving.
* `CtaphidCore.Core.FeedReport`: tables and buffers updated in place refine the protocol.
* `CborReader.Reader.SkipAt`, `AssertionRequest.ReadRequest`, `CredentialRequest.ReadRequest`: exact recognisers;
  `RequestStatus.AssertionAnswered` and `RequestStatus.RegistrationAnswered` give the status of every item.
* `RelyingParty.PasskeyWorks`: what the device registers and asserts, a relying party accepts.

## What was found

* A PING on a channel whose 32-bit generation has wrapped to zero is echoed but never finished, because
  generation zero also means "no generation" (`p4_ctaphid.c`, after the reply is sent). The receiver is idle
  after a PING exactly when that generation, which the channel shows before the report, is not zero, and "no
  transaction is orphaned" holds with exactly this exception. A run from start-up reaches it.
* A call drops a partial message exactly when the time since its last packet is 500 ms or more modulo 2^32. So
  calls catch every stalled message if and only if they are at most 2^32 - 500 ms apart; less than 2^32 ms is
  not enough, and every longer gap up to 2^32 ms hides some stalled message.
* A resync request with a wrong length, or on a channel that does not hold a busy transport, leaves a timeout
  pending, so a timeout can still be reported after a new initial packet. Which reports settle it is exact.
* A report is authorised by one connection and handed to the controller a moment later. It goes out on that
  connection exactly when none ends in between, for every report of every run; there is a run from start-up
  in which a reconnection puts an answer on another connection.
* Skipping a string longer than 2048 bytes is refused without latching the failure. Every parser still refuses
  the request.
* A response buffer of more than 2048 bytes makes both commands fail, since the writer refuses it. The
  dispatcher never passes one.
* The queue-full branch of the receiver, its second timeout check and the first staleness check of the report
  queue are unreachable.

## Model

| member | source | states |
|---|---|---|
| CtaphidCore.Core.constructor | components/p4_ctaphid/p4_ctaphid_chan.c:22-30 | a new core stands for the protocol's initial state |
| CtaphidCore.Core.Reset | components/p4_ctaphid/p4_ctaphid_chan.c:33-42 | from any state, no channel, transaction or payload byte survives |
| CtaphidCore.Core.Wipe | components/p4_ctaphid/p4_ctaphid_chan.c:7-19 | every byte of the buffer is zero afterwards |
| CtaphidCore.Core.Find | components/p4_ctaphid/p4_ctaphid_chan.c:45-77 | the scan finds the slot of a channel number, or that there is none |
| CtaphidCore.Core.DrawCid | components/p4_ctaphid/p4_ctaphid_chan.c:109-131 | the first usable one of at most sixteen draws is taken; a failing random source or sixteen unusable draws end it |
| CtaphidCore.Core.AllocateChannel | components/p4_ctaphid/p4_ctaphid_chan.c:89-132 | a channel with generation zero is added and nothing else changes, or the table is full or the random source failed and nothing changes |
| CtaphidCore.Core.TakeMessage | components/p4_ctaphid/p4_ctaphid_chan.c:135-177 | hands over the waiting message with its generation once, wipes it, and leaves it in place when it does not fit the caller's buffer |
| CtaphidCore.Core.Cancelled | components/p4_ctaphid/p4_ctaphid_chan.c:180-193 | a token that no longer names the transaction in progress reads as cancelled |
| CtaphidCore.Core.ClearCancelMark | components/p4_ctaphid/p4_ctaphid_chan.c:196-209 | clears the mark only under the current token |
| CtaphidCore.Core.ClearActive | components/p4_ctaphid/p4_ctaphid_rx.c:86-115 | ends the transaction and drops its message; no payload byte is left in either buffer |
| CtaphidCore.Core.FinishResponse | components/p4_ctaphid/p4_ctaphid_rx.c:118-133 | ends the transaction only if it is the one the token names |
| CtaphidCore.Core.BeginMessage | components/p4_ctaphid/p4_ctaphid_rx.c:136-158 | gives the transport and a zeroed assembly buffer to one channel with a new generation |
| CtaphidCore.Core.CompleteMessage | components/p4_ctaphid/p4_ctaphid_rx.c:161-197 | a PING is echoed, a CBOR request swaps the buffers without a copy; a second message never meets an unread one |
| CtaphidCore.Core.HandleInit | components/p4_ctaphid/p4_ctaphid_rx.c:218-267 | allocation on the broadcast channel; resynchronisation of a channel ends only that channel's own transaction |
| CtaphidCore.Core.HandleCancel | components/p4_ctaphid/p4_ctaphid_rx.c:270-294 | marks exactly the CBOR request in progress on the same channel, if the packet is empty |
| CtaphidCore.Core.FeedInitialRequest | components/p4_ctaphid/p4_ctaphid_rx.c:297-370 | each refusal (unknown channel, busy, broken sequence, length, command) with its error and its effect, or the start of a message |
| CtaphidCore.Core.FeedContinuationReport | components/p4_ctaphid/p4_ctaphid_rx.c:373-422 | pending timeout reported, foreign and spurious packets ignored, wrong sequence refused, chunk appended; the second timeout check is dead |
| CtaphidCore.Core.FeedReport | components/p4_ctaphid/p4_ctaphid_rx.c:425-446 | one report on tables and buffers is one protocol step, with the same action, and keeps every table and buffer invariant |
| CtaphidCore.Core.Cleanup | components/p4_ctaphid/p4_ctaphid_rx.c:449-470 | a partial message older than the timeout is dropped and remembered as a timeout to report |
| CtaphidCore.Core.KeepaliveSent | components/p4_ctaphid/p4_ctaphid.c:620-626 | records status and time of a keepalive for the request in progress only |
| CtaphidTable.NoRequestBytesRemain | components/p4_ctaphid/p4_ctaphid_rx.c:86-158 | in every good state, when idle or once the application holds the request, both payload buffers are all zero |
| CtaphidTable.GensCount | components/p4_ctaphid/p4_ctaphid_chan.c:89-104 | the table has no free slot exactly when four channels are allocated |
| CtaphidTable.CompleteCbor | components/p4_ctaphid/p4_ctaphid_rx.c:182-196 | swapping the buffer indices turns the assembled bytes into the message and keeps every other byte zero |
| CtaphidTable.AbandonRaw | components/p4_ctaphid/p4_ctaphid_rx.c:86-115 | the register updates of clearing are the protocol's abandonment |
| CtaphidProtocol.FeedKeepsInv | components/p4_ctaphid/p4_ctaphid_rx.c:75-470 | channel numbers stay distinct, neither zero nor broadcast, at most four; a partial message has received 57 + 59n of at most 2048 bytes; a waiting message belongs to the CBOR request in progress |
| CtaphidProtocol.DrawIsUsable | components/p4_ctaphid/p4_ctaphid_chan.c:108-125 | an allocated number is neither zero, broadcast nor in use |
| CtaphidProtocol.FragmentFits | components/p4_ctaphid/p4_ctaphid_rx.c:373-422 | a fragment never overruns the declared length, and the sequence number never leaves seven bits |
| CtaphidProtocol.FeedOutcome | components/p4_ctaphid/p4_ctaphid_rx.c:161-197 | a message is delivered and a PING echoed only as a new transaction; any other action leaves the transaction being processed, its generation and its message as they were |
| CtaphidAnswers.DrawExactly | components/p4_ctaphid/p4_ctaphid_chan.c:107-131 | a channel number is found if and only if one of sixteen draws is usable and all before it succeeded, and it is the first such; the two failures likewise |
| CtaphidAnswers.RefusedExactlyWhen | components/p4_ctaphid/p4_ctaphid_rx.c:218-422 | a report is answered with an error code if and only if it meets that code's condition, code by code: unknown command, wrong length, broken sequence, timeout, busy, unknown channel, no channel to be had |
| CtaphidAnswers.InitAnswered | components/p4_ctaphid/p4_ctaphid_rx.c:200-267 | an INIT that meets no such condition is answered with its nonce, then the channel, version and capabilities, byte by byte; broadcast gets a new channel, any other channel its own, afresh; a refused INIT changes nothing |
| CtaphidAnswers.TransactionBegins | components/p4_ctaphid/p4_ctaphid_rx.c:297-370 | an idle receiver begins a transaction if and only if an acceptable request comes on a known channel, and then holds what it carried |
| CtaphidAnswers.TransactionGoesOn | components/p4_ctaphid/p4_ctaphid_rx.c:218-422 | a transaction ends if and only if its own channel resynchronises or breaks the message being sent; its next fragment extends it, a CANCEL marks it, every other report leaves it |
| CtaphidAnswers.CancelTakesEffect | components/p4_ctaphid/p4_ctaphid_rx.c:270-294 | a report is taken for a cancellation if and only if it is an empty CANCEL on the channel of the CBOR request being processed, and then its token reads as cancelled |
| CtaphidCancels.CancelledExactlyWhen | components/p4_ctaphid/p4_ctaphid_rx.c:270-294 | over any run, the token of the pending request reads as cancelled if and only if such a CANCEL came since the request began and nobody cleared it after that |
| CtaphidTx.Send | components/p4_ctaphid/p4_ctaphid_tx.c:37-75 | what goes out is a prefix of the frames of the message, all of them on success, none when an argument is refused |
| CtaphidTx.InitialReport | components/p4_ctaphid/p4_ctaphid_tx.c:15-34 | channel, command, length and first bytes at their offsets, zero padding |
| CtaphidTx.CarriesUnique | components/p4_ctaphid/p4_ctaphid_tx.c:37-75 | reports determine the command and payload they carry |
| CtaphidTx.CarriedAll | components/p4_ctaphid/p4_ctaphid_tx.c:57-73 | the last frame is the one that completes the message; at most 35 frames, so sequence numbers stay below 0x80 |
| CtaphidProbe.EncodeReports | scripts/ctaphid_mvp_probe.py:43-66 | the host refuses exactly what the device refuses and emits byte-identical reports |
| CtaphidProbe.ReadMessage | scripts/ctaphid_mvp_probe.py:86-108 | returns the message the reports carry and fails only when they carry none |
| CtaphidProbe.FramedMessageIsCarriedAlone | scripts/ctaphid_mvp_probe.py:86-108 | the frames of a message, whatever follows them, carry that message and no other |
| CtaphidRuns.RoundTrip | components/p4_ctaphid/p4_ctaphid_rx.c:297-446 | for every PING of 0..2048 and CBOR of 1..2048 bytes, its frames with any other traffic, cancels and application calls between end in exactly one action with exactly that payload |
| CtaphidRuns.NoiseIsHarmless | components/p4_ctaphid/p4_ctaphid_rx.c:297-446 | while a channel sends a message no other traffic changes its progress or generation or gets a message through |
| CtaphidRuns.ForeignReportFrame | components/p4_ctaphid/p4_ctaphid_rx.c:218-422 | a report of another channel changes neither generation nor pending timeout of this one, nor a transaction it owns |
| CtaphidTokens.HandoverOnce | components/p4_ctaphid/p4_ctaphid_chan.c:135-177 | over any run, what the application takes is a subsequence of what was completed: in order, nothing twice |
| CtaphidTokens.TakeEmpties | components/p4_ctaphid/p4_ctaphid_chan.c:135-177 | a message that was taken is gone, and its token names the transaction in progress |
| CtaphidTokens.GenerationCounts | components/p4_ctaphid/p4_ctaphid_rx.c:136-158 | over any run without reset, a channel's generation has advanced by its number of renewals, modulo 2^32 |
| CtaphidTokens.StaleTokenIsInert | components/p4_ctaphid/p4_ctaphid_chan.c:180-209 | after between 1 and 2^32 - 1 renewals an old token finishes nothing, clears nothing and reads as cancelled |
| CtaphidTokens.TokenWraps | components/p4_ctaphid/p4_ctaphid_rx.c:118-158 | after exactly 2^32 renewals the old token ends and uncancels whatever its channel is processing, so the bound is sharp |
| CtaphidTokens.RenewalsAre | components/p4_ctaphid/p4_ctaphid_rx.c:218-370 | an accepted request and an accepted resync renew their channel, and nothing else renews any |
| CtaphidTimeouts.ExpiredIsModular | components/p4_ctaphid/p4_ctaphid_time.c:4-8 | the wrap-around age test compares elapsed real time modulo 2^32 |
| CtaphidTimeouts.DropsExactlyWhen | components/p4_ctaphid/p4_ctaphid_rx.c:449-470 | a call drops a partial message if and only if the real time since its last packet is 500 ms or more modulo 2^32, and changes nothing otherwise |
| CtaphidTimeouts.StalledMessageDrops | components/p4_ctaphid/p4_ctaphid_rx.c:449-470 | with calls at most 2^32 - 500 ms apart, a stalled message is kept through every earlier call and dropped at the first one 500 ms or more after its last packet |
| CtaphidTimeouts.LongGapHidesStall | components/p4_ctaphid/p4_ctaphid_rx.c:449-470 | for every gap above 2^32 - 500 and up to 2^32 ms there are a call before and a call after it, less and more than 500 ms from the last packet, that both keep the message |
| CtaphidTimeouts.PaceCatchesExactly | components/p4_ctaphid/p4_ctaphid_rx.c:449-470 | calls no further apart than a pace catch every stalled message if and only if the pace is at most 2^32 - 500 ms |
| CtaphidTimeouts.MidwayIsReached | components/p4_ctaphid/p4_ctaphid_rx.c:297-370 | the partial message that refutes a longer pace is reached from start-up by two reports |
| CtaphidTimeouts.TimeoutStep | components/p4_ctaphid/p4_ctaphid_rx.c:373-470 | exactly which operations start, keep, report and settle a pending timeout |
| CtaphidTimeouts.TimeoutReportedOnce | components/p4_ctaphid/p4_ctaphid_rx.c:373-391 | over any run a channel reports no more timeouts than messages it dropped |
| CtaphidTimeouts.MalformedInitKeepsTimeout | components/p4_ctaphid/p4_ctaphid_rx.c:218-235 | in a run from start-up, a resync of the wrong length leaves a timeout pending and a later continuation reports it |
| UsbQueue.Ring.Push | components/p4_usb/p4_usb_queue.c:16-30 | appends to the list, or rejects the newest report when eight wait |
| UsbQueue.Ring.Pop | components/p4_usb/p4_usb_queue.c:33-43 | removes the oldest report, across the wrap of the ring |
| UsbQueue.Ring.Clear | components/p4_usb/p4_usb_queue.c:46-54 | empties the list and clears the old bytes |
| UsbBus.Usb.Event | components/p4_usb/p4_usb.c:112-168 | attach, detach and suspend start a generation with an empty queue; resuming is ready only if mounted |
| UsbBus.Usb.SetReport | components/p4_usb/p4_usb.c:489-523 | only a 64-byte output report 0 on a ready connection is queued, with the generation in force |
| UsbBus.Usb.Take | components/p4_usb/p4_usb.c:231-304 | refines waiting on the bus machine; the check right after removal can never find a stale report |
| UsbBus.AfterIsLater | components/p4_usb/p4_usb.c:112-168 | under any events, ready implies mounted, queued reports imply ready and carry the current generation, and ready lasts as long as the generation |
| UsbHistory.MountedExactlyWhen | components/p4_usb/p4_usb.c:112-168 | after any events the bus is mounted if and only if it was attached and not detached since |
| UsbHistory.ReadyExactlyWhen | components/p4_usb/p4_usb.c:112-168 | it is ready if and only if it is mounted and nothing but reports came since it was attached or resumed |
| UsbHistory.ReportsQueueUp | components/p4_usb/p4_usb.c:489-523 | while a connection lasts its reports wait in the order they came, and those that find eight waiting are lost |
| UsbHistory.ConnectionStartsEmpty | components/p4_usb/p4_usb.c:112-168 | a new connection has the next generation and only its own reports |
| UsbHistory.ReceivedExactly | components/p4_usb/p4_usb.c:231-304 | a caller that waits gets the oldest report at the first look that finds one unless its connection ends before it is confirmed, is sent away at the first look that finds the connection gone, and times out otherwise |
| UsbBus.GenerationMoves | components/p4_usb/p4_usb.c:112-168 | the generation moves exactly at an attach, detach or suspend |
| UsbBus.CounterShowsChange | components/p4_usb/p4_usb.c:112-168 | the 32-bit counter shows a change exactly when the number of those events is no multiple of 2^32; short of 2^32 of them it agrees with the unbounded generation |
| UsbBus.Usb.DropPending | components/p4_usb/p4_usb.c:431-437 | empties the queue and leaves the connection and its generation alone |
| UsbBus.ReceivedIsCurrent | components/p4_usb/p4_usb.c:231-304 | a report is received only while the connection it arrived on is ready; it is stale only if that ended between removal and confirmation |
| CtaphidTransport.EmitIsAuthorised | components/p4_usb/p4_usb.c:321-403 | everything transmitted was authorised by the caller's connection token and carried by that or a later connection |
| CtaphidDelivery.EmitsExactly | components/p4_ctaphid/p4_ctaphid.c:165-206 | report n of a message goes out if and only if it and all before it are accepted and no reset or connection event falls where it is looked for; it is frame n of the message |
| CtaphidDelivery.OwnedExactlyWhen | components/p4_ctaphid/p4_ctaphid.c:116-135 | a task's claim stands if and only if it is its own and on this channel, its connection is in force, no reset is asked for and the events between the reads leave it so |
| CtaphidDelivery.RespondSends | components/p4_ctaphid/p4_ctaphid.c:548-586 | under a standing claim the wire gets the frames of the given data, or of the one byte 0x2d if the CBOR request was cancelled, as far as events and controller let them out, and transaction and claim are over; without one nothing happens |
| CtaphidDelivery.BeatSends | components/p4_ctaphid/p4_ctaphid.c:589-629 | one keepalive with the given status goes out and is recorded if and only if the claim stands uncancelled, the status is one of the two, none with it went out less than 100 ms ago, and it passes |
| CtaphidDelivery.TakenExactlyWhen | components/p4_ctaphid/p4_ctaphid.c:475-545 | a request is handed over if and only if it waits and fits, nobody holds one, no reset is asked for and its connection is in force through all the reads; then it belongs to the caller, with its token and connection, and is no longer waiting |
| CtaphidSources.EveryReportHasASource | components/p4_ctaphid/p4_ctaphid.c:181-206 | over every run, each report on the wire is a frame, at its place, of an answer given under a claim, of a keepalive under a claim, or of the receiver's reply to the report being delivered |
| CtaphidLift.NextIsRun | components/p4_ctaphid/p4_ctaphid.c:244-661 | what a step of the transport does to the receiver is a run of the protocol's operations |
| CtaphidLift.ReachIsRun | components/p4_ctaphid/p4_ctaphid.c:244-661 | over every interleaving from start-up the receiver is where the run of its operations leads, so guarantees over runs of the protocol are guarantees over interleavings |
| CtaphidLift.AnswersOverRuns | components/p4_ctaphid/p4_ctaphid.c:548-586 | over every interleaving from start-up, a task that answers the request it holds sends exactly the data it gives, unless a CANCEL came while the request was pending and was not cleared, and then exactly the one byte |
| CtaphidLift.ClaimedOnce | components/p4_ctaphid/p4_ctaphid.c:475-545 | over every interleaving, the requests that tasks take are requests the receiver completed, in that order and none twice |
| CtaphidExchange.ExchangeWorks | components/p4_ctaphid/p4_ctaphid.c:318-586 | on an idle receiver that listens, every CBOR request of 1 to 2048 bytes sent in its frames is handed over and its answer, or the one byte after a CANCEL, goes out in its frames on the same connection; the host reads exactly that back, and the receiver is ready again |
| CtaphidExchange.HostIsServed | components/p4_ctaphid/p4_ctaphid.c:318-586 | the run from start-up: a channel is granted, any request is sent, and the wire holds the grant and the frames of the answer and nothing else |
| CtaphidLoop.ResetIsServed | components/p4_ctaphid/p4_ctaphid.c:269-291 | a reset that was asked for leaves no channel, transaction, claim or waiting report before the task goes on |
| CtaphidLoop.ResetAllServes | components/p4_ctaphid/p4_ctaphid.c:244-266 | so does the caller's own reset |
| CtaphidLoop.ConnectionIsNoticed | components/p4_ctaphid/p4_ctaphid.c:294-315 | a connection the task has not seen resets the receiver; the one it has seen changes nothing |
| CtaphidLoop.StalledIsTidied | components/p4_ctaphid/p4_ctaphid.c:338-345 | with nothing to read the task drops a stalled message and does nothing else |
| CtaphidLoop.NotTakenMeans | components/p4_ctaphid/p4_ctaphid.c:502-522 | asking for a request that is not handed over drops it with the connection it came on if that ended between the reads, and otherwise changes nothing |
| CtaphidLoop.OldestIsFed | components/p4_ctaphid/p4_ctaphid.c:318-429 | one turn of the loop takes the report that has waited longest and feeds it, and leaves the others waiting |
| CtaphidLoop.GoneIsSkipped | components/p4_ctaphid/p4_ctaphid.c:346-351 | with the connection gone the task starts over and changes nothing |
| CtaphidLoop.DeliveredExactlyWhen | components/p4_ctaphid/p4_ctaphid.c:353-394 | a held report is fed, to the receiver as it is or reset for its connection, if and only if that connection is in force and no reset is asked for or has run since it was fetched; otherwise it is dropped |
| CtaphidLoop.ClaimSurvives | components/p4_ctaphid/p4_ctaphid.c:146-152 | a claim survives a report if and only if its request is still being processed on a connection still in force |
| CtaphidIsolation.NextKeeps | components/p4_ctaphid/p4_ctaphid.c:107-661 | every locked section, with any events between its unprotected reads, keeps the system invariant |
| CtaphidIsolation.ConnectionIsolation | components/p4_ctaphid/p4_ctaphid.c:353-411 | in every run, for every report on the wire: every report consumed since the last reset arrived on the connection that authorised it, and that connection carried it if and only if no connection event fell into its window |
| CtaphidSchedules.CalmRunsStayHome | components/p4_ctaphid/p4_ctaphid.c:353-411 | in every run whose steps have undisturbed windows, each report went out on the one connection that everything consumed had arrived on |
| CtaphidSchedules.CycleAccepts | components/p4_ctaphid/p4_ctaphid.c:318-429 | a report that arrives while the transport task listens passes all seven steps of its loop unchanged and is accepted |
| CtaphidIsolation.NoOrphan | components/p4_ctaphid/p4_ctaphid.c:116-162 | whenever the mutex is free, a request being processed is queued or claimed, or a reset is pending, or the connection has gone, or it is a PING with generation zero |
| CtaphidIsolation.EpochMismatchMeansReset | components/p4_ctaphid/p4_ctaphid.c:353-411 | when the transport task remembers an older epoch the receiver is already in its reset state, so skipping the second reset changes nothing |
| CtaphidIsolation.ReseeKeeps | components/p4_ctaphid/p4_ctaphid.c:294-315 | noting a changed connection keeps the invariant, whether the reset is run or skipped because one just ran |
| CtaphidIsolation.RespondEnds | components/p4_ctaphid/p4_ctaphid.c:548-586 | sending the response returns the receiver to idle and drops the claim whether or not anything was transmitted |
| CtaphidIsolation.ClaimMessageKeeps | components/p4_ctaphid/p4_ctaphid.c:475-545 | taking a request ties the claim to the connection it arrived on, under any interleaving |
| CtaphidIsolation.BeatKeeps | components/p4_ctaphid/p4_ctaphid.c:589-629 | a keepalive keeps the system invariant under any interleaving |
| CtaphidIsolation.BeatChanges | components/p4_ctaphid/p4_ctaphid.c:589-629 | it transmits or changes the receiver only under a standing, uncancelled CBOR claim of the calling task, and then changes only the keepalive mark, and that only when the report went out |
| CtaphidIsolation.UncancelKeeps | components/p4_ctaphid/p4_ctaphid.c:648-661 | clearing a cancel keeps the system invariant under any interleaving |
| CtaphidIsolation.UncancelChanges | components/p4_ctaphid/p4_ctaphid.c:648-661 | it transmits nothing and, only under a standing claim of the calling task, clears the one mark |
| CtaphidIsolation.PingEndsUnlessWrapped | components/p4_ctaphid/p4_ctaphid.c:392-412 | after a PING the receiver is idle if and only if the channel's generation beforehand was not 2^32 - 1 for a PING in one report, not 0 for one just completed |
| CtaphidSchedules.WrappedPingIsReached | components/p4_ctaphid/p4_ctaphid.c:392-412 | a run from start-up, through 2^32 - 1 resyncs, to a PING that nobody will finish |
| CtaphidIsolation.WindowDecides | components/p4_usb/p4_usb.c:367-384 | a report goes out on the connection that authorised it if and only if no connection event falls between the last check and handing it over |
| CtaphidSchedules.ReportCrossesConnections | components/p4_usb/p4_usb.c:367-384 | a run from start-up in which the answer to a connection's request goes out on a later connection |
| CborItem.HeadUnique | components/p4_ctap/p4_cbor.c:28-60 | no canonical head is the beginning of another |
| CborItem.EncUnique | components/p4_ctap/p4_cbor.c:363-402 | a byte string begins with the encoding of at most one item |
| CborExamples.Integers | components/p4_ctap/p4_cbor.c:28-113 | the encodings of integers in Appendix A of RFC 8949 |
| CborExamples.Nested | components/p4_ctap/p4_cbor.c:28-148 | the encoding of a map with an array in it, as in that appendix |
| CborReader.Reader.ReadHead | components/p4_ctap/p4_cbor.c:182-228 | accepts exactly the canonical heads and moves past them; a refusal latches |
| CborReader.Decode | components/p4_ctap/p4_cbor.c:214-217 | the shift-and-or loop yields the big-endian number |
| CborReader.Reader.GetContainer | components/p4_ctap/p4_cbor.c:231-246 | succeeds exactly on a head of the expected kind with at most 32 items |
| CborReader.Reader.GetUint | components/p4_ctap/p4_cbor.c:295-305 | succeeds exactly when an unsigned integer stands here |
| CborReader.Reader.GetInt | components/p4_ctap/p4_cbor.c:308-323 | succeeds exactly when an integer of 64-bit signed range stands here, and returns it |
| CborReader.Reader.GetString | components/p4_ctap/p4_cbor.c:249-266 | succeeds exactly when a complete string of the expected kind with at most 2048 bytes stands here |
| CborReader.Reader.GetBool | components/p4_ctap/p4_cbor.c:347-360 | succeeds exactly on the two boolean items |
| CborReader.Reader.SkipAt | components/p4_ctap/p4_cbor.c:363-402 | succeeds exactly when a canonical item of the supported subset, nested no deeper than is left, stands here, and moves past exactly its encoding; a refusal latches or stopped behind the head of an over-long string |
| CborReader.Reader.SkipString | components/p4_ctap/p4_cbor.c:379-382 | the refusal that does not latch happens exactly for lengths above 2048 |
| CborReader.Reader.Done | components/p4_ctap/p4_cbor.c:411-414 | nothing was refused and nothing is left |
| CborWriter.EncodeHead | components/p4_ctap/p4_cbor.c:28-60 | the byte loops build the shortest big-endian encoding of every 64-bit argument |
| CborWriter.Writer.Add | components/p4_ctap/p4_cbor.c:7-25 | all of the bytes are added or the writer has failed for good; no byte outside the room for them is touched |
| CborWriter.Writer.PutInt | components/p4_ctap/p4_cbor.c:107-113 | every 64-bit signed integer is written without an overflow, the least one included |
| CborWriter.Writer.PutString | components/p4_ctap/p4_cbor.c:116-141 | head and contents, or a latched failure above 2048 bytes or without room |
| CborWriter.Writer.PutContainer | components/p4_ctap/p4_cbor.c:77-98 | a container head for at most 32 items, or a latched failure |
| CborWriter.HeadRoundTrip | components/p4_ctap/p4_cbor.c:28-60 | for every major type and 64-bit argument the reader reads back what the writer wrote |
| CborWriter.HeadRewritten | components/p4_ctap/p4_cbor.c:182-228 | any head the reader accepts is byte for byte what the writer emits for it |
| CborWriter.IntegerRoundTrip | components/p4_ctap/p4_cbor.c:107-113 | writing and reading back is the identity on all 64-bit signed integers |
| CborWriter.PutItem | components/p4_ctap/p4_cbor.c:77-148 | any item within the bounds, put piece by piece, comes out as its one encoding if it fits, and latches a failure otherwise |
| CborKeys.KnownKeyOnce | components/p4_ctap/p4_cbor.c:417-428 | a key from 1 to 32 enters the mask exactly when it is not there, and no other key is affected |
| CborKeys.MaskTest | components/p4_ctap/p4_get_assertion.c:245-247 | masking with the low bits tests that all the required keys were seen |
| CtapMaps.ReadIgnoredMap | components/p4_ctap/p4_get_assertion.c:117-134 | accepts exactly maps with text keys and supported values, and moves past them |
| CtapMaps.ObeysMeans | components/p4_ctap/p4_get_assertion.c:59-114 | in an accepted map no once-only key occurs twice, and looking it up yields its value |
| CtapMaps.MapFaultUnique | components/p4_ctap/p4_get_assertion.c:117-169 | a refused map has one first fault and so one status |
| CtapMaps.MapFaultExcludes | components/p4_ctap/p4_get_assertion.c:117-169 | a map that is accepted has no fault |
| CtapFields.ReadFlags | components/p4_ctap/p4_get_assertion.c:137-169 | accepts exactly option maps whose two known flags are booleans and occur once, returns the flags, and otherwise the status of the first thing wrong |
| CtapFields.ReadDesc | components/p4_ctap/p4_get_assertion.c:73-111 | accepts exactly descriptors with one text type and one byte-string ID in any order, and otherwise returns the status of the first thing wrong |
| CtapFields.ReadDescriptors | components/p4_ctap/p4_make_credential.c:189-247 | accepts exactly lists of at most sixteen descriptors and returns them in order, and otherwise the status of the first thing wrong |
| AssertionRequest.ReadMembers | components/p4_ctap/p4_get_assertion.c:172-245 | accepts exactly one map that fills the request, with known keys once each and values of their kinds, and yields its meaning |
| AssertionRequest.ReadRequest | components/p4_ctap/p4_get_assertion.c:172-251 | OK if and only if the bytes encode a well-formed supported request, with the fields it stands for; unsupported if and only if they encode a well-formed one that asks for verification or a PIN; otherwise the status of what is missing or first wrong |
| AssertionRequest.RefusesOnce | components/p4_ctap/p4_get_assertion.c:172-251 | the status of a refusal is determined: for every byte string that is refused, exactly one status meets the description the parser is proved to follow |
| RequestStatus.AssertionAnswered | components/p4_ctap/p4_get_assertion.c:73-251 | to every well-formed item of up to 2048 bytes the parser answers exactly the status that a function of the item's members names, first fault first: type, length, repetition, depth, list size, missing parameter, unsupported option |
| AssertionRequest.AllowedIdOccurs | components/p4_ctap/p4_get_assertion.c:59-114 | every allowed credential ID is a stretch of the request's own bytes |
| CredentialRequest.ReadEntity | components/p4_ctap/p4_make_credential.c:59-127 | accepts exactly a relying party or user with one ID of its kind that is not empty, and otherwise returns the status of the first thing wrong |
| CredentialRequest.ReadAlg | components/p4_ctap/p4_make_credential.c:140-183 | accepts exactly maps with one type and one integer algorithm, and tells whether they offer ES256 |
| CredentialRequest.ReadAlgs | components/p4_ctap/p4_make_credential.c:130-186 | an empty list is refused; otherwise ES256 is offered exactly if some entry offers it |
| CredentialRequest.ReadRequest | components/p4_ctap/p4_make_credential.c:304-382 | OK, unsupported option and unsupported algorithm, each if and only if the bytes encode a well-formed request of that kind; otherwise the status of what is missing or first wrong |
| CredentialRequest.RefusesOnce | components/p4_ctap/p4_make_credential.c:304-382 | the status of a refusal is determined: for every byte string that is refused, exactly one status meets the description the parser is proved to follow |
| RequestStatus.RegistrationAnswered | components/p4_ctap/p4_make_credential.c:59-382 | likewise for registrations, with the algorithms offered |
| RequestRoundTrips.AssertionItemMeans | components/p4_ctap/p4_get_assertion.c:172-251 | every relying party, hash, list of up to sixteen descriptors and flags has a request that means exactly them |
| RequestRoundTrips.AssertionRoundTrip | components/p4_ctap/p4_get_assertion.c:172-251 | such a request, put by the writer, is read back with the same fields, or as unsupported if it asks for verification; it is refused by the writer only when it is larger than a request may be |
| RequestRoundTrips.RegistrationItemMeans | components/p4_ctap/p4_make_credential.c:304-382 | every relying party, user, hash, list of up to sixteen exclusions, algorithm and flags has a request that means exactly them |
| RequestRoundTrips.RegistrationRoundTrip | components/p4_ctap/p4_make_credential.c:304-382 | such a request, put by the writer, is read back with the same fields, or with the status of what is unsupported in it |
| Cred.EqualHash | components/p4_cred/p4_cred.c:46-54 | the accumulated differences are zero exactly for equal hashes |
| Cred.CredWrap | components/p4_cred/p4_cred.c:76-145 | which of the errors applies, the sealed ID at its offsets on success, a cleared output otherwise, and cleared scratch buffers on every exit |
| Cred.CredOpen | components/p4_cred/p4_cred.c:148-228 | which of the errors applies, the scalar on success, no part of a scalar in the output otherwise, and cleared scratch buffers on every exit |
| Cred.WrapThenOpen | components/p4_cred/p4_cred.c:76-228 | a wrapped scalar opens for the relying party it was wrapped for and is a mismatch for every other |
| Cred.WrappedFields | components/p4_cred/p4_cred.c:76-145 | an ID is its mark and version, the nonce, and the ciphertext and tag of relying party hash and scalar under mark and device, at their offsets |
| Cred.NotWrappedExactlyWhen | components/p4_cred/p4_cred.c:76-145 | each error of wrapping if and only if its cause: no key, no root, a failing library or random source |
| Cred.OpenedExactlyWhen | components/p4_cred/p4_cred.c:148-228 | an ID opens to a scalar if and only if it has the mark and its ciphertext decrypts under the root to this relying party's hash and that scalar, which is a key |
| Cred.NotOpenedExactlyWhen | components/p4_cred/p4_cred.c:148-228 | each error of opening if and only if its cause: no root, a failing library, or an ID that is not this device's for this relying party |
| ToyCipher.TheLawsCanBeMet | tests/host/make_cred_fakes.c:136-209 | the stand-in libraries of the host tests meet all the assumed laws, the signing law included, and credentials do get wrapped with them |
| ToyCipher.RegistersAndAsserts | tests/host/get_assertion_fakes.c:136-160 | on a device with them a registration succeeds and so does an assertion with what it registered, so no hypothesis of the theorem on registering and asserting is empty |
| GetAssertion.FindCred | components/p4_ctap/p4_get_assertion.c:254-278 | agrees with the search below; a scalar is left behind only when a credential was found |
| GetAssertion.FindMeans | components/p4_ctap/p4_get_assertion.c:254-278 | the first entry that opens is chosen, and an entry that fails otherwise ends the search |
| GetAssertion.FindNothing | components/p4_ctap/p4_get_assertion.c:254-278 | "no credentials" if and only if no entry is one of the device's for the relying party |
| GetAssertion.PutResponse | components/p4_ctap/p4_get_assertion.c:296-320 | writes the encoding of the response map and nothing beside it, or nothing when the buffer is larger than a writer takes |
| GetAssertion.ResponseFits | components/p4_ctap/p4_get_assertion.c:13-17 | the declared maximum is the exact size of the largest response |
| GetAssertion.AssertedExactlyWhen | components/p4_ctap/p4_get_assertion.c:323-417 | success if and only if a listed credential opens before any entry fails otherwise, the user agreed and never cancelled, and signing worked; that there is none is found out without asking the user |
| GetAssertion.DeclinedExactlyWhen | components/p4_ctap/p4_get_assertion.c:323-417 | denied, timed out and cancelled, each if and only if a listed credential opens and the user, or a poll at one of four places, said so; no other status is left |
| GetAssertion.AuthDataFields | components/p4_ctap/p4_get_assertion.c:367-369 | the signed authenticator data begins with the relying party's hash, has the user-present flag alone and a counter of zero |
| GetAssertion.Sign | components/p4_ctap/p4_get_assertion.c:367-391 | signs over the authenticator data and the client data hash, after which scalar, input and digest are gone |
| GetAssertion.Assert | components/p4_ctap/p4_get_assertion.c:323-417 | the status of every understood request, the response bytes of a successful one, the determined refusal for every other; without success the buffer is unchanged or zeroed and no length is reported; the work buffers are cleared on every exit |
| MakeCredential.CheckExclude | components/p4_ctap/p4_make_credential.c:385-407 | tells whether any entry is the device's own after judging all of them; the scalar is cleared either way |
| MakeCredential.PutCose | components/p4_ctap/p4_make_credential.c:425-443 | the public key always encodes to exactly the 77 bytes kept for it |
| MakeCredential.PutResponse | components/p4_ctap/p4_make_credential.c:446-465 | the response always encodes to exactly 244 bytes |
| MakeCredential.FillAuthData | components/p4_ctap/p4_make_credential.c:537-544 | the copies by offset build the authenticator data in its layout, without overlap |
| MakeCredential.IdInAuthData | components/p4_ctap/p4_make_credential.c:537-544 | the credential ID is at bytes 55 to 154, preceded by its length, and the public key follows to the end |
| MakeCredential.AuthDataFields | components/p4_ctap/p4_make_credential.c:537-544 | before it stand the relying party's hash, the flags for a present user and an attached credential, a counter of zero and the device's AAGUID |
| MakeCredential.MadeExactlyWhen | components/p4_ctap/p4_make_credential.c:468-563 | success if and only if nothing listed is the device's own, the user agreed and never cancelled, and key and ID could be made; exclusion is reported only to a user who agreed |
| MakeCredential.DeclinedExactlyWhen | components/p4_ctap/p4_make_credential.c:468-563 | denied, timed out and cancelled, each if and only if every exclusion was judged and the user, or a poll at one of four places, said so; no other status is left |
| MakeCredential.MakeKey | components/p4_ctap/p4_make_credential.c:514-531 | makes and wraps a key, after which its scalar is gone |
| MakeCredential.Make | components/p4_ctap/p4_make_credential.c:468-563 | the status of every understood request, the response bytes of a successful one, the determined refusal for every other; without success the buffer is unchanged or zeroed and no length is reported; the work buffers are cleared on every exit |
| Passkey.RegisteredIdOpens | components/p4_ctap/p4_make_credential.c:522-544 | the ID a client takes out of a registration opens to the registered key for its relying party, and for no other |
| Passkey.RegisteredIsFound | components/p4_ctap/p4_get_assertion.c:254-278 | listed behind entries that are not the device's, it is the credential that is found |
| Passkey.RegisteredIsExcluded | components/p4_ctap/p4_make_credential.c:385-407 | a registration that excludes it is refused |
| Passkey.RegisterThenAssert | components/p4_ctap/p4_get_assertion.c:323-417 | the signature of an assertion verifies under the public key of the registration, over the returned authenticator data and the client data hash |
| RelyingParty.RegistrationIsRead | components/p4_ctap/p4_make_credential.c:425-563 | the bytes of a successful registration, read as the item they encode, register the new ID with the new public key for the relying party, without attestation |
| RelyingParty.RegistersOnce | components/p4_ctap/p4_make_credential.c:425-563 | a response registers at most one credential |
| RelyingParty.PasskeyWorks | components/p4_ctap/p4_get_assertion.c:296-417 | a relying party that reads the registration and later checks the assertion's bytes (descriptor, its own hash, user present, signature over authenticator data and client data hash) accepts it for the credential that was registered |
| P256Util.ScalarValid | components/p4_crypto/p4_crypto_p256_util.c:12-36 | true if and only if the bytes denote a number strictly between 0 and the group order |
| P256Util.OrderIsN | components/p4_crypto/p4_crypto_p256_util.c:4-9 | the table is the group order of P-256 (section 3.2.1.3 of NIST SP 800-186) |
| P256Util.StrictInteger | components/p4_crypto/p4_crypto_p256_util.c:39-67 | accepts exactly the DER encoding of a number below 2^256 and moves past it |
| P256Util.DerStrict | components/p4_crypto/p4_crypto_p256_util.c:70-87 | accepts if and only if the bytes are the DER encoding of two numbers below 2^256 |
| P256Util.DerSignatureUnique | components/p4_crypto/p4_crypto_p256_util.c:70-87 | and that pair is unique |
| P256Util.DerExamples | components/p4_crypto/p4_crypto_p256_util.c:39-87 | tags, lengths and the leading zero in bytes |
| Press.Wait | components/p4_press/p4_press.c:19-57 | ends at the first of 3000 samples that is cancelled, whose keepalive fails or that completes four steady pressed samples, after four steady released ones if the button was held on entry, with the result of that event; otherwise times out |
| Press.EndsOnce | components/p4_press/p4_press.c:19-57 | at most one sample and one result meet that description |
| Press.ConsentNeedsPress | components/p4_press/p4_press.c:19-57 | consent is reported only after four pressed samples in a row within 3000, behind four released ones if the button was held, and no cancellation up to then |
| Press.PressDecides | components/p4_press/p4_press.c:19-57 | while nobody cancels and keepalives get out, consent if and only if such a press comes, a timeout otherwise |
| Press.CancellationWins | components/p4_press/p4_press.c:19-57 | a cancellation seen before anything else, or together with a press or a failed keepalive, is the result |

## Left out

- TinyUSB, FreeRTOS, GPIO, PHY routing, descriptors, Kconfig, logging and diagnostic counters (`queue_full_count` among them): foreign code or plain constants.
- PSA and Mbed TLS behind AES-GCM, SHA-256, P-256 and the random source: opaque operations of `Crypto.Library` with the laws named there; randomness, clocks, bus events, button samples and cancellation polls are arguments.
- `p4_root.c` (flash), the self tests and benchmarks, `p4_get_info.c` and the dispatcher in `p4_ctap.c`: thin wrappers, a fixed byte string and a three-way branch.
- Null pointers: arguments are values, so the argument errors for null pointers do not arise.
- Tick conversion, lock wait times, wall-clock deadlines of USB transfers and waking of tasks: a wait that fails is a possible step, not a duration.
- The transport's own threads, `hid_start` and the read-only query `hid_cancelled`: a step is one locked section, and no step depends on the query.
- The legacy `usb_take` and `usb_send`, and the suspend and resume callbacks of other USB classes.
- UsbBus.GenerationMoves: the connection generation is unbounded here, while the firmware's counter has 32 bits; UsbBus.CounterShowsChange says when the two agree.
- The reset epoch and the count of waiting resetters are unbounded too; the firmware compares a 32-bit epoch for equality, which fails only when exactly a multiple of 2^32 resets fall between two steps of the transport task.
- CtaphidCore.Core.FeedReport: the action carries its data as a value, while the firmware hands out a pointer into the core's buffers that is used before the mutex is released.
- CtaphidTransport.EmitIsAuthorised: the static variables of `p4_ctaphid.c` are fields of a value because steps of several tasks interleave on them; updates in place within one step are not visible in this form.
- Press.Wait: a sample's polls are independent inputs; that a cancellation, once seen, persists is not assumed.
