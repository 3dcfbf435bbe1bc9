# Verified models of the ESPHome drivers

Dafny models of the protocol and state logic of this repository's ESPHome components, with proofs about them.
`dafny verify dfyconfig.toml` checks the whole project (Dafny 4.11).

Code that changes fields or buffers step by step is modelled by classes and methods with loops, each proved against a
specification function; the theorems about whole runs are lemmas about those functions, or invariants that every method
keeps. Radios, clocks, flash, buses and users are inputs of the steps and may do anything. Times are 32-bit words that
wrap; where a statement is about real time, an unbounded clock is carried along and the component only sees it modulo 2^32.

- **Frames of the APS network** (`ApsFrames`, `FrameTheorems`, `FrameFactory`): the MAC, NWK and APS headers of IEEE
  802.15.4-2006 section 7.2.1 and ZigBee 05-3474 sections 3.3.1 and 2.2.5.1 as a grammar; the parser decodes every frame of
  it, the builders write frames of it, byte for byte, and both directions fit together.
- **Receive path** (`Reassembly`, `ReassemblyTheorems`, `ReceivePath`): fragments in any order become the message exactly
  once (ZigBee 05-3474 section 2.2.8.4.5), from the raw bytes on; which foreign fragments end a collection, where every
  reported byte comes from, and when all of them were received for the message.
- **ZNP modem** (`ZnpCodec`, `ZnpTheorems`, `ZnpRadio`, `ZnpRadioClass`, `ZnpPort`, `ModemTheorems`): the checksummed byte
  stream, the start-up state machine over all runs, the messages it delivers, and the loop that joins them.
- **Transmit and operation engines** (`TxEngine`, `TxTheorems`, `OpEngine`, `OpTheorems`, `OpFrames`, `ApszbComponent`): the
  retrying frame queue, the coalescing operation queue, what holds of the two together, how every job and every operation
  ends and what it has put on the air, and how soon a waiter is released and an operation over.
- **Charge/discharge controller** (`PcmMath`, `PcmLogic`, `Pcm`): the closed form of its regulation, actuator safety, the
  confirmed stop and the undervoltage latch over all runs of the update function. Quantities are reals.
- **UART bridge** (`Baud`, `SevenBits`, `RxRing`, `UartBridge`): divisor arithmetic, emulated 7-bit lines, and a receive path
  that loses nothing.
- **Modbus over Solarman V5** (`ModbusCrc`, `CrcPolynomial`, `SolarmanV5`): the CRC-16 of Modbus over Serial Line V1.02
  section 6.2.2 is the remainder of a polynomial division; what it detects for messages of any length, and that damaged
  answers are refused.
- **Preference cache** (`Preferences`), **shadow registers** (`ShadowRegisters`), **resync** (`ApiResync`), **magnetometer**
  (`Bmm150`), over the common modules `Words` and `Bytes`.

Where the code differs from what its comments or callers suggest, the model follows the code:

- The length check of a group-addressed APS acknowledgement counts one byte less than its fields take (`aps_protocol.cpp`,
  lines 309 to 325). `ReadsOnlyReceivedBytes` says that this is the only frame shape, and exactly when it matters.
- A fragment shorter than the first one leaves a gap in the buffer, and the report fills it with what was there before.
  `AllBytesReceived` says exactly when that happens, `StaleByteReported` shows it.
- A repeated first fragment starts the collection of its message over, so blocks that came before it have to come again.
- `api_resync.h` promises that an early request is postponed and never lost; without a connected client the code drops it,
  since a client that connects reads the entities anyway (`ForgottenOnlyAlone`). A timer late by nearly 2^32 ms can postpone
  a second time (`PostponedOnce`).
- The ZNP parser does not compare the length byte with its 250-byte buffer; `SizedExactly` says which input it stores behind
  it.
- Job ids wrap after 2^32 frames. Jobs are numbered without bound in the model; `TestIsRight` says when comparing ids is
  comparing numbers, `ReleasedTooEarly` and `NeverReleased` show both ways it fails.
- The confirmed stop takes a clock of exactly 0 for "not started"; `PidUpdate` says exactly when a direction stops,
  `QuietNotConfirmed` and `ZeroIsNoStart` show it going on.
- A write hold of more than 2^31 ms does not hold at all (`HoldStarts`).
- `compensate_z` divides by a trim value plus a term of the Hall value, which can be zero; `CompensateZ` says when. The last
  narrowing of the other two axes wraps for large trims; `AxisIsExact` says when.
- A direct reversal of the controller turns the direction switch while the old level is still up, and raises the new level
  before the old one is dropped. `PidUpdate` says that, with the switches in agreement, nothing else is ever commanded against
  a level. The reversal by the output that the state machine provides for never comes about, as the output stays on the side
  of its mode.
- In the controller, an external automation may operate the switches at any time; levels and switches agree again after the
  next full update.

## Model

| member | source | states |
|---|---|---|
| `ApsFrames.ParseFrame` | components/apszb/aps_protocol.cpp:206-344 | The cursor-driven parser computes the function `Parse` on any buffer and any received length, with every index inside the 127-byte buffer; a null buffer or fewer than 5 bytes are refused |
| `ApsFrames.ParseMacHeader` | components/apszb/aps_protocol.cpp:208-251 | MAC part of the parser: addressing modes, PAN compression, refusal when a field does not fit |
| `ApsFrames.ParseNwkHeader` | components/apszb/aps_protocol.cpp:255-295 | NWK part: multicast byte, extended addresses, relay list, security, command byte, and where APS starts |
| `ApsFrames.ParseApsHeader` | components/apszb/aps_protocol.cpp:297-343 | APS part: group or unicast delivery, extended header with fragment and block number, payload |
| `FrameTheorems.MacDecodes` | components/apszb/aps_protocol.cpp:208-251 | A well-formed MAC header, of any addressing mode, is read back field by field |
| `FrameTheorems.NwkDecodes` | components/apszb/aps_protocol.cpp:255-295 | A well-formed NWK header, with any optional parts, is read back field by field, and what follows is where APS starts |
| `FrameTheorems.ApsDecodes` | components/apszb/aps_protocol.cpp:297-343 | A well-formed APS data or acknowledgement header, to an endpoint or a group, extended or not, is read back field by field |
| `FrameTheorems.ParseDecodes` | components/apszb/aps_protocol.cpp:206-344 | For every frame of the grammar (MAC only, secured NWK, NWK command, APS data, APS ack) the parser returns exactly the frame's fields and payload |
| `FrameTheorems.ReadsOnlyReceivedBytes` | components/apszb/aps_protocol.cpp:309-325 | The result depends on the byte behind the received frame if and only if the frame is a group-addressed APS acknowledgement one byte short of its fields, where the length check counts one byte too few |
| `FrameTheorems.CounterFromBehind` | components/apszb/aps_protocol.cpp:309-325 | Such a frame: a group acknowledgement one byte short is taken for complete, and the counter reported is whatever byte follows it |
| `FrameTheorems.PayloadIsTail` | components/apszb/aps_protocol.cpp:338-343 | A reported payload is the tail of the received bytes, and belongs to an unsecured APS data frame with at least 19 header bytes |
| `Factory.FrameFactory.PutMacHeader` | components/apszb/aps_protocol.cpp:53-64 | Writes the nine bytes of the MAC header described by the grammar and moves the MAC sequence number on |
| `Factory.FrameFactory.PutNwkHeader` | components/apszb/aps_protocol.cpp:66-77 | Writes the eight bytes of the NWK header and moves the NWK sequence number on |
| `Factory.FrameFactory.BuildUnicast` | components/apszb/aps_protocol.cpp:79-109 | Succeeds exactly for payloads of at most 100 bytes; then the buffer holds the encoding of the unicast frame in at most 127 bytes and each counter moved on by one; otherwise nothing changes |
| `Factory.FrameFactory.BuildBroadcast` | components/apszb/aps_protocol.cpp:111-140 | The same for broadcasts, which never ask for a MAC acknowledgement |
| `Factory.FrameFactory.BuildLinkStatus` | components/apszb/aps_protocol.cpp:142-160 | Holds the encoding of a link status with the first 20 neighbours at most |
| `Factory.FrameFactory.BuildManyToOneRreq` | components/apszb/aps_protocol.cpp:162-177 | Holds the encoding of a many-to-one route request and moves the request id on |
| `Factory.FrameFactory.BuildApsAck` | components/apszb/aps_protocol.cpp:179-201 | Holds the encoding of the acknowledgement of the given received frame |
| `Factory.UnicastRoundTrip` | components/apszb/aps_protocol.cpp:79-109 | Parsing a built unicast returns its addresses, cluster, profile, endpoints, counters and payload |
| `Factory.BroadcastRoundTrip` | components/apszb/aps_protocol.cpp:111-140 | Parsing a built broadcast returns the PAN, cluster, counters and payload |
| `Factory.LinkStatusRoundTrip` | components/apszb/aps_protocol.cpp:142-160 | A built link status is read as NWK command 0x08 to all routers with radius 1 |
| `Factory.RouteRequestRoundTrip` | components/apszb/aps_protocol.cpp:162-177 | A built route request is read as NWK command 0x01 to all routers with radius 30 |
| `Factory.AckRoundTrip` | components/apszb/aps_protocol.cpp:179-201 | A built acknowledgement is read with the peer's fields swapped back and no payload, so it is never acknowledged nor passed on |
| `Factory.UnicastIs` | components/apszb/aps_protocol.cpp:53-109 | Every byte of a unicast on the air: both headers, the sequence numbers, the route discovery bit, the APS fields, then the payload |
| `Factory.BroadcastIs` | components/apszb/aps_protocol.cpp:111-140 | Every byte of a broadcast |
| `Factory.LinkStatusIs` | components/apszb/aps_protocol.cpp:142-160 | Every byte of a link status: header, number of entries, and for each neighbour its address and both costs 1 |
| `Factory.RouteRequestIs` | components/apszb/aps_protocol.cpp:162-177 | Every byte of a route request |
| `Factory.AckIs` | components/apszb/aps_protocol.cpp:179-201 | Every byte of an acknowledgement, with the block number and its mask behind an extended header |
| `ReceivePath.Receiver.HandleRx` | components/apszb/apszb.cpp:529-568 | One received frame: an acknowledgement is built exactly for unicast data frames that ask for one, and the reassembly makes exactly the step of an accepted frame |
| `ReceivePath.ReceivedIsAfter` | components/apszb/apszb.cpp:529-568 | Over any run of raw frames the reassembly sees exactly the accepted ones, in order |
| `ReceivePath.AcceptedIs` | components/apszb/apszb.cpp:529-562 | Of the frames of the grammar exactly APS data not from address 0 and to the coordinator or to 0xFFF8 and above are taken up; exactly the unicasts among them to the coordinator with the acknowledgement bit are acknowledged |
| `ReceivePath.SinglePieceComesThrough` | components/apszb/apszb.cpp:529-568 | End to end from bytes: the payload of an unfragmented message is passed on at once, and a collection in progress is undisturbed |
| `ReceivePath.MessageComesThrough` | components/apszb/apszb.cpp:529-568 | End to end from bytes and from any state: if the accepted frames are the traffic of a message, the call with the last missing block passes on the whole message and no other fragment passes on anything |
| `ReceivePath.MessageDestroyed` | components/apszb/apszb.cpp:529-568 | After any other accepted fragment of another node or cluster, or any continuation that does not fit, no fragment of the message passes on anything until its sender has begun again |
| `ReceivePath.AckIsHarmless` | components/apszb/apszb.cpp:551-562 | An acknowledgement sent by this code changes nothing in a receiver of the same kind |
| `Reassembly.Step` | components/apszb/aps_protocol.cpp:349-393 | One call of feed keeps the bound that a message whose last block is known fits the 256-byte buffer |
| `Reassembly.Reassembler.Feed` | components/apszb/aps_protocol.cpp:349-393 | The in-place reassembly computes `Step`; all writes stay in the buffer in every reachable state |
| `ReassemblyTheorems.FullHasAll` | components/apszb/aps_protocol.cpp:384-386 | The completion mask is reached exactly when each block up to the total is marked |
| `ReassemblyTheorems.FinishedWhenSeen` | components/apszb/aps_protocol.cpp:384-392 | Completion is detected exactly when every block has been seen since the first fragment, and the buffer then starts with their concatenation |
| `ReassemblyTheorems.ReportedWhenComplete` | components/apszb/aps_protocol.cpp:349-393 | Order independence: from any state, over any traffic of a message (any order, duplicates, unfragmented messages and refused first fragments between), a call reports the concatenation exactly when it brings the last missing block |
| `ReassemblyTheorems.ReportedOnce` | components/apszb/aps_protocol.cpp:349-393 | With a first fragment that is not repeated, the message is reported at most once |
| `ReassemblyTheorems.InterferenceMeans` | components/apszb/aps_protocol.cpp:357-378 | While a message is collected, a foreign frame either destroys the collection (a good first fragment, or any continuation) or changes nothing; so does any continuation that does not fit |
| `ReassemblyTheorems.LostUntilBegunAgain` | components/apszb/aps_protocol.cpp:369-378 | Once a collection is lost, no fragment of its sender completes anything before a new first fragment of that sender |
| `ReassemblyTheorems.ReportExplained` | components/apszb/aps_protocol.cpp:349-393 | From an idle state, every report was begun by an earlier first fragment and has all its blocks from the same node and cluster within five seconds; each of its bytes is the one brought last for its position since then, or what the buffer had before if none was |
| `ReassemblyTheorems.AllBytesReceived` | components/apszb/aps_protocol.cpp:374-388 | Every byte of a report was received for its message if and only if each block between the first and the last was reached to its end by some fragment |
| `ReassemblyTheorems.WholeBlocksSuffice` | components/apszb/aps_protocol.cpp:374-388 | That is so for senders that make no block between shorter than the first |
| `ReassemblyTheorems.StaleByteReported` | components/apszb/aps_protocol.cpp:374-392 | And not in general: with a shorter block between, a byte the buffer had before is reported as part of the message |
| `ZnpCodec.ZnpEncode` | components/apszb/znp_radio.cpp:33-48 | Writes the encoding of the command with its data cut to 250 bytes: start byte, length, command, data, xor checksum |
| `ZnpCodec.ZnpParser.Feed` | components/apszb/znp_radio.cpp:50-93 | The byte-fed parser makes the step of the specification, including the 250 ms stall rule and the bad-frame counter, for every byte but one that would be stored behind the 250 bytes of the buffer |
| `ZnpTheorems.EncodeFramed` | components/apszb/znp_radio.cpp:33-48 | An encoding has the announced length and a right checksum, and contains the frame |
| `ZnpTheorems.EncodingUnique` | components/apszb/znp_radio.cpp:33-48 | A byte string with the announced length and a right checksum is the encoding of the frame in it |
| `ZnpTheorems.FrameRun` | components/apszb/znp_radio.cpp:50-93 | A framed byte string is decoded if its checksum fits, otherwise rejected and counted bad once |
| `ZnpTheorems.DecodesAfterPause` | components/apszb/znp_radio.cpp:50-60 | From any state, also in the middle of a frame, an encoding after a pause the code recognises as a stall is decoded |
| `ZnpTheorems.LateMeans` | components/apszb/znp_radio.cpp:50-56 | In real time the pause is more than 250 ms, up to 2^31 ms |
| `ZnpTheorems.WrongByteRejected` | components/apszb/znp_radio.cpp:83-92 | One wrong byte among command, data and checksum: the frame is rejected and counted bad |
| `ZnpTheorems.StreamDecodes` | components/apszb/znp_radio.cpp:50-93 | Encodings with any noise without start bytes between them decode to exactly that list of frames |
| `ZnpTheorems.OnlyEncodings` | components/apszb/znp_radio.cpp:50-93 | In any run, a frame is reported only if the bytes since some start byte, none of them late, are exactly its encoding |
| `ModemDriver.ZnpRadio.constructor` | components/apszb/znp_radio.cpp:109-139 | begin(): the list of seven configuration commands, and the state from which the first loop starts |
| `ModemDriver.ZnpRadio.RestartNow` | components/apszb/znp_radio.cpp:141-153 | restart_ makes the specified step: reset line, counters and phase |
| `ModemDriver.ZnpRadio.HandleFrame` | components/apszb/znp_radio.cpp:234-328 | A received frame makes the step of the modem specification: start-up handshake, send status or queued message |
| `Modem.IncomingReads` | components/apszb/znp_radio.cpp:310-327 | A frame that carries a message (group, cluster and source lowest byte first, endpoints, broadcast flag, link quality, security, time stamp, number, and the payload behind its length) gives its source, cluster, link quality, broadcast flag and payload |
| `Modem.IncomingCarries` | components/apszb/znp_radio.cpp:310-327 | Conversely every frame that is read as a message carries one, so that exactly those cut short are not |
| `ModemDriver.ZnpRadio.RunStateMachine` | components/apszb/znp_radio.cpp:343-410 | The state machine part of loop() makes the step of a clock tick |
| `ZnpPort.ReadLoop` | components/apszb/znp_radio.cpp:332-412 | loop(): of at most 1024 bytes read, the modem sees exactly the frames the parser decodes, in order, and then one tick |
| `ZnpPort.SizedExactly` | components/apszb/znp_radio.cpp:50-82 | Over any run a byte is stored behind the buffer if and only if some byte taken for a start byte is followed, none of them late, by a length above 250, two command bytes and 251 data bytes |
| `ZnpPort.LongFrameOverruns` | components/apszb/znp_radio.cpp:61-82 | Such a run: 251 data bytes announced as 255 |
| `ZnpPort.StreamIsSized` | components/apszb/znp_radio.cpp:61-78 | Encoded frames of at most 250 data bytes, with noise between them, never make the parser take in more than it has room for |
| `ZnpPort.ModemHearsStream` | components/apszb/znp_radio.cpp:332-412 | When the port holds encoded frames with noise between them, one call of loop() has the effect of exactly those frames and a tick |
| `ModemDriver.ZnpRadio.TransmitMsg` | components/apszb/znp_radio.cpp:178-224 | transmit() sends exactly when the modem is ready, owes no answer and the message fits |
| `ModemDriver.ZnpRadio.PopMessage` | components/apszb/znp_radio.cpp:226-232 | pop() gives the oldest queued message |
| `ModemDriver.RequestCarriesMessage` | components/apszb/znp_radio.cpp:187-222 | Destination, cluster, transaction number and payload can be read back from the bytes of the request |
| `ModemTheorems.RequestHeader` | components/apszb/znp_radio.cpp:185-214 | The rest of a request: address mode, endpoints, no options and radius 15; a pairing goes to everybody in every PAN |
| `Modem.RunKeepsInv` | components/apszb/znp_radio.cpp:141-410 | Over every run the log of what was written since the last restart matches the start-up phase |
| `Modem.ReadyMeansStarted` | components/apszb/znp_radio.cpp:244-294 | Whenever the modem is ready, since the last restart the port carried the init commands in order (only the first possibly repeated), then the start request, then a coordinator indication arrived |
| `Modem.WaitsForSentCommand` | components/apszb/znp_radio.cpp:343-410 | While an answer is awaited, the index is inside the list and that command was the last thing sent |
| `Modem.WritesAreGuarded` | components/apszb/znp_radio.cpp:155-224 | Nothing is written while reset is held; data requests only go to a ready modem that owes no answer; anything else is a start-up step |
| `ModemTheorems.PhaseEnds` | components/apszb/znp_radio.cpp:234-412 | When each phase ends and which one follows, with its time limits; a modem silent from the start, or one that never becomes coordinator, is tried again 15 s later |
| `ModemTheorems.AnsweringModemGetsReady` | components/apszb/znp_radio.cpp:234-412 | Liveness: a modem that reports its reset and answers each command is ready in the end, whatever the times; it has been sent each command once, in order, and the start request |
| `ModemTheorems.ConfigurationIs` | components/apszb/znp_radio.cpp:109-138 | The commands make the modem forget its state, reset, and become coordinator with the given address, PAN id and only the given channel; then they register the endpoint |
| `Modem.QueueKeepsNewest` | components/apszb/znp_radio.cpp:313-328 | Over every run, for the messages the frames carried: the queue holds what is to be learned of the newest of them, in order, at most 16, and every message is queued, was handed out or is counted as dropped |
| `Modem.TxStateChanges` | components/apszb/znp_radio.cpp:234-309 | The state of the outstanding request changes only when a request leaves, its response arrives (with the status then told), the modem reports a reset, or a start-up begins |
| `Modem.ReadyTells` | components/apszb/znp_radio.cpp:303-309 | A ready modem's response to a data request is always told: 0 for success, otherwise the status plus 1, or 256 without a status |
| `ApszbHub.ApszbComponent.QueueFrame` | components/apszb/apszb.cpp:423-431 | queue_tx_ is the specified step: drop the oldest when full, number the job, append it; it keeps the invariant of both engines |
| `ApszbHub.ApszbComponent.ProcessTransmit` | components/apszb/apszb.cpp:465-504 | process_tx_ is the specified step for any radio, clock and busy answer; keeps the invariant of both engines |
| `TxEngine.RunKeepsInv` | components/apszb/apszb.cpp:423-504 | In every reachable state, across any number of wraps of the id counter: jobs are numbered as they are queued, the numbers of the job in flight and of the queued ones rise strictly and lie above the last one done, every id is its number modulo 2^32; at most 18 are pending, and each was handed to the radio as often as its attempts say |
| `TxEngine.ReleasedIsGone` | components/apszb/apszb.cpp:465-504 | A job that is pending has not ended, nor any queued after it; of numbers less than 2^32 apart, the test of its waiter succeeds too early if and only if the id counter came round between |
| `TxEngine.WaiterHasSomethingComing` | components/apszb/apszb.cpp:423-431 | A job that has been queued, even one dropped by overflow, or a newer one has ended, or one at least as new is pending |
| `TxEngine.ReleasedStays` | components/apszb/apszb.cpp:465-504 | What has ended stays so over the run; the test of the waiter says so as long as the last job done is of the same round of the id counter |
| `TxEngine.TriedAtMostThrice` | components/apszb/apszb.cpp:465-504 | At most 18 jobs are pending and none is handed to the radio more than three times |
| `TxTheorems.JobsHaveTheirFate` | components/apszb/apszb.cpp:423-504 | Over every run, with the radio's reports about each job counted from the events alone: a job is waiting, in flight, to be tried again or over as those reports say |
| `TxTheorems.HowJobsEnd` | components/apszb/apszb.cpp:465-504 | Over every run: a job that is over was reported sent, or refused by the radio, or lost by the full queue, or reported failed three times, and exactly one of these; it was handed to the radio once for each report and refusal, so three times if it failed |
| `TxTheorems.RetriedUntilThen` | components/apszb/apszb.cpp:465-504 | Over every run: a job that is pending has failed fewer than three times and nothing else; if it has failed and is not in flight it is the first one handed over next |
| `TxTheorems.FlagIsOutcome` | components/apszb/apszb.cpp:465-504 | Over every run: the success flag of the last job done is true if and only if the radio reported that job sent |
| `TxTheorems.HandedOverInOrder` | components/apszb/apszb.cpp:423-504 | Over every run: what the radio is handed is the frame queued under the job's number, and the numbers handed over never go back |
| `TxTheorems.RetryWaits` | components/apszb/apszb.cpp:465-504 | After a failure nothing is handed over for 4 ms |
| `TxEngine.ReleasedInTime` | components/apszb/apszb.cpp:423-504 | Liveness: a queued job or a newer one has ended once process_tx_ has been called productively more than six times for each of the 18 jobs that may be pending and each frame queued meanwhile, and its waiter is released unless the id counter came round since; a call is productive if the job in flight has its result or timed out, or none is in flight, the retry delay is over and the radio ready |
| `TxEngine.IdsCompare` | components/apszb/apszb.cpp:816-829 | For any numbers, the test `tx_done_id_ >= send_job_id_` compares them but for 2^32 times the rounds between them |
| `TxEngine.TestIsRight` | components/apszb/apszb.cpp:816-829 | The test is right for numbers of one round, and for numbers less than 2^32 apart only for these |
| `TxEngine.ReleasedTooEarly` | components/apszb/apszb.cpp:423-431 | A run in which it is wrong: frame number 2^32 gets id 0, and its waiter takes it for done at once |
| `TxEngine.NeverReleased` | components/apszb/apszb.cpp:465-504 | And one the other way: frame 2^32 - 1 is sent, the next one refused in the same call, and with nothing pending the waiter of the former is not released |
| `ApszbHub.ApszbComponent.EnqueueOp` | components/apszb/apszb.cpp:399-418 | enqueue_op is the specified step: refusal, replacement of a waiting power limit, limit of 25; keeps the invariant of both engines |
| `ApszbHub.ApszbComponent.BuildStepList` | components/apszb/apszb.cpp:696-754 | build_steps_ computes the step list of each kind of operation and resets the pass |
| `ApszbHub.ApszbComponent.StartOp` | components/apszb/apszb.cpp:759-768 | start_op_ is the specified step; an operation without steps fails at once |
| `ApszbHub.ApszbComponent.FinishOp` | components/apszb/apszb.cpp:770-799 | finish_op_ is the specified step, with the new address of a pairing and the operations queued for it |
| `ApszbHub.ApszbComponent.RunOperation` | components/apszb/apszb.cpp:801-853 | run_op_ is the specified step of both engines, including the frame it queues; keeps the invariant of both engines |
| `ApszbHub.ApszbComponent.HandleAsdu` | components/apszb/apszb.cpp:595-663 | handle_asdu_ is the specified step: which answers count for the running operation; keeps the invariant of both engines |
| `OpTheorems.QueueCoalesces` | components/apszb/apszb.cpp:390-418 | In every reachable state no two waiting operations have the same kind and inverter, at most 25 wait, and none repeats a running one that is not a power limit |
| `OpTheorems.LimitsAreFaithful` | components/apszb/apszb.cpp:399-418 | For each inverter the power limits started, then the waiting one, form a subsequence of those accepted and end with the last of them |
| `OpTheorems.LimitAccepted` | components/apszb/apszb.cpp:399-418 | A power limit for a known inverter is accepted unless none waits for it and the queue is full |
| `OpTheorems.PassBound` | components/apszb/apszb.cpp:696-754 | How many frames one pass of each kind of operation queues, and which kinds wait for an answer |
| `OpFrames.StepListAsks` | components/apszb/apszb.cpp:696-754 | For every kind of operation the step list makes exactly the requests of a table: which frames, to whom, in which order, and what is waited for after each; the table names the requests an operation consists of and not the steps |
| `OpFrames.SuccessMeansAllSent` | components/apszb/apszb.cpp:696-853 | Over every run of both engines: what a running operation has queued in its pass are the first frames asked for, in order, and one that ends successfully has queued all of them in its last pass |
| `OpFrames.LimitsGoOut` | components/apszb/apszb.cpp:718-724 | Over every run of both engines: the watts of the limits queued for an inverter are its started limits in order, each plus the calibration and repeated by retries only |
| `OpFrames.LimitIsAddressed` | components/apszb/apszb.cpp:718-724 | Over every run: a limit is queued by a running THROTTLE of that inverter, to its present address, with the watts asked for plus the calibration |
| `OpTheorems.RunKept` | components/apszb/apszb.cpp:801-853 | Over every run the running operation is at a step of its own list, in one of at most three passes, having sent what that means |
| `OpTheorems.HubNextKeepsInv` | components/apszb/apszb.cpp:399-853 | Every event keeps the invariant of both engines together: job ids and attempts, a queue without repetitions, the running operation at a step of its own list, and the job it waits for issued; this is the invariant the component's methods keep |
| `OpTheorems.OperationsEnd` | components/apszb/apszb.cpp:801-853 | Every call of run_op_ that makes progress lowers the lexicographic measure, so no operation makes more than three passes or queues more frames than they hold |
| `OpTheorems.AnswerFor` | components/apszb/apszb.cpp:595-663 | A running operation that has its answer got it in the present pass, from its own inverter, inside the answer window |
| `OpTheorems.SuccessMeansAnswered` | components/apszb/apszb.cpp:770-853 | A poll, query or throttle ends successfully only if such a decoded answer (plausible, for a poll) arrived before |
| `OpFrames.SuccessMeansHeard` | components/apszb/apszb.cpp:595-663 | Over every run: a poll, query or limit that succeeds has had a decoded answer of its own inverter in its last pass, with at most the last frame of the pass not yet queued, and all frames of that pass were queued |
| `OpFrames.AnswerIsTaken` | components/apszb/apszb.cpp:595-663 | Over every run: once all frames of a pass are queued such an answer is taken, and the operation never again waits in vain in that pass |
| `OpFrames.HowOperationsEnd` | components/apszb/apszb.cpp:801-853 | Over every run: an operation ends exactly when it is through, and succeeds; when its latest frame was not acknowledged, and fails; or when its third pass waited in vain, and fails; the first two such passes are followed by another |
| `OpFrames.AddressComesFromPairing` | components/apszb/apszb.cpp:595-618 | Over every run: an inverter's address is its first one, or that of a node that answered with its serial number while its pairing ran |
| `OpFrames.PairingLearns` | components/apszb/apszb.cpp:770-797 | Over every run: a pairing that ends gives its inverter the address heard last, if any, and asks for normal operation and a poll; otherwise it changes nothing |
| `OpTheorems.LinkKept` | components/apszb/apszb.cpp:816-829 | The job id an operation waits for is that of a job that was issued, in every reachable state of both engines together |
| `OpTheorems.OperationNotStranded` | components/apszb/apszb.cpp:816-829 | For an operation that waits for its frame, its job or a newer one has ended, or one at least as new is pending, so overflow never leaves it waiting for nothing; with nothing pending the test finds that out if and only if the id counter did not come round since |
| `OpTheorems.OperationEndsInTime` | components/apszb/apszb.cpp:423-853 | Liveness of both engines together: a running operation has ended and its outcome is noted after more than 479 effective calls and six for each frame others queue; a call is effective if it moves the operation on, or the frames that are pending |
| `OpTheorems.OperationCanGoOn` | components/apszb/apszb.cpp:465-853 | In every reachable state with an operation running, run_op_ is effective once the time of the step is up, or else every productive call of process_tx_ is, unless the id counter came round while the operation waited |
| `PcmMath.OutputSplits` | components/dualpidpcm/dualpidpcm.cpp:71-79 | Every output asks for charge or for discharge, never both, within range, and the two demands determine it |
| `PcmMath.QuantizeProperties` | components/dualpidpcm/dualpidpcm.cpp:83-91 | Quantising a level keeps order and sign, moves it by at most half a step and is idempotent |
| `PcmMath.CalculateFfJump` | components/dualpidpcm/dualpidpcm.cpp:43-67 | The table search with interpolation computes the piecewise linear jump |
| `PcmMath.JumpOdd` | components/dualpidpcm/dualpidpcm.cpp:43-67 | The feed-forward jump is the same in both directions |
| `PcmMath.JumpBounded` | components/dualpidpcm/dualpidpcm.cpp:43-67 | It has the sign of the power step and never exceeds half the output range |
| `PcmMath.JumpMonotone` | components/dualpidpcm/dualpidpcm.cpp:43-67 | It grows with the step |
| `PcmMath.JumpOnLine` | components/dualpidpcm/dualpidpcm.cpp:43-75 | Between two points of the table the jump lies on the straight line through them; beyond 3630 W it is one half |
| `PcmLogic.DecisionIsAllowed` | components/dualpidpcm/dualpidpcm.cpp:573-670 | Whatever the situation, a direction is only decided on when it is allowed |
| `PcmLogic.NoRestartInDeadband` | components/dualpidpcm/dualpidpcm.cpp:336-345 | Hysteresis: no power inside the stop thresholds starts an idle converter |
| `PcmLogic.StopIsConfirmed` | components/dualpidpcm/dualpidpcm.cpp:600-670 | An allowed direction goes idle if and only if, with no reversal due, the deadband is seen at minimal level and after start-up and the confirmation time has passed since `deadbandStart` |
| `PcmLogic.StartIsKept` | components/dualpidpcm/dualpidpcm.cpp:611-625 | After an update `deadbandStart` is 0, unless the update has seen the deadband at minimal level and after start-up and the direction goes on; then it is kept, or noted now |
| `PcmLogic.ZeroIsNoStart` | components/dualpidpcm/dualpidpcm.cpp:615-625 | A clock that shows exactly 0 is not kept: an update at 0 and one at 2500 both see the deadband, and charging goes on |
| `PcmLogic.LockoutDoesNotBlockCharge` | components/dualpidpcm/dualpidpcm.cpp:577-598 | The undervoltage lockout never changes whether an idle converter starts to charge |
| `PcmLogic.LatchIsLastOutside` | components/dualpidpcm/dualpidpcm.cpp:395-417 | The lockout is set exactly when the last evaluated voltage outside [stop, start) was below stop |
| `PcmController.Pcm.SetChargingLevel` | components/dualpidpcm/dualpidpcm.cpp:83-103 | The level is quantised and remembered, and sent unless it is the remembered one or above 0 with the power off |
| `PcmController.Pcm.SetDischargingLevel` | components/dualpidpcm/dualpidpcm.cpp:105-125 | The same for the discharge output |
| `PcmController.Pcm.Deactivate` | components/dualpidpcm/dualpidpcm.cpp:367-393 | Activation off: both levels 0 before the power is cut, and idle |
| `PcmController.Pcm.UpdateLockout` | components/dualpidpcm/dualpidpcm.cpp:395-417 | The latch follows the sequence of evaluated voltages |
| `PcmController.Pcm.Regulate` | components/dualpidpcm/dualpidpcm.cpp:446-568 | The PID formula bounded for the mode: what the error adds to the integral is taken back when it pushes further into saturation, a feed-forward jump moves the output by just itself, and during start-up the output is frozen at the landing point |
| `PcmController.Pcm.DecideMode` | components/dualpidpcm/dualpidpcm.cpp:573-670 | The branches compute the decision function |
| `PcmController.Pcm.EnterRunning` | components/dualpidpcm/dualpidpcm.cpp:672-733 | A new direction starts from its landing output with a cleared integral; the start-up freeze only after a long pause and not when reversing |
| `PcmController.Pcm.EnterIdle` | components/dualpidpcm/dualpidpcm.cpp:672-733 | The end of a direction: both levels 0 before the power is cut |
| `PcmController.Pcm.Actuate` | components/dualpidpcm/dualpidpcm.cpp:735-835 | After it, levels, mode and both switches agree, and the running level is the clamped, quantised demand; the switch is turned under load and a level raised against the other exactly as often as the earlier positions make it necessary |
| `PcmController.Pcm.PidUpdate` | components/dualpidpcm/dualpidpcm.cpp:261-835 | Over every run: every command was safe when given; when the switches agreed before, those of an update are strictly safe unless, in the state before it, a direct reversal is due (the running level within 0.01 of its minimum, start-up over, the error outside the deadband and beyond the start threshold of the other direction, both allowed after the new lockout) and a level is up, and then exactly which commands are not; after a full update at most one level is not 0, only in its mode with power and direction set, and idle means both 0 and power off; lockout excludes discharge; the next mode is the decided one; an allowed direction goes idle if and only if the stretch of updates that saw the deadband is confirmed. An update that keeps its direction after start-up sets the output that regulation asks for over all updates before it, between the bounds of the direction, and adds its sample (`GoesOn`, `ClosedForm`); one that starts a direction, or falls into its start-up, lands on 0.49 or 0.51 |
| `PcmController.Pcm.ClosedLoop` | components/dualpidpcm/dualpidpcm.cpp:446-568 | Closed loop over any run of updates: with standard regulation and no saturation since the direction began, the output is 0.5 + 0.00001 (kp error + ki times the sum of error times time) plus the sum of the jumps; the update of a jump leaves out its error |
| `PcmController.CalmTotal` | components/dualpidpcm/dualpidpcm.cpp:485-509 | Without saturation the integral times its gain is the area under the errors times the gain, plus the jumps |
| `PcmController.Pcm.RegulatedMeans` | components/dualpidpcm/dualpidpcm.cpp:483-560 | One update in closed form: the output is the demand cut to the bounds, and the integral takes the error times time, unless that pushes further out of the bounds, or what moves the output by the jump |
| `PcmController.Pcm.JumpAtMeans` | components/dualpidpcm/dualpidpcm.cpp:461-481 | There is a jump exactly with feed-forward, for a change of the error beyond the threshold, 4 s after the last one that counted and 8 s after the start, and if it is above 0.001 |
| `PcmController.SpacedNext` | components/dualpidpcm/dualpidpcm.cpp:461-481 | Changes of the error that count for the feed-forward stay at least 4 s apart in real time, however often the clock wraps |
| `PcmController.Pcm.IdleStartMeans` | components/dualpidpcm/dualpidpcm.cpp:336-358 | How an idle controller starts, from voltage, minimal currents and error: 2 % beyond the start threshold of an allowed direction |
| `PcmController.Pcm.QuietMeans` | components/dualpidpcm/dualpidpcm.cpp:336-358 | What a quiet update has seen, from voltage, minimal currents and levels |
| `PcmController.Pcm.ReversalDueMeans` | components/dualpidpcm/dualpidpcm.cpp:627-632 | When a direction is reversed, from the same quantities |
| `PcmController.Pcm.WantedLevelMeans` | components/dualpidpcm/dualpidpcm.cpp:735-758 | The level is twice the distance of the output from the neutral point, between the smallest and the largest level |
| `PcmController.StretchGoesOn` | components/dualpidpcm/dualpidpcm.cpp:611-625 | With each update the start shown and the confirmation are those of the unbroken quiet stretch at the end of the history: from its first update whose clock is not 0, 2.5 s on the clock |
| `PcmController.StretchStartIs` | components/dualpidpcm/dualpidpcm.cpp:611-625 | That first update: all from there on are quiet, and at every earlier one since which all are the clock showed 0 |
| `PcmController.ConfirmedMeans` | components/dualpidpcm/dualpidpcm.cpp:611-625 | In real time, a confirmed stop has seen quiet updates for 2.5 s |
| `PcmController.LongStretchIsConfirmed` | components/dualpidpcm/dualpidpcm.cpp:611-625 | And a quiet stretch shorter than a round of the clock is confirmed 2.5 s after any of its updates whose clock is not 0 |
| `PcmController.QuietNotConfirmed` | components/dualpidpcm/dualpidpcm.cpp:611-625 | Two quiet updates 2.5 s apart that do not end the direction: the first falls on a clock of 0 |
| `PcmController.Pcm.DecisionMeans` | components/dualpidpcm/dualpidpcm.cpp:573-670 | The decision of an update read off the state before it: the mode from idle, what becomes of `deadbandStart`, when a direction stops and exactly when it is reversed |
| `PcmController.Pcm.CountsWhenAgreed` | components/dualpidpcm/dualpidpcm.cpp:780-814 | In a direct reversal from a level above 0 the switch is turned under load once, and the new level raised against the old one exactly if it is above 0; in every other update neither happens |
| `PcmController.StrictWhenNoneCounted` | components/dualpidpcm/dualpidpcm.cpp:780-814 | The commands added are strictly safe exactly when they count no such turn and no such raise |
| `PcmController.ReversalUnderLoad` | components/dualpidpcm/dualpidpcm.cpp:646-814 | A run with both: charging, then 8 s later a demand to discharge |
| `PcmController.Pcm.JumpMovesOutput` | components/dualpidpcm/dualpidpcm.cpp:499-515 | What a jump adds to the integral of standard regulation moves the output by the jump |
| `PcmController.Pcm.SetPidMode` | components/dualpidpcm/dualpidpcm.cpp:128-155 | A change of the regulation mode keeps the invariant and moves no actuator |
| `Baud.LimitsAreExact` | components/ch9438/ch9438.h:209-213 | A baud rate lies between the limits if and only if clock/baud lies in 16..65535, and the limits of the configuration code are the same two numbers |
| `Baud.RoundedFits` | components/ch9438/ch9438.cpp:539-551 | Between the limits the rounded divisor is in 16..65535 before clamping |
| `Baud.RoundedIsNearest` | components/ch9438/ch9438.cpp:549-550 | No other divisor comes nearer to the clock |
| `Baud.RateError` | components/ch9438/ch9438.cpp:549-559 | The rate produced is within baud / (2 * divisor), one part in 32 at most |
| `Baud.RoundedFalls` | components/ch9438/ch9438.cpp:549-551 | A faster line never gets a larger divisor |
| `Baud.SetBaudrate` | components/ch9438/ch9438.cpp:539-559 | The rate used is the supported one nearest to the wanted one, and the two latch bytes form its rounded divisor |
| `SevenBits.TableIsParity` | components/ch9438/ch9438.cpp:572-575 | The folded table look-up is the parity of the seven bits |
| `SevenBits.Encode7Bits` | components/ch9438/ch9438.cpp:577-586 | Each byte becomes its seven bits with the parity or stop bit; the rest of the buffer is untouched |
| `SevenBits.SevenBitsRoundTrip` | components/ch9438/ch9438.cpp:577-597 | What was encoded decodes to its seven low bits without a parity error |
| `SevenBits.DecodedIsRemainder` | components/ch9438/ch9438.cpp:588-597 | As numbers, decoding is the remainder by 128, which is what the in-place decoder stores |
| `SevenBits.ParityErrorMeans` | components/ch9438/ch9438.cpp:588-597 | A byte is in error exactly when its eight bits hold the wrong number of ones for the line |
| `SevenBits.DamageNoticed` | components/ch9438/ch9438.cpp:588-597 | On a line with parity, damage to a good byte is noticed exactly when it flips an odd number of bits |
| `RingBuffer.WindowGrows` | components/ch9438/ch9438.h:46-53 | Bytes written in the free slots follow the stored ones; nothing stored is overwritten |
| `RingBuffer.WindowSplits` | components/ch9438/ch9438.h:61-71 | The oldest bytes and the rest of a ring, across the wrap |
| `RingBuffer.RxRing.ContiguousFree` | components/ch9438/ch9438.h:46-49 | The writable run touches no stored byte and is empty exactly when the ring is full |
| `RingBuffer.RxRing.Commit` | components/ch9438/ch9438.h:50-53 | The bytes written from the head on, across the wrap, now follow what is stored |
| `RingBuffer.RxRing.Peek` | components/ch9438/ch9438.h:54-59 | The oldest byte, if there is one |
| `RingBuffer.RxRing.PopBulk` | components/ch9438/ch9438.h:61-71 | Removes and copies the oldest bytes in order, across the wrap, and leaves the rest of the destination alone |
| `UartBridge.Channel.Decode7Bits` | components/ch9438/ch9438.cpp:588-603 | Decodes in place and adds exactly the number of wrong parities to the counter |
| `UartBridge.Channel.XferFifoToBuffer` | components/ch9438/ch9438.cpp:606-630 | Moves exactly min(count, free) bytes, in order, in chunks of at most 512 and across the wrap |
| `UartBridge.Channel.Poll` | components/ch9438/ch9438.cpp:330-355 | One round moves what was reported and fits; an invalid count moves nothing |
| `UartBridge.Channel.ReadArray` | components/ch9438/ch9438.cpp:636-647 | Gives the oldest bytes; the status says whether there were enough |
| `UartBridge.Channel.ChangeBaudRate` | components/ch9438/ch9438.cpp:461-490 | Changes the latch and drops what was received only when the rate is supported, new, and the transmit side is empty; otherwise nothing changes |
| `UartBridge.NothingLost` | components/ch9438/ch9438.cpp:606-647 | After any interleaving of receptions, polls and reads: delivered, ring and chip bytes together are what the chip accepted from the line |
| `UartBridge.SevenBitsEndToEnd` | components/ch9438/ch9438.cpp:577-647 | On a line with seven data bits, bytes that were encoded come out of chip, ring and reads as their low seven bits in order, and no parity error is counted |
| `ModbusCrc.ModbusCrc16` | components/deyemi/deyemi.cpp:20-34 | The two nested loops compute the CRC defined byte by byte |
| `CrcPolynomial.CrcIsRemainder` | components/deyemi/deyemi.cpp:20-34 | Over polynomials modulo 2, without the register: the CRC of any message is the remainder of dividing its bits, each byte lowest bit first, the first 16 inverted and 16 zeros appended, by x^16 + x^15 + x^2 + 1, and the only one |
| `CrcPolynomial.LeadingZeroDetected` | components/deyemi/deyemi.cpp:20-34 | A zero byte put in front of any message, or taken away there, changes its CRC |
| `ModbusCrc.Shift8Xor` | components/deyemi/deyemi.cpp:24-31 | The shift register is linear |
| `ModbusCrc.CrcInjective` | components/deyemi/deyemi.cpp:20-34 | Different register values stay different over any message |
| `ModbusCrc.BurstDetected` | components/deyemi/deyemi.cpp:20-34 | Any damage in one or two adjacent bytes, or a burst of at most 16 bits over three, anywhere in a message of any length, changes the CRC |
| `ModbusCrc.OddFlipsDetected` | components/deyemi/deyemi.cpp:20-34 | Any odd number of flipped bits, anywhere in a message of any length, changes the CRC |
| `ModbusCrc.CrcParity` | components/deyemi/deyemi.cpp:20-34 | The parity of the difference of two CRCs is that of the number of bits by which the messages differ |
| `ModbusCrc.IntactIsResidueZero` | components/deyemi/deyemi.cpp:203-208 | The last two bytes are the CRC of the rest if and only if the CRC of the whole is 0 |
| `ModbusCrc.DamagedFrameRefused` | components/deyemi/deyemi.cpp:203-208 | An intact frame is refused after any such damage, its CRC bytes included |
| `ModbusCrc.OddFlipsRefused` | components/deyemi/deyemi.cpp:203-208 | An intact frame is refused after any odd number of flipped bits |
| `SolarmanV5.V5Checksum` | components/deyemi/deyemi.cpp:36-41 | The 32-bit running sum gives the checksum modulo 256 |
| `SolarmanV5.EnvelopeIs` | components/deyemi/deyemi.cpp:96-131 | Every byte around a payload: start, length, control code, sender, the sum of the bytes modulo 256, and the end |
| `SolarmanV5.ExtractV5Payload` | components/deyemi/deyemi.cpp:133-169 | Unwrapping makes the tests of the specification in their order |
| `SolarmanV5.ExtractEnvelope` | components/deyemi/deyemi.cpp:133-169 | An envelope is unwrapped, to what was put in, exactly when it is a response whose payload has 14 bytes or more and fits the length word |
| `SolarmanV5.ExtractedIsEnvelope` | components/deyemi/deyemi.cpp:133-169 | Whatever is unwrapped is an envelope around just that payload |
| `SolarmanV5.ChangedByteRefused` | components/deyemi/deyemi.cpp:133-169 | One changed byte anywhere in an accepted frame and it is refused |
| `SolarmanV5.DeyeMi.WrapV5Request` | components/deyemi/deyemi.cpp:96-131 | The frame is the envelope of the request head and the tail, under the next serial number |
| `SolarmanV5.DeyeMi.BuildReadRequest` | components/deyemi/deyemi.cpp:175-188 | The read request carries a Modbus frame with its own CRC |
| `SolarmanV5.ReadRequestIs` | components/deyemi/deyemi.cpp:96-188 | Every byte of a read request: envelope, counter and serial number, type, register and count highest byte first, and an intact Modbus frame |
| `SolarmanV5.FramedIsIntact` | components/deyemi/deyemi.cpp:183-185 | A message followed by its own CRC bytes passes the receiver's test |
| `SolarmanV5.DeyeMi.ParseResponse` | components/deyemi/deyemi.cpp:190-231 | The response parser makes the tests of the specification in their order |
| `SolarmanV5.ReplyUnderstood` | components/deyemi/deyemi.cpp:190-231 | A well-formed answer of the inverter gives its registers |
| `SolarmanV5.RegistersAreGenuine` | components/deyemi/deyemi.cpp:190-231 | Registers are only reported out of an intact answer of this inverter to a read, and are the announced bytes |
| `SolarmanV5.DamagedReplyRefused` | components/deyemi/deyemi.cpp:203-208 | A burst in the Modbus frame is refused even when the envelope was made around it |
| `SolarmanV5.ChangedResponseRefused` | components/deyemi/deyemi.cpp:190-231 | One changed byte anywhere in an accepted response and it is refused |
| `Preferences.Cache.Save` | components/esp32/preferences.cpp:28-42 | Replaces what waits under the key in place, or appends |
| `Preferences.SaveInFinds` | components/esp32/preferences.cpp:28-42 | A save is what a reader of its key gets, and no other reader notices it |
| `Preferences.Cache.Load` | components/esp32/preferences.cpp:43-74 | Gives the last data saved exactly when it has the asked length and the flash, if needed, can be read |
| `Preferences.Cache.IsChanged` | components/esp32/preferences.cpp:158-173 | An entry counts as changed when it cannot be read or differs |
| `Preferences.RemovalKeepsView` | components/esp32/preferences.cpp:122-141 | Taking an entry out once the flash holds its data changes nothing for a reader |
| `Preferences.Cache.Sync` | components/esp32/preferences.cpp:110-157 | For every pattern of failures: the view is unchanged, the entries left are exactly the failed ones in order, and success means nothing waits and the flash shows the whole view |
| `Preferences.Cache.Reset` | components/esp32/preferences.cpp:175-184 | Forgets everything and closes the handle |
| `Preferences.ReaderSeesLastSave` | components/esp32/preferences.cpp:28-157 | Over any run of saves and syncs, whatever fails, a reader gets what was saved last |
| `ShadowRegisters.DeyeLvHyHub.Find` | components/deyelvhy/deyelvhy.cpp:109-115 | The index of the register's only entry, if it is tracked |
| `ShadowRegisters.DeyeLvHyHub.TrackRegister` | components/deyelvhy/deyelvhy.cpp:117-120 | One unknown, unheld entry per register |
| `ShadowRegisters.DeyeLvHyHub.AcceptRead` | components/deyelvhy/deyelvhy.cpp:122-134 | A held register ignores the poll; otherwise the copy is the value read; no other register changes |
| `ShadowRegisters.DeyeLvHyHub.WriteRegister` | components/deyelvhy/deyelvhy.cpp:136-160 | Sends unless the value was just written; a refused frame changes nothing; no other register changes |
| `ShadowRegisters.DeyeLvHyHub.WriteMasked` | components/deyelvhy/deyelvhy.cpp:162-169 | Refused for unknown registers; otherwise the merge of the copy and the masked bits is written |
| `ShadowRegisters.HoldWindow` | components/deyelvhy/deyelvhy.cpp:126-130 | In real time and across clock wraps, a register is held until the hold is over and no longer |
| `ShadowRegisters.HoldStarts` | components/deyelvhy/deyelvhy.cpp:153-158 | A hold works right after the write if and only if it is between 1 and 2^31 ms long |
| `ShadowRegisters.NoMaskedWriteLost` | components/deyelvhy/deyelvhy.cpp:122-169 | From the polled copy on, with polls arriving during the hold: the copy is that value with every masked write the bus took applied in order, refused frames change nothing, and after the first write the last frame sent is the copy |
| `ShadowRegisters.EachBitIsLastWritten` | components/deyelvhy/deyelvhy.cpp:162-169 | Each bit is as the last accepted write that covers it wants it, and untouched when none does |
| `ApiResync.ApiResyncComponent.RequestResync` | components/api_resync/api_resync.cpp:21-24 | A request sets the timer, replacing a pending one |
| `ApiResync.ApiResyncComponent.DoResync` | components/api_resync/api_resync.cpp:26-49 | The timer skips, postpones or broadcasts as specified |
| `ApiResync.RunKeepsInv` | components/api_resync/api_resync.cpp:21-49 | What an observer of any feasible run can rely on |
| `ApiResync.BroadcastsAreSpaced` | components/api_resync/api_resync.cpp:33-46 | Broadcasts are at least the minimum interval apart in real time, across clock wraps, and never more than the requests |
| `ApiResync.ForgottenOnlyAlone` | components/api_resync/api_resync.cpp:21-43 | Over every feasible run, a request without a broadcast since has no timer if and only if the timer has fired without a connected client since |
| `ApiResync.RequestForgotten` | components/api_resync/api_resync.cpp:26-31 | Such a run: one request, and no client when its timer fires |
| `ApiResync.RequestsAreDebounced` | components/api_resync/api_resync.cpp:21-24 | A broadcast comes at least the debounce delay after the latest request |
| `ApiResync.PostponedOnce` | components/api_resync/api_resync.cpp:34-43 | With no new request, the firing after a postponement broadcasts if and only if the timer is not late by the last part of a round of the clock, as long as the minimum interval |
| `ApiResync.PostponedTwice` | components/api_resync/api_resync.cpp:34-42 | A run in which a request is postponed a second time |
| `Bmm150.SampleXy` | code/BMM150_custom_sensor.h:378-391 | The assembled x and y samples are in -4096..4095 |
| `Bmm150.SampleZ` | code/BMM150_custom_sensor.h:393-398 | The assembled z sample is in -16384..16383 |
| `Bmm150.SampleHall` | code/BMM150_custom_sensor.h:399-401 | The assembled Hall value is below 8192 or, with a negative high byte, at least 57344 |
| `Bmm150.SamplesAre` | code/BMM150_custom_sensor.h:378-401 | The samples are the upper 13, 15 and 14 bits of their words |
| `Bmm150.CompensateX` | code/BMM150_custom_sensor.h:411-459 | For every trim, every Hall value and every 13-bit sample no 32-bit value overflows, and the result is the axis function of the x trims |
| `Bmm150.CompensateY` | code/BMM150_custom_sensor.h:461-507 | The same for y, whose products are in another order: the same axis function with the y trims |
| `Bmm150.AxisIsExact` | code/BMM150_custom_sensor.h:446-449 | The narrowing to 16 bits leaves an axis as it is if and only if the product of sample and gain lies between -0x8001 and 0x8000 times 8192 |
| `Bmm150.AxisWraps` | code/BMM150_custom_sensor.h:446-449 | It does not at the reference Hall value with the largest second trim value: the sample 4095 comes out as -1800 |
| `Bmm150.ReferenceHall` | code/BMM150_custom_sensor.h:427-445 | At the reference Hall value, or without one, the sensitivity is exactly 2^20 |
| `Bmm150.SensitivityIs` | code/BMM150_custom_sensor.h:427-445 | For every trim and Hall value the sensitivity is 2^20 + xy2 r^2 / 2^16 + xy1 r / 4 to within 1.3 |
| `Bmm150.AxisAtReference` | code/BMM150_custom_sensor.h:427-449 | At the reference the axis is the sample times 160 plus the second trim in 32nds, narrowed, plus 8 times the first trim, in sixteenths |
| `Bmm150.CompensateZ` | code/BMM150_custom_sensor.h:509-548 | No 32-bit value overflows; the result is -32768 exactly for unusable input, otherwise at most 2047 in size; the division by zero is characterised |
| `Bmm150.NumeratorMeans` | code/BMM150_custom_sensor.h:509-548 | The numerator is 2^15 (sample - z4) - z3 (hall - xyz1) / 4 to within one |
| `Bmm150.DenominatorMeans` | code/BMM150_custom_sensor.h:509-548 | The denominator is z2 + z1 hall / 2^15 to within its rounding |
| `Bmm150.DividesByZero` | code/BMM150_custom_sensor.h:509-548 | A trim and a Hall value for which the denominator is zero |

## Left out

- ZnpCodec.ZnpParser.Feed: not for a byte that the source stores behind its 250-byte buffer, since what that overwrites is not part of the object.
- ZnpPort.ReadLoop: for input without such a byte, which `ZnpPort.SizedExactly` characterises.
- OpTheorems.SuccessMeansAnswered: says nothing about frames the modem reported lost, because one flag covers the last frame of either kind and two frames can end in one call.
- UartBridge.Channel.Poll: one UART of the chip; the hub serves them one after the other.
- IEEE rounding: floating-point values are reals, and a value that is not a number is modelled only for the battery voltage.
- Payloads of the APS operations and their decoders (poll, maximum power, throttle scaling): an answer enters as what the decoder made of it.
- Housekeeping of `apszb.cpp` (poll schedule, persistence, energy counters) and its sensors.
- Transmit side of the UART bridge (`write_array`, `flush`), pins, interrupts and the test mode.
- Writing a register over Solarman V5 and TCP transport: the same envelope and CRC as the read.
- Range building and entity tables of `deyelvhy`, number and select actions of `api_resync`, register set-up of the BMM150.
- Logging, delays, publishing of states, and the Python configuration code except for the baud rate limits.
- Other components (dualpid, bioffsr, cmt2300a, emerson_r48, bno055, dmtcp, gp8403, anker_solix, auto_gen, debug): device sequences, or logic that repeats what is modelled here.
