# Verified model of the F Prime ground data system

The hub of the ground data system is a set of small stateful components: stream deframers and a message distributor, a
stop-and-wait file uplink with its queue and checksum, a file downlink, histories that serve many clients, the merge of
two dictionaries and the resolution of dictionary types. This project models them in Dafny, in the form they have in the
source (classes updated in place, loops, pure encoders), and proves what they promise.

Each component has a reference meaning written as functions on values, methods proved equal to it, and theorems about it:

- **Streams** (`Framing`, `FramingTheorems`, `Updown`, `Distribution`, `MessageStream`): how a stream is cut into reads
  never matters; deframing loses no byte and undoes framing; garbage is discarded exactly; bad messages are skipped alone.
- **File transfer** (`Checksum`, `FilePackets`, `TransmitFiles`, `Uplink`, `UplinkProtocol`, `UplinkQueue`, `UplinkOrder`,
  `Downlink`, `FileTransfer`, `FullTransfer`, `DownlinkRuns`): the uplinker refines a reference protocol over every run
  of handshakes, cancels and timeouts; the queue's semaphore has one owner in every interleaving; what goes up comes back
  as the same file, and what any packets leave on disk is read off the packets.
- **Histories** (`SessionHistory`, `SessionDelivery`, `SessionLifetime`, `ChronoHistory`, `ChronoTheorems`,
  `ChronoCursor`): every session is given a contiguous slice of the arrivals, once, and lives as long as it polls;
  chronological histories are stable time-sorts.
- **Dictionary merge** (`MergeSpec`, `Merger`, `MergeTheorems`, `MergeSymmetry`, `MergeNames`, `MergeOutcome`): the merge
  fails exactly when it should, is a conservative union that prefixes exactly the colliding names, keeps what every packet
  means, and does not depend on the order of its inputs.
- **Type resolution** (`TypeLoader`, `TypeLayout`, `TypeRegistry`) and **sequence search** (`SequenceSearch`): the cached resolver
  computes the plain denotation whenever the type registry admits it; the greedy search is complete.

`Bytes`, `Sequences`, `Sorting` and `Strings` hold what several modules share. The CRC is an arbitrary function from bytes to a 32-bit word;
descriptors have a configured width (`FilePackets.Config`). Reads, write outcomes, echoes, timer firings and the clock
are parameters or steps. `dafny verify dfyconfig.toml` checks the whole project.

Where the code does less than its documentation or its other half suggests, the model follows the code and the theorem
says exactly when the expectation holds:

- `file_decoder.py:62` leaves the one-element tuple of `unpack_from` as an END packet's hash, so a decoded END packet is
  not the packet that was encoded (`FilePackets.DecodeUndoesEncode`).
- `framing.py:158` frames payloads of any size, but `framing.py:200` never returns one of 4096 bytes or more
  (`FramingTheorems.DeframeUndoesFrame`).
- A packet list may ask for packets below 1; they sort first, read as empty and end the transfer before any data
  (`TransmitFiles.PacketListPlan`).
- A packet that cannot be encoded is skipped by the next duplicated echo: with `--file-uplink-chunk-size` of 65536 or more
  a transfer can end FINISHED with data never sent (`UplinkProtocol.UplinkRunsIff`, `UplinkProtocol.LongChunkLost`).
- `downlinker.py:98` expects only permission errors from opening a destination; after any other the downlinker loses
  everything until its timer fires (`Downlink.Receive`, `FullTransfer.StuckLosesAll`).
- `uplinker.py:117` lets a failed start end the queue's thread with the semaphore held (`UplinkQueue.StartWedges`).
- `json_loader.py:250` names inline arrays after element type and size only, so two with different formats clash in the
  registry (`TypeRegistry.InlineFormatsIff`, `TypeLoader.JsonLoader.ParseAll`).
- `helpers.py:142` opens an existing destination without truncating it, so a shorter file keeps the old tail
  (`FileTransfer.EndToEndIdentity`).
- `ram.py:56` accepts a negative limit, which `resource.py:94` takes from the request: items are delivered twice, reached
  back for, or lost to other sessions (`SessionDelivery.RunDeliversIff`, `SessionDelivery.ClearSafeIff`).
- `uplinker.py:72` lets an unpause overtake a pause that is still waiting for the semaphore
  (`UplinkQueue.OrderlyIff`).
- `chrono.py:112` clears the new items by time even when the objects were cleared by position
  (`ChronoTheorems.ClearByPositionIff`), and a negative position moves the cursor forward
  (`ChronoTheorems.CursorInsideIff`).
- `uplinker.py:112` puts the file a paused queue was waiting for behind those enqueued meanwhile
  (`UplinkOrder.FirstInFirstOutIff`, `UplinkOrder.PauseReorders`).
- With fewer than 7 bytes behind it, garbage is not discarded yet (`FramingTheorems.GarbageDiscardedExactly`).

## Model

| member | source | states |
|---|---|---|
| Framing.Framer.Deframe | src/fprime_gds/common/communication/framing.py:173-226 | One deframe call of either format: without a packet, the pool is left at something to wait on and nothing more could be extracted; with one, packet, rest and thrown bytes are the first part of draining the pool. The TCP format reports no thrown bytes. |
| Framing.FpDeframe | src/fprime_gds/common/communication/framing.py:185-226 | The resynchronising loop: a bad start word, a length of 4096 or more and a bad checksum each throw one byte away; a missing tail waits. |
| Framing.TcpDeframe | src/fprime_gds/common/communication/framing.py:282-296 | Shift to ZZZZ, then a length-prefixed packet or a wait. |
| Framing.Framer.DeframeAll | src/fprime_gds/common/communication/framing.py:75-85 | The loop extracts exactly the full drain of the pool: all packets, the leftover, and the discarded bytes aggregated. |
| FramingTheorems.HeadStable | src/fprime_gds/common/communication/framing.py:189-226 | Once the front of a pool calls for an action, bytes arriving behind it never change it. |
| FramingTheorems.ChunkingInvariance | src/fprime_gds/common/communication/framing.py:75-85 | For every split of a stream in two, in both formats: draining the first part and then its leftover with the second gives the packets, discarded bytes and leftover of one drain of the whole. |
| FramingTheorems.LeftoverWaits | src/fprime_gds/common/communication/framing.py:79-85 | Draining what is left over extracts nothing. |
| FramingTheorems.FpPoolBounded | src/fprime_gds/common/communication/framing.py:198-226 | The pool carried between reads never exceeds 4106 bytes. |
| FramingTheorems.TakenIsFrame | src/fprime_gds/common/communication/framing.py:205-215 | The bytes consumed for a packet are exactly what frame makes of it. |
| FramingTheorems.TakenIsCarrier | src/fprime_gds/common/communication/framing.py:189-296 | In either format the bytes consumed for a packet are the message that carries it. |
| FramingTheorems.DeframingConserves | src/fprime_gds/common/communication/framing.py:185-226 | In both formats the stream equals its history written out again (dropped bytes as they are, packets as the bytes that carried them, in stream order) followed by the leftover; packets and discarded bytes are those of the history. |
| FramingTheorems.PacketsBounded | src/fprime_gds/common/communication/framing.py:198-203 | No packet of 4096 bytes or more ever comes out. |
| FramingTheorems.FramesDrain | src/fprime_gds/common/communication/framing.py:166-215 | Frames of payloads below 4096 bytes, followed by anything, deframe to those payloads and then whatever follows does. |
| FramingTheorems.DeframeUndoesFrame | src/fprime_gds/common/communication/framing.py:158-226 | Concatenated frames deframe to exactly their payloads with nothing left or discarded if and only if every payload is below 4096 bytes; frame itself accepts larger ones. |
| FramingTheorems.GarbageDiscardedExactly | src/fprime_gds/common/communication/framing.py:189-226 | Garbage in which no start word begins is discarded exactly, with what follows deframed as if it were not there, if and only if there is none or at least 7 bytes follow; with fewer its last bytes stay in the pool. |
| FramingTheorems.FrameOnWire | src/fprime_gds/common/communication/framing.py:158-171 | frame fails exactly when the length needs more than 32 bits; otherwise, read field by field, its bytes are start word, length, payload and checksum of all before, or in the TCP format the greeting, length and payload (framing.py:260-268). |
| FramingTheorems.WireDrains | src/fprime_gds/common/communication/framing.py:158-226 | Any bytes with those fields deframe to exactly the payload if and only if it is below 4096 bytes. |
| FramingTheorems.FrameDeframes | src/fprime_gds/common/communication/framing.py:158-226 | Every payload whose length fits frames, and what frame returns deframes to exactly it if and only if it is below 4096 bytes. |
| FramingTheorems.TcpGarbageShifted | src/fprime_gds/common/communication/framing.py:285-296 | Garbage in which no marker begins is shifted away, with what follows deframed as if it were not there, if and only if there is none or at least 4 bytes follow. |
| FramingTheorems.TcpStreamDrains | src/fprime_gds/common/communication/framing.py:285-296 | ZZZZ-and-length messages come back as exactly their payloads, whatever follows. |
| Updown.Downlinker.DeframeRead | src/fprime_gds/common/communication/updown.py:86-101 | One turn of the loop: leftover, queue and discard log are those of draining pool and chunk together. |
| Updown.Downlinker.Deframing | src/fprime_gds/common/communication/updown.py:78-101 | Any sequence of reads leaves the pool, the queued packets and the discard log of one drain of the concatenated stream. |
| Updown.Downlinker.AddLoopbackFrame | src/fprime_gds/common/communication/updown.py:131-143 | The frame goes to the end of the outgoing queue. |
| Updown.Uplinker.Uplink | src/fprime_gds/common/communication/updown.py:206-219 | For one packet: between one and three writes, none after an accepted one and fewer than three only behind one, each of them the packet on the wire field by field; the handshake is looped back if and only if some write is accepted; a packet that cannot be framed writes nothing. |
| Checksum.CFDPChecksum.Update | src/fprime_gds/common/files/helpers.py:90-102 | Whatever the alignment, the register grows by the sum of the bytes at their place values 256^(3 - position mod 4), modulo 2^32. |
| Checksum.TakeWord | src/fprime_gds/common/files/helpers.py:93-102 | One padded word is worth the bytes it takes, and the rest is worth what it is at its own offset. |
| Checksum.RegisterIsTotal | src/fprime_gds/common/files/helpers.py:97-99 | Reducing after each update or once at the end is the same. |
| Checksum.TotalCountsBytes | src/fprime_gds/common/files/helpers.py:90-102 | Pieces of a file in any order, alignment and overlap sum to the file with each byte counted as often as pieces hold it. |
| Checksum.PartitionIndependent | src/fprime_gds/common/files/helpers.py:90-102 | Any partition of a file, fed in any order, leaves the checksum of one update over the whole file. |
| Sorting.SortedSetSorts | src/fprime_gds/common/files/helpers.py:133-134 | sorted(set(...)) is strictly ascending and has the same members. |
| Sorting.AscendingUnique | src/fprime_gds/common/files/helpers.py:133-134 | There is only one such list. |
| TransmitFiles.TransmitFile.constructor | src/fprime_gds/common/files/helpers.py:119-134 | A new file is queued, closed, at position 0 with checksum 0, its packet list sorted and without repeats. |
| TransmitFiles.TransmitFile.Open | src/fprime_gds/common/files/helpers.py:136-152 | Opening twice is an assertion failure and changes nothing; a missing file fails after the state change; otherwise the file is open at 0. |
| TransmitFiles.TransmitFile.Read | src/fprime_gds/common/files/helpers.py:159-182 | Sequential reads advance; packet reads seek to (p - 1) * chunk; an exhausted list or a position below 0 reads as empty, and the seek value says where the data came from. |
| TransmitFiles.TransmitFile.Close | src/fprime_gds/common/files/helpers.py:196-206 | The file is closed and nothing else changes. |
| TransmitFiles.SequentialPlan | src/fprime_gds/common/files/helpers.py:164-168 | A sequential file is cut into ceil(size / chunk) contiguous pieces, all full but the last, whose checksum is the file's. |
| TransmitFiles.PacketListPlan | src/fprime_gds/common/files/helpers.py:169-182 | The pieces read are those of the requested packets that hold part of the file, ascending and without repeats, if and only if no request is below 1 or none holds part of the file; with a request below 1 nothing is read at all. |
| FilePackets.DecodeUndoesEncode | src/fprime_gds/common/decoders/file_decoder.py:43-72 | Decoding an encoded body gives the packet back whatever trails it, exactly for START, DATA and CANCEL; an END hash comes back inside a tuple, which cannot be encoded again. |
| FilePackets.StartDecodes | src/fprime_gds/common/decoders/file_decoder.py:47-54 | The variable-length paths of START are found again. |
| FilePackets.DataDecodes | src/fprime_gds/common/decoders/file_decoder.py:55-60 | Offset, length and data of DATA are found again. |
| FilePackets.BodyInjective | src/fprime_gds/common/encoders/file_encoder.py:73-98 | Two packets have the same body only if they are equal. |
| FilePackets.ExpectedIsTail | src/fprime_gds/common/files/uplinker.py:262-266 | The bytes kept as expected handshake are the descriptor and the body. |
| FilePackets.ExpectedInjective | src/fprime_gds/common/encoders/file_encoder.py:73-98 | Two packets call for the same handshake only if they are equal. |
| Distribution.Distributor.Register | src/fprime_gds/common/distributor/distributor.py:62-70 | The decoder joins the end of its descriptor's list; an unknown descriptor is a key error and changes nothing. |
| Distribution.Distributor.ParseIntoRawMsgs | src/fprime_gds/common/distributor/distributor.py:88-121 | Without a key, in place: the messages and the rest of the buffer are the complete cut of the buffer. |
| Distribution.Distributor.OnRecv | src/fprime_gds/common/distributor/distributor.py:170-217 | Each whole message of buffer and data with a known descriptor goes, in order, to every decoder registered for it; truncated and unknown ones are skipped alone; the buffer keeps the rest. |
| Distribution.DecoderReceives | src/fprime_gds/common/distributor/distributor.py:206-217 | A decoder receives exactly the payloads of the descriptors it is registered for, in order, as often as it is registered. |
| Distribution.CutChunked | src/fprime_gds/common/distributor/distributor.py:88-121 | Cutting is independent of where the stream is split. |
| Distribution.ReceiveChunked | src/fprime_gds/common/distributor/distributor.py:189-217 | However a stream is cut into calls, the deliveries are those of one call with all of it. |
| Distribution.MessageDispatches | src/fprime_gds/common/distributor/distributor.py:123-161 | A length-prefixed message is cut off whole and dispatched with its descriptor and payload. |
| Distribution.PacketStreamDelivers | src/fprime_gds/common/distributor/distributor.py:189-217 | A stream of encoded file packets delivers exactly their bodies, in order, to the file decoder. |
| MessageStream.DispatchIff | src/fprime_gds/common/distributor/distributor.py:123-161 | A message is dispatched as a descriptor and payload if and only if its body is exactly those and the descriptor is known and has a decoder. |
| MessageStream.StreamDelivers | src/fprime_gds/common/distributor/distributor.py:88-217 | Of any messages, good and bad mixed, with the beginning of another behind them, every good one is delivered in order, every bad one is skipped alone, and the beginning stays in the buffer. |
| Distribution.EchoIsMessage | src/fprime_gds/common/zmq_transport.py:283-309 | The echo, after both strips and the new length, is one well-formed message around the expected bytes. |
| Distribution.EchoDelivers | src/fprime_gds/common/zmq_transport.py:194-200 | The echo of a sent packet is delivered to the handshake decoder as exactly the expected bytes. |
| Distribution.LoopbackIsExpected | src/fprime_gds/common/communication/updown.py:236-251 | The echo of a packet is what the uplinker expects for it, and the echo of q is what it expects for p if and only if p == q. |
| Uplink.FileUplinker.Send | src/fprime_gds/common/files/uplinker.py:255-266 | A packet is logged, the timer armed and the expected bytes replaced, or an encoding error leaves everything as it was. |
| Uplink.FileUplinker.NextSequence | src/fprime_gds/common/files/uplinker.py:340-344 | The number given out is the old one; the counter moves by one. |
| Uplink.FileUplinker.Start | src/fprime_gds/common/files/uplinker.py:229-253 | Busy, open failure or missing file as in the code; otherwise RUNNING with START sent. |
| Uplink.FileUplinker.DataCallback | src/fprime_gds/common/files/uplinker.py:268-304 | The in-place callback equals the handshake step in every state: mismatch, END_WAIT, canceled, assertion, END and DATA. |
| Uplink.FileUplinker.SendNextPiece | src/fprime_gds/common/files/uplinker.py:293-304 | Next chunk read: END with the checksum when empty, else checksum updated and DATA at its offset. |
| Uplink.FileUplinker.SendAndFinish | src/fprime_gds/common/files/uplinker.py:288-299 | The packet goes out under the next number and the file is finished, unless it cannot be encoded. |
| Uplink.FileUplinker.Finish | src/fprime_gds/common/files/uplinker.py:322-338 | Closed, sequence 0, END_WAIT, source removed (failing when gone); without waiting also IDLE, nothing expected, one release, timer stopped. |
| Uplink.FileUplinker.Cancel | src/fprime_gds/common/files/uplinker.py:306-315 | Only a RUNNING transfer becomes canceled. |
| Uplink.FileUplinker.Timeout | src/fprime_gds/common/files/uplinker.py:317-320 | Finished at once and marked TIMEOUT, unless finishing fails. |
| UplinkProtocol.StartImplements | src/fprime_gds/common/files/uplinker.py:229-253 | A start from idle sends START with id 0 and enters the protocol, or, exactly when START cannot be encoded, raises and sends nothing. |
| UplinkProtocol.NextPiece | src/fprime_gds/common/files/uplinker.py:293-304 | The next chunk read from the file is the next piece of the plan, and at its end the register is that of the whole plan. |
| UplinkProtocol.CancelPacket | src/fprime_gds/common/files/uplinker.py:288-291 | On the awaited echo a canceled transfer sends CANCEL under the next number and waits for its echo, or, when that number no longer fits, only uses it up. |
| UplinkProtocol.RespondImplements | src/fprime_gds/common/files/uplinker.py:268-320 | Each response to a handshake, cancel request or timeout is the step of the reference protocol, whether or not the next packet can be encoded. |
| UplinkProtocol.UplinkRefinesProtocol | src/fprime_gds/common/files/uplinker.py:229-338 | Over any run of any started transfer, encodable or not, the uplinker is in the state the reference protocol reaches: file, numbers, log, awaited echo and semaphore. |
| UplinkProtocol.UplinkSafety | src/fprime_gds/common/files/uplinker.py:229-338 | For any started transfer, what was sent is the encodable part of the first k packets of START, pieces, END, at most followed by one CANCEL; the semaphore is released at most once, exactly when idle again; a FINISHED transfer has attempted every packet and sent END, and has sent the whole transcript if and only if every packet can be encoded. |
| UplinkProtocol.UplinkRefuses | src/fprime_gds/common/files/uplinker.py:239-304 | At any point of any run a second start is refused and changes nothing until the transfer is over; after it, echoes change nothing, and only a repeat of the last awaited one raises the assertion, unless the transfer timed out. |
| UplinkProtocol.UplinkWholeRun | src/fprime_gds/common/files/uplinker.py:268-304 | Every mix of correct, duplicated, stale and junk handshakes has m echoes matched in order mean exactly m + 1 packets sent (one outstanding) and completion exactly when the echoes of all packets occur in order, if and only if every packet of the transfer can be encoded. |
| UplinkProtocol.FinishesWithout | src/fprime_gds/common/files/uplinker.py:293-304 | A transfer whose START and END can be encoded can always be driven to FINISHED, having sent exactly the packets that can. |
| UplinkProtocol.LongChunkLost | src/fprime_gds/common/files/uplinker.py:293-304 | A file of 65537 bytes in chunks of 65536, its START echo arriving twice, ends FINISHED with its first 65536 bytes never sent. |
| UplinkProtocol.StaleEchoesDiffer | src/fprime_gds/common/files/uplinker.py:346-354 | Within a transfer no packet that goes out answers for another. |
| UplinkProtocol.EncodableIff | src/fprime_gds/common/encoders/file_encoder.py:73-97 | In both modes a transfer encodes throughout if and only if the START fields fit, no piece exceeds 65535 bytes and the packets number at most 2^32, all read off the file, the requested packets and the chunk. |
| UplinkProtocol.UplinkRunsIff | src/fprime_gds/common/files/uplinker.py:268-304 | The property of whole runs holds if and only if the START fields fit, no piece exceeds 65535 bytes and the packets number at most 2^32. |
| UplinkProtocol.SequentialTranscript | src/fprime_gds/common/files/uplinker.py:293-304 | The transfer has 2 + ceil(size / chunk) packets, tiles the file, and ends with END carrying the CFDP checksum of the whole file. |
| UplinkQueue.StepKeepsInv | src/fprime_gds/common/files/uplinker.py:66-121 | Every atomic step of queue thread, user, timer and handshake keeps the invariant: permits plus holders are 1. |
| UplinkQueue.UnpauseSafeIff | src/fprime_gds/common/files/uplinker.py:72-76 | Unpausing keeps the invariant if and only if no pause is still blocked. |
| UplinkQueue.EarlyUnpauseBreaksPause | src/fprime_gds/common/files/uplinker.py:66-76 | Otherwise the blocked pause returns while a transfer is in flight. |
| UplinkQueue.EarlyUnpauseReached | src/fprime_gds/common/files/uplinker.py:66-121 | For every file there is a run from the start that does so: enqueued, started, paused, unpaused early. |
| UplinkQueue.RunKeepsInv | src/fprime_gds/common/files/uplinker.py:101-121 | The invariant holds after any run with orderly unpauses. |
| UplinkQueue.OrderlyIff | src/fprime_gds/common/files/uplinker.py:66-121 | The invariant holds at every point of a run if and only if no unpause in it is called while a pause is blocked. |
| UplinkQueue.UplinkMutualExclusion | src/fprime_gds/common/files/uplinker.py:101-121 | In every reachable state, failed starts included, the permit has one owner, each started file releases at most once, start never finds the uplinker busy and fails exactly for a file that cannot be started, and nothing is in flight while a pause holds. |
| UplinkOrder.NothingLost | src/fprime_gds/common/files/uplinker.py:55-121 | In any run every enqueued file is exactly once started, in hand or on the queue, and the files started are as many as the starts. |
| UplinkOrder.StepInOrderIff | src/fprime_gds/common/files/uplinker.py:101-121 | A step keeps the order of enqueueing if and only if it does not rotate a paused queue. |
| UplinkOrder.FirstInFirstOutIff | src/fprime_gds/common/files/uplinker.py:55-121 | All along a run the files started, the one in hand and the queue are the enqueued files in order, if and only if no pause rotates a queue of different files. |
| UplinkOrder.PauseReorders | src/fprime_gds/common/files/uplinker.py:108-113 | A run in which two files are enqueued while a pause finds the thread waiting, and the second is then ahead of the first. |
| UplinkQueue.StartWedges | src/fprime_gds/common/files/uplinker.py:109-121 | A start that fails while nothing is expected ends the thread with the permit held and no timer running. |
| UplinkQueue.WedgedForEver | src/fprime_gds/common/files/uplinker.py:66-121 | From then on nothing is uplinked, no file is started and no pause returns, whatever happens but an unpause. |
| Downlink.Sanitize | src/fprime_gds/common/files/downlinker.py:212-219 | Every separator becomes an underscore and every other character stays, so no separator is left. |
| Downlink.Join | src/fprime_gds/common/files/downlinker.py:94 | The path begins with the directory and ends with the name, with one separator between them at most and exactly where the directory has none. |
| Downlink.WriteAtReads | src/fprime_gds/common/files/helpers.py:184-194 | Written bytes are read back at their offset; bytes outside them are unchanged; the file never shrinks. |
| Downlink.Receive | src/fprime_gds/common/files/downlinker.py:56-75 | A valid state, with nothing open while idle, stays valid if and only if no START meets an error other than a denied permission; an invalid one takes nothing and stays invalid. |
| Downlink.FileDownlinker.HandleStart | src/fprime_gds/common/files/downlinker.py:77-115 | A transfer in progress is finished first; the open-file assertion fails exactly in an invalid state; opened without truncation the state is RUNNING, on a denied permission ERROR, and after any other error IDLE with the file still active. |
| Downlink.FileDownlinker.HandleData | src/fprime_gds/common/files/downlinker.py:117-154 | Written at its offset when RUNNING; counted in any state. |
| Downlink.FileDownlinker.Finish | src/fprime_gds/common/files/downlinker.py:197-205 | Idle, sequence 0, nothing open; an error when nothing was. |
| Downlink.FileDownlinker.DataCallback | src/fprime_gds/common/files/downlinker.py:56-190 | Each packet type in each state, END and CANCEL out of turn ignored, and what a START raises. |
| Downlink.FileDownlinker.Timeout | src/fprime_gds/common/files/downlinker.py:192-205 | Whatever the state, a valid one follows; an error when nothing was open. |
| FileTransfer.StreamDecodes | src/fprime_gds/common/decoders/file_decoder.py:43-72 | Any packets encoded, concatenated, split anyhow, distributed and decoded are the packets sent, but for END tuples. |
| FileTransfer.WriteAllCovers | src/fprime_gds/common/files/downlinker.py:117-154 | Pieces of a file written in any order with repetitions leave every covered byte right. |
| FileTransfer.WriteAllTail | src/fprime_gds/common/files/downlinker.py:145-148 | Behind the file's end the destination keeps what it had. |
| FileTransfer.PiecesDelivered | src/fprime_gds/common/files/downlinker.py:117-154 | DATA packets covering a file, in any order, leave the file at the destination and touch no other. |
| FileTransfer.EndToEndIdentity | src/fprime_gds/common/files/downlinker.py:117-154 | Encode, strip, concatenate, split, distribute, decode, write: if the packets cover the file the destination is the file over its old content, and equals the file if and only if the old content was not longer. |
| FileTransfer.TilesCover | src/fprime_gds/common/files/helpers.py:164-168 | The pieces of a sequential read cover the file. |
| FileTransfer.SequentialPlanDelivers | src/fprime_gds/common/files/helpers.py:164-168 | The pieces of a sequential uplink restore the file at a running downlinker. |
| FullTransfer.TransferReceived | src/fprime_gds/common/files/downlinker.py:56-205 | START, covering DATA in any order, END: from a valid state, when the destination opens, the file stands there, no other path changes and the downlinker is idle; otherwise disk and file list are unchanged. The state is valid after if and only if it was and the open raised nothing but a permission error. |
| DownlinkRuns.ClosingPackets | src/fprime_gds/common/files/downlinker.py:156-190 | END finishes any transfer in progress, CANCEL only a running one; in every other state they change nothing, and the disk never changes. |
| DownlinkRuns.CancelStops | src/fprime_gds/common/files/downlinker.py:56-167 | START that opens, any DATA, CANCEL: idle, nothing open, sequence 0, the destination as the pieces leave it, no other path changed; after a denied START nothing is written and CANCEL does not end it. |
| DownlinkRuns.LateDataDropped | src/fprime_gds/common/files/downlinker.py:117-167 | DATA after the CANCEL changes nothing but the count. |
| DownlinkRuns.RunLeaves | src/fprime_gds/common/files/downlinker.py:56-205 | For any packets from idle, without refused destinations: running exactly when the last packet that is no DATA is a START that opened, towards its path; the files are the opened paths in order; every path holds what it held with exactly the pieces written over it that came while it was open. |
| FullTransfer.StuckLosesAll | src/fprime_gds/common/files/downlinker.py:87-115 | After an open that raised anything else, every packet that arrives is lost, STARTs included, until the timer fires. |
| FullTransfer.DirectoryLosesNext | src/fprime_gds/common/files/downlinker.py:92-106 | A destination that sanitizes to nothing, a dot or two dots, or holds a NUL, not met by a denied permission, loses the next transfer with it. |
| FullTransfer.UplinkedFileRestored | src/fprime_gds/common/files/uplinker.py:229-304 | When all its packets can be encoded and the destination opens, everything a sequential uplink sends, passed through encoder, stream, distributor and decoder, restores exactly the uplinked file; when it does not open, nothing on disk changes. |
| SessionHistory.History.DataCallback | src/fprime_gds/flask/components.py:37-47 | Counted and appended. |
| SessionHistory.History.SetClearTime | src/fprime_gds/common/history/ram.py:124-126 | The clear time is the one given. |
| SessionHistory.History.RamRetrieve | src/fprime_gds/common/history/ram.py:41-59 | Batch and new cursor of a session, a new session or none, with Python's slice rules for any limit. |
| SessionHistory.History.SelfCleaningRetrieve | src/fprime_gds/common/history/ram.py:128-142 | The session's last request is refreshed first. |
| SessionHistory.History.FlaskRetrieve | src/fprime_gds/flask/components.py:49-66 | Offset and count are recorded before the cursor moves. |
| SessionHistory.History.Retrieve | src/fprime_gds/flask/components.py:84-96 | In the non-clearing history a new session starts at 0. |
| SessionHistory.History.EarliestCursor | src/fprime_gds/common/history/ram.py:89-91 | The least cursor, 0 without any. |
| SessionHistory.History.RamClear | src/fprime_gds/common/history/ram.py:75-94 | Named session removed, objects dropped up to the least cursor, cursors shifted. |
| SessionHistory.History.Clear | src/fprime_gds/common/history/ram.py:144-166 | Expired sessions go first; the non-clearing history never clears. |
| SessionHistory.History.GetSeenCount | src/fprime_gds/flask/components.py:68-71 | The count at the session's last retrieve, or of everything. |
| SessionDelivery.NextKeepsSane | src/fprime_gds/common/history/ram.py:32-94 | Any event at all, negative limits included, keeps the objects a suffix of the arrival log and every live session's counters right. |
| SessionDelivery.ClearSafeIff | src/fprime_gds/common/history/ram.py:83-94 | In any state a clear drops only what every surviving session has passed if and only if no surviving cursor is negative, or one is so far below zero that nothing is dropped. |
| SessionDelivery.ClearDropsOnlySeen | src/fprime_gds/common/history/ram.py:83-94 | With cursors inside the list a clear drops as many items as the least surviving cursor allows; that cursor becomes 0; without survivors nothing is dropped. |
| SessionDelivery.ClearKeepsLiveSessions | src/fprime_gds/common/history/ram.py:153-166 | A session survives exactly when it is not the one named and has not expired. |
| SessionLifetime.LiveIff | src/fprime_gds/common/history/ram.py:128-166 | After any run the sessions with a cursor are exactly those that were polled and that every clear since has spared, read off the events; the last request of each is the time of its last poll, and the clear time the one last set. |
| SessionLifetime.SurvivesClearIff | src/fprime_gds/common/history/ram.py:144-166 | After any run a live session survives a clear if and only if it is not named and the clear time is not positive or its last poll plus the clear time is not before the clear. |
| SessionDelivery.RetrieveDelivers | src/fprime_gds/common/history/ram.py:52-59 | For any limit, a retrieve ends behind its start if and only if the limit is absent or not negative, and then delivers the contiguous slice of the arrival log from the session's position, up to the limit. |
| SessionDelivery.NextKeepsInvIff | src/fprime_gds/common/history/ram.py:32-94 | An event keeps every session's deliveries exact if and only if it is not a retrieve with a negative limit: by a known session, a new one or none, in either history. |
| SessionDelivery.RunDeliversIff | src/fprime_gds/common/history/ram.py:32-94 | Deliveries are exact all along a run if and only if no retrieve in it has a negative limit. |
| SessionDelivery.RetrieveDeliversIff | src/fprime_gds/common/history/ram.py:41-59 | After any run without negative limits, a named session's next retrieve leaves exactly-once delivery intact if and only if its limit is absent or not negative, whether or not the session is new. |
| SessionDelivery.ExactlyOnceDelivery | src/fprime_gds/common/history/ram.py:41-94 | Over any run without negative limits, all a live session was given is the contiguous slice of the arrivals from its registration to its cursor, and the rest is still held. |
| SessionDelivery.CountersAgree | src/fprime_gds/flask/components.py:37-71 | Over any run at all, the seen count is the arrivals from registration to last retrieve and the non-clearing history holds every arrival; without negative limits no session was given more than its count (plus offset in the non-clearing history). |
| SessionDelivery.CaughtUp | src/fprime_gds/flask/components.py:49-96 | After a retrieve with any limit that leaves the cursor at the end, the count equals the items given (with the offset in the non-clearing history). |
| SessionDelivery.NegativeLimitRepeats | src/fprime_gds/common/history/ram.py:56-58 | A run from the start in which an item that arrives once is given to a session twice. |
| SessionDelivery.NegativeLimitReachesBack | src/fprime_gds/common/history/ram.py:54-58 | A run in which a new session is given what arrived before it registered. |
| SessionDelivery.NegativeLimitLoses | src/fprime_gds/common/history/ram.py:89-94 | A run in which one session's negative limit and a clear take three items from another session that was given none of them. |
| ChronoHistory.Place | src/fprime_gds/common/history/chrono.py:169-177 | Behind the last item not later than the time. |
| ChronoHistory.IndexOf | src/fprime_gds/common/history/chrono.py:193-214 | 0 without a start, the index given, or the first item at or after a time or satisfying a predicate, the end when there is none. |
| ChronoHistory.ChronologicalHistory.InsertChrono | src/fprime_gds/common/history/chrono.py:156-177 | The backward scan inserts at that place and returns it. |
| ChronoHistory.ChronologicalHistory.DataCallback | src/fprime_gds/common/history/chrono.py:45-57 | Accepted items enter both lists and may pull the cursor back; others change nothing. |
| ChronoHistory.ChronologicalHistory.GetIndex | src/fprime_gds/common/history/chrono.py:193-214 | First item at or after a time, first satisfying a predicate, or the index given. |
| ChronoHistory.ChronologicalHistory.Retrieve | src/fprime_gds/common/history/chrono.py:59-74 | Everything from the start; nothing is new any more. |
| ChronoHistory.ChronologicalHistory.RetrieveNew | src/fprime_gds/common/history/chrono.py:76-95 | The new items, or with repeats all from the cursor. |
| ChronoHistory.ChronologicalHistory.ClearList | src/fprime_gds/common/history/chrono.py:179-191 | Everything before the start is deleted, all of it without one, and the position is returned. |
| ChronoHistory.ChronologicalHistory.Clear | src/fprime_gds/common/history/chrono.py:97-119 | Objects up to the start go, new items before the first object left go, the cursor shifts. |
| ChronoTheorems.StableSortUnique | src/fprime_gds/common/history/chrono.py:156-177 | A stable time-sort is unique. |
| ChronoTheorems.InsertIsStable | src/fprime_gds/common/history/chrono.py:166-177 | Inserting an arrival gives the stable sort with the arrival last. |
| ChronoTheorems.CutIsStable | src/fprime_gds/common/history/chrono.py:188-191 | Clearing up to a time leaves the stable sort of what is not before it. |
| ChronoTheorems.PositionIsStable | src/fprime_gds/common/history/chrono.py:188-191 | Clearing up to any position, even between equal times, leaves the stable sort of the rest. |
| ChronoTheorems.InsertBoth | src/fprime_gds/common/history/chrono.py:54-57 | Inserting into a sorted list and a subsequence of it keeps the subsequence. |
| ChronoTheorems.ChronologicalOrder | src/fprime_gds/common/history/chrono.py:45-119 | Over any run of arrivals, retrieves and clears of everything, by time, position or predicate, the objects are the stable time-sort of what is kept. |
| ChronoTheorems.ClearByPositionIff | src/fprime_gds/common/history/chrono.py:110-116 | After a clear by position no cleared item is among the new ones if and only if no new item before the position is as late as the item there. |
| ChronoTheorems.CursorInsideIff | src/fprime_gds/common/history/chrono.py:118-119 | After a clear the cursor is inside the list if and only if the position is not negative, or nothing was retrieved and it is inside the list. |
| ChronoTheorems.ClearKeepsFresh | src/fprime_gds/common/history/chrono.py:97-119 | A clear of everything, by time, behind retrieved items only, or at a position of the kind above keeps the new items a subsequence behind the cursor. |
| ChronoTheorems.CleanCutIff | src/fprime_gds/common/history/chrono.py:97-119 | Among distinct items a clear at a position keeps them so if and only if it is of that kind. |
| ChronoTheorems.NewInOrder | src/fprime_gds/common/history/chrono.py:45-119 | Over any run whose clears are of that kind the new items are a subsequence of the objects behind the cursor. |
| ChronoTheorems.ClearInsideTie | src/fprime_gds/common/history/chrono.py:110-116 | A run in which a clear by position between equal times leaves the cleared item among the new ones. |
| ChronoTheorems.NewExactlyOnce | src/fprime_gds/common/history/chrono.py:87-95 | Over arrivals and non-repeating retrieve_new calls, batches and waiting items together are a permutation of the accepted arrivals. |
| ChronoCursor.AcceptedPass | src/fprime_gds/common/history/chrono.py:45-57 | The accepted items of a run are the arrivals that pass the filter, in order. |
| ChronoCursor.CursorAtFirstNew | src/fprime_gds/common/history/chrono.py:45-119 | Over any run that clears only retrieved items, or everything, the cursor stands at the first new object, or behind all when none is new; so retrieve_new with repeats begins there. |
| Merger.Merger.constructor | src/fprime_gds/executables/dictionary_merge.py:106-114 | Nothing recorded yet. |
| Merger.Merger.Prefixes | src/fprime_gds/executables/dictionary_merge.py:236-249 | Both prefixes, with a missing or shared one recorded as an error once. |
| Merger.Merger.OutputName | src/fprime_gds/executables/dictionary_merge.py:251-255 | The prefixed name under namespace_all or after a rename, asking for the prefixes; the plain name otherwise. |
| Merger.Merger.Drop | src/fprime_gds/executables/dictionary_merge.py:225-234 | An error, or with prefer_primary a channel name recorded as shared or dropped. |
| Merger.Merger.Rename | src/fprime_gds/executables/dictionary_merge.py:208-213 | The name is renamed in both inputs and the prefixes are asked for. |
| Merger.Merger.NamesOf | src/fprime_gds/executables/dictionary_merge.py:175 | The name table, last entry wins. |
| Merger.Merger.IdsOf | src/fprime_gds/executables/dictionary_merge.py:176 | The id table, last entry wins. |
| Merger.Merger.MergeEntry | src/fprime_gds/executables/dictionary_merge.py:183-214 | For each verdict: kept or not, and what is recorded as renamed, shared, dropped or an error. |
| Merger.Merger.CollectKept | src/fprime_gds/executables/dictionary_merge.py:182-214 | The loop keeps exactly the staying entries and records exactly the section's renamed, shared and dropped names and its conflicts. |
| Merger.Merger.RenameSide | src/fprime_gds/executables/dictionary_merge.py:215-216 | Every entry of one side under its output name. |
| Merger.Merger.MergeEntries | src/fprime_gds/executables/dictionary_merge.py:169-223 | The merged section, and an error exactly when it has a lost conflict, a bad prefix in use or a name twice. |
| Merger.Merger.MergeByQualifiedName | src/fprime_gds/executables/dictionary_merge.py:155-167 | The primary's definitions and the secondary's under new names; an error exactly for a differing definition without prefer_primary. |
| Merger.Merger.MergeMetadata | src/fprime_gds/executables/dictionary_merge.py:136-153 | The primary's metadata under the new name; an error exactly for a bad name or, unless permissive, differing versions. |
| Merger.Merger.FollowNames | src/fprime_gds/executables/dictionary_merge.py:261-262 | Each channel name as the merged channels carry it. |
| Merger.Merger.RewritePackets | src/fprime_gds/executables/dictionary_merge.py:264-276 | Packets listing a dropped channel go, the others follow their names. |
| Merger.Merger.RewritePacketSet | src/fprime_gds/executables/dictionary_merge.py:257-278 | The rewritten set, and an error exactly when following its names needs a bad prefix. |
| Merger.Merger.RewriteAll | src/fprime_gds/executables/dictionary_merge.py:128-129 | All sets of one input. |
| Merger.Merger.CheckPacketSets | src/fprime_gds/executables/dictionary_merge.py:280-292 | Without earlier errors, an error exactly when some set names an unknown channel. |
| Merger.Merger.MergeIdSection | src/fprime_gds/executables/dictionary_merge.py:126-127 | One section merged, with the renames of earlier sections kept apart from its own. |
| Merger.Merger.MergeIdSections | src/fprime_gds/executables/dictionary_merge.py:126-127 | All six, with an error exactly when one fails. |
| Merger.Merger.MergePacketSets | src/fprime_gds/executables/dictionary_merge.py:128-130 | Both inputs' sets rewritten with the channels' tables and merged. |
| Merger.Merger.Merge | src/fprime_gds/executables/dictionary_merge.py:116-134 | The merged dictionary if and only if the merge does not fail, whichever way it can; an error is recorded exactly when nothing is returned. |
| Merger.FailsExactly | src/fprime_gds/executables/dictionary_merge.py:116-134 | The steps of the merge account for every way it can fail. |
| MergeTheorems.VerdictMeaning | src/fprime_gds/executables/dictionary_merge.py:183-202 | What each verdict says about ids, names and equality, without the tables. |
| MergeTheorems.MergedMembers | src/fprime_gds/executables/dictionary_merge.py:215-216 | A merged section holds the primary's entries and the staying ones, under their output names, and nothing else. |
| MergeTheorems.UnionDistinct | src/fprime_gds/executables/dictionary_merge.py:169-203 | No merged id-bearing section has an id twice. |
| MergeTheorems.MergeIsConservativeUnion | src/fprime_gds/executables/dictionary_merge.py:169-223 | On success ids and names are unique, every primary entry survives up to its output name, every secondary one that is identical or stays is there, and without prefer_primary the ids are the union of both inputs'. |
| MergeTheorems.DefinitionsUnited | src/fprime_gds/executables/dictionary_merge.py:155-167 | On success the primary's definitions all stay and win; without prefer_primary every definition of either input is there. |
| MergeTheorems.ChannelNameFollowed | src/fprime_gds/executables/dictionary_merge.py:257-262 | The rewritten name of a channel of either input denotes exactly its id in the merged channels. |
| MergeTheorems.MergePreservesReferences | src/fprime_gds/executables/dictionary_merge.py:257-292 | Every merged packet set is one of an input's with the same channels behind every name; every primary set is represented, and every secondary one unless prefer_primary with no_namespace drops it because a different primary set has its name. |
| Strings.LastSegmentMeaning | src/fprime_gds/executables/dictionary_merge.py:99 | The last segment has no dot, ends the name, and stands behind a dot unless it is all of it. |
| MergeNames.PrefixMeaning | src/fprime_gds/executables/dictionary_merge.py:97-100 | A prefix given and not empty is taken; otherwise the deployment name, or what stands behind its last dot, when that is an identifier. |
| MergeNames.DottedMeaning | src/fprime_gds/executables/dictionary_merge.py:24-25 | The names accepted for the merged deployment are exactly identifiers joined by dots. |
| MergeNames.SectionExactly | src/fprime_gds/executables/dictionary_merge.py:169-223 | For all options, from the two lists alone: a merged section holds every primary entry and every secondary one that is neither the primary's nor of an id it uses, unless dropped for its name; with prefix exactly when all names get one or a newcomer has the name of a primary entry and collisions are renamed. |
| MergeNames.CollisionPrefixed | src/fprime_gds/executables/dictionary_merge.py:202-216 | Two entries with one name and different ids both come out, as A.name and B.name. |
| MergeNames.UnpairedKeepsName | src/fprime_gds/executables/dictionary_merge.py:215-216 | An entry whose name no different entry of the other input has keeps it. |
| MergeNames.NamespaceAllPrefixes | src/fprime_gds/executables/dictionary_merge.py:251-255 | With namespace_all every primary entry comes out with its prefix, and every secondary one of a new id with its own. |
| MergeNames.ConflictIff | src/fprime_gds/executables/dictionary_merge.py:182-214 | For all options, a section has a conflict if and only if the primary is not preferred and some secondary entry differs from the primary's of its id, or of its name where names may not be prefixed. |
| MergeNames.PrefixAskedIff | src/fprime_gds/executables/dictionary_merge.py:208-216 | For all options, prefixes are asked for if and only if all names get one and there is a name, or some collision is renamed. |
| MergeNames.SuccessMeans | src/fprime_gds/executables/dictionary_merge.py:116-134 | Whenever a merge succeeds, no id-bearing entry has lost unless the primary is preferred, and a section with prefixed names has two different prefixes. |
| MergeOutcome.SectionFailsIff | src/fprime_gds/executables/dictionary_merge.py:182-223 | Under the default rules a section records an error if and only if an id stands for two entries, a name needs prefixes that are missing or equal, or two entries come out with one name. |
| MergeOutcome.DefaultMergeIff | src/fprime_gds/executables/dictionary_merge.py:116-134 | Under the default rules, well-formed inputs with distinct prefixes that begin none of their names merge if and only if a given name is dotted identifiers, the versions agree or need not, equal names mean equal definitions and equal ids equal entries, and every packet lists channels of either input; name collisions are no obstacle. |
| MergeOutcome.MetadataMerged | src/fprime_gds/executables/dictionary_merge.py:136-153 | The merged metadata are the primary's but for the name: the one given, a dotted identifier, or both names joined; without permissive the versions agreed. |
| MergeOutcome.ReferencesResolve | src/fprime_gds/executables/dictionary_merge.py:280-292 | Every channel a merged packet set mentions is a merged channel, whatever the options. |
| MergeOutcome.SectionKeepsOrder | src/fprime_gds/executables/dictionary_merge.py:182-216 | The merged section lists the primary's entries first and then those kept of the secondary, both in their order, changed in nothing but the name. |
| MergeOutcome.DefinitionsKeepOrder | src/fprime_gds/executables/dictionary_merge.py:158-167 | The primary's definitions in order, then exactly those of the secondary with other names, in theirs. |
| MergeOutcome.UnlostInOrder | src/fprime_gds/executables/dictionary_merge.py:264-276 | The packets kept are exactly those that list no dropped channel, in order and as often as before. |
| MergeOutcome.SurvivingInOrder | src/fprime_gds/executables/dictionary_merge.py:277 | The omitted names kept are exactly those not dropped, in order. |
| MergeSymmetry.HasConflictMeaning | src/fprime_gds/executables/dictionary_merge.py:183-214 | With default treatment, a section conflicts exactly when an id stands for two entries or, without namespacing, a name does. |
| MergeSymmetry.SectionSymmetric | src/fprime_gds/executables/dictionary_merge.py:169-223 | Both orders merge a section to the same entries. |
| MergeSymmetry.FailsBoth | src/fprime_gds/executables/dictionary_merge.py:116-134 | What fails in one order fails in the other. |
| MergeSymmetry.MergeIsSymmetric | src/fprime_gds/executables/dictionary_merge.py:116-134 | Without prefer_primary and namespace_all both orders succeed together and give the same entries, names, packet sets and definitions. |
| MergeSymmetry.NamespaceAllFollowsPrimary | src/fprime_gds/executables/dictionary_merge.py:251-255 | With namespace_all, on the id of any entry both inputs share the two orders agree if and only if the prefixes are equal. |
| MergeSymmetry.PreferPrimaryKeepsPrimary | src/fprime_gds/executables/dictionary_merge.py:225-234 | Of any id both inputs use the merged section has only the first input's entry, so the orders agree on it if and only if both entries come out the same; with prefer_primary that is no conflict. |
| TypeLoader.JsonLoader.constructor | src/fprime_gds/common/loaders/json_loader.py:45-57 | Any cache consistent with the definitions, over any registry that holds its parts, is a valid start. |
| TypeLoader.JsonLoader.Construct | src/fprime_gds/common/models/serialize/type_base.py:118-151 | A type is registered if and only if its name is free or already stands for an equal type; nothing registered ever changes. |
| TypeLoader.CoherentInTurn | src/fprime_gds/common/models/serialize/type_base.py:138-150 | Registering types one after the other succeeds exactly when all of them together can be registered. |
| TypeLoader.JsonLoader.ParseAll | src/fprime_gds/common/loaders/ch_json_loader.py:50-72 | A loader's loop gets through all references if and only if each denotes a type and the parts of all together can be registered; the order does not matter. |
| TypeLoader.JsonLoader.ParseType | src/fprime_gds/common/loaders/json_loader.py:87-123 | Whatever a consistent cache and the registry hold: when the reference denotes a type, it is found if and only if all its parts can be registered (no two, and none already registered, differ under one name), and then exactly they are; otherwise the denotation's failure or a registry failure; the cache stays consistent and only grows; recursion ends by definition rank. |
| TypeLoader.JsonLoader.ParseTypeDefinition | src/fprime_gds/common/loaders/json_loader.py:125-171 | The same for a definition; aliases are followed and not cached. |
| TypeLoader.JsonLoader.ConstructEnum | src/fprime_gds/common/models/serialize/enum_type.py:43-69 | Values by name, the default without its qualifier; an unknown or non-integer representation, a default outside the constants and a value out of range are refused, and so is a name registered otherwise. |
| TypeLoader.JsonLoader.ConstructArray | src/fprime_gds/common/loaders/json_loader.py:199-222 | The element first, then the array, found if and only if the registry admits both. |
| TypeLoader.JsonLoader.ConstructSerializable | src/fprime_gds/common/loaders/json_loader.py:224-275 | Members are resolved in file order, the first failure or repeated index stops, fields are laid out by index, and the result is the denotation if and only if the registry admits all parts. |
| TypeLoader.JsonLoader.MemberType | src/fprime_gds/common/loaders/json_loader.py:243-256 | A member with a size is an inline array named after its element and size. |
| TypeLoader.MemberAdded | src/fprime_gds/common/loaders/json_loader.py:243-266 | One more member: the first failure, or one more field under its index. |
| TypeLoader.FailureStops | src/fprime_gds/common/loaders/json_loader.py:243-266 | A failure among the first members is the failure of all. |
| TypeLayout.MembersMeaning | src/fprime_gds/common/loaders/json_loader.py:242-272 | A struct denotes a type if and only if all its members' types do and no index repeats, and then each index holds its own member's field. Whether the registry admits it is another matter. |
| TypeLayout.FieldsInIndexOrder | src/fprime_gds/common/loaders/json_loader.py:239-275 | A struct that denotes a type has as many fields as members, each member's field with its name, format, annotation and type at a place of its own, and of two members the one of smaller index stands first; indices are distinct. |
| TypeLayout.AliasMeans | src/fprime_gds/common/loaders/json_loader.py:157-158 | An alias denotes what it stands for. |
| TypeLayout.ArrayMeans | src/fprime_gds/common/loaders/json_loader.py:199-222 | An array has its definition's name, size and default and its element's type and format, and exists exactly when the element does. |
| TypeLayout.EnumExistsIff | src/fprime_gds/common/loaders/json_loader.py:173-197 | An enum denotes a type if and only if its representation is one of the eight integer types and holds the last value given to each constant, and its default is a constant. |
| TypeLayout.EnumMeans | src/fprime_gds/common/loaders/json_loader.py:173-197 | It has its name, representation, default and the last value given to each constant. |
| TypeLayout.DenotationIgnoresMemberOrder | src/fprime_gds/common/loaders/json_loader.py:239-273 | Dictionaries that differ only in the order of struct members denote the same for every reference. |
| TypeRegistry.InlineFormatsIff | src/fprime_gds/common/loaders/json_loader.py:248-256 | Two inline arrays of one element type and size can both be registered if and only if each can and their formats are the same. |
| TypeRegistry.InlineNamesIff | src/fprime_gds/common/loaders/json_loader.py:248-256 | Inline arrays of one element type share a registered name if and only if they share a size. |
| TypeRegistry.StringNamesIff | src/fprime_gds/common/models/serialize/type_base.py:118-151 | String types share a registered name if and only if they share a length. |
| TypeRegistry.FormatsClash | src/fprime_gds/common/loaders/json_loader.py:248-256 | Two such members with different formats anywhere in a dictionary keep the structs that hold them from both being resolved, whatever is registered. |
| SequenceSearch.SequenceSearcher.IncrementalSearch | src/fprime_gds/common/testing_fw/api.py:1464-1474 | The open predicate advances on a matching item; done exactly when the greedy search has used all. |
| SequenceSearch.SequenceSearcher.SearchCurrentHistory | src/fprime_gds/common/testing_fw/api.py:1456-1462 | Succeeds if and only if some increasing choice of items satisfies the predicates in order; the items kept are such a choice for the longest prefix that has one. |
| SequenceSearch.EmbeddingBounded | src/fprime_gds/common/testing_fw/api.py:1456-1474 | No choice of items satisfies more predicates than the greedy search. |
| SequenceSearch.GreedyEmbeds | src/fprime_gds/common/testing_fw/api.py:1456-1474 | The items kept are themselves such a choice. |
| SequenceSearch.GreedyIsComplete | src/fprime_gds/common/testing_fw/api.py:1456-1474 | The first k predicates can be satisfied in order if and only if the greedy search uses at least k. |

## Left out

- Threads, sockets, ZeroMQ, queues that fill up, logging and the wall clock: reads, write outcomes, echoes, timer firings and times are inputs or steps; a timer fires only while armed.
- CRC32: any function to a 32-bit word stands for it.
- Updown.Uplinker.Uplink: one packet of the loop; the filter on empty packets and the OSError on shutdown are not modelled.
- Distribution.Distributor.ParseIntoRawMsgs: without a key frame only; with one, the key is consumed before the message is known to be complete.
- Distribution.Distributor.Register: decoders are handles; what a decoder does with a payload is modelled for the file decoder only.
- FilePackets.DecodeUndoesEncode: paths are their encoded bytes; paths that cannot be decoded as text are not modelled.
- UplinkProtocol.EncodableIff: the size recorded when the file was enqueued is its length when it is read.
- Uplink.FileUplinker.Start: errors of the file system other than a missing source are not modelled; the initial empty list of expected bytes, which equals no bytes, is None.
- Uplink.FileUplinker.DataCallback: the cooldown sleep; a repeated END echo after the end raises an assertion and changes nothing, as in the code.
- Uplink.FileUplinker.Timeout: a timeout while waiting for the last handshake fails on the second removal of the source, so the semaphore is not released; at most one release is claimed, not at least one.
- `send_cancel_packet`, `cancel_remove`, `UplinkQueue.remove` (which drops the head after a full rotation) and `exit`.
- UplinkQueue.UplinkMutualExclusion: steps are atomic at the granularity of the calls shown; one user pauses and unpauses; whether a source is still there is fixed when it is enqueued.
- Downlink.FileDownlinker.DataCallback: sequence-number and gap warnings, the seek value they use, and log files; when the timer runs; how opening a destination ends is a parameter of each START.
- `TransmitFile.percent`, start and end times and the JSON view of file lists.
- SessionHistory.History.Retrieve: the four layers of the inheritance chain are methods of one class, since overriding needs traits; locks are not modelled.
- SessionDelivery.ExactlyOnceDelivery: for runs without negative limits, since the property is false otherwise (SessionDelivery.RunDeliversIff, SessionDelivery.NegativeLimitRepeats).
- `RamHistory.retrieve_new`, `sessions` and `size`.
- ChronoTheorems.NewInOrder: for runs whose clears are clean, since a clear by position can leave cleared items among the new ones (ChronoTheorems.CleanCutIff, ChronoTheorems.ClearInsideTie).
- Merger.Merger.Merge: typed inputs; JSON of the wrong shape, which `validate` reports, cannot be expressed, and null member lists read as empty. Warnings and message texts, library versions and unknown top-level keys are not modelled.
- `namespace_prefix` with non-ASCII word characters: identifiers are ASCII.
- MergeOutcome.DefaultMergeIff: for inputs none of whose names begins with a prefix; MergeOutcome.SectionFailsIff says, for any names, when a section fails.
- ChronoCursor.CursorAtFirstNew: not for clears of items not yet retrieved, which leave the cursor at 0.
- MergeSymmetry.MergeIsSymmetric: not for `prefer_primary` and `namespace_all`, for which it is false (MergeSymmetry.PreferPrimaryKeepsPrimary, MergeSymmetry.NamespaceAllFollowsPrimary).
- TypeLoader.JsonLoader.ParseType: acyclic definitions with unique names; cyclic ones exhaust the interpreter's stack. Format strings are as preprocessing leaves them. Types other than this loader's are in the registry it starts with.
- SequenceSearch.SequenceSearcher.SearchCurrentHistory: the current history; waiting for more items only repeats the incremental step.
