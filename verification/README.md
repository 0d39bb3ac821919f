# mochad-redux: a verified model of the daemon's core

mochad-redux connects TCP clients to an X10 controller on USB, a CM15A (power line and RF) or a CM19A (RF only).
This project models what happens between the sockets and the USB transfers, and proves what the daemon is relied
on for. libusb, the sockets and the clocks are inputs: a result of a submission, the callbacks and their status, the
answers of `send`, the time. They are unconstrained, so a theorem holds for everything the outside can do.

* **Transmit engine** (`TransmitSpec`, `TransmitEngine`, `TransmitRuns`, `TransmitCases`, `TransmitProgress`). The 256-slot packet
  ring of `src/usb/x10_write.c` and the transfer flags of `src/core/mochad.c` as classes, proved to refine a first-in
  first-out queue with one transfer in flight. Over every run: no packet is lost, duplicated, reordered or altered;
  submissions are paced by completions and acknowledgements; the line is idle exactly when no deadline is set;
  while libusb answers NOT_FOUND to a cancel only when it owes no callback, shutdown frees no transfer it still uses;
  the queue can drain exactly when no event took the transfer away; while submissions work, an acknowledgement is
  credited to its own command exactly unless a time-out and a completion came before it and there was another packet,
  waiting or written meanwhile, for them to release.
* **Client output** (`QueueSpec`, `OutputQueue`, `ClientTables`, `ClientRuns`, `PollArray`, `SocketIo`,
  `PollTimeout`). Byte rings with partial writes, the three client tables and their counters, a broadcast that may
  delete clients as it goes, conservation of each client's stream over any mix of operations, client ids that stay
  distinct until the 32-bit counter wraps, the poll array.
* **Duplicate filter** (`DupFilter`). A 16-entry expiring cache, proved against the unbounded record of when each
  frame was last accepted.
* **Device and sensor state** (`DeviceState`, `SensorTable`). The tables as functions of the whole event history,
  and those functions characterised without reference to the tables.
* **Commands and frames** (`Framing`, `CommandText`, `Codec`, `Encoders`, `CommandPath`, `CommandTheorems`,
  `SpelledCommands`, `BridgeTheorems`, `RfTheorems`, `RfText`, `OtherCommands`, `Receiving`). From a client's bytes
  to lines, words, frames and events: independence from how the stream is cut, round trips from any spelling of a
  command to the events announced and the bytes sent, the mutual recursion of the RF-to-power-line bridge with its
  bounds, and the agreement of what one daemon sends with what another hears.
* **The protocol itself** (`CommandWords`, `PlPackets`, `RfPackets`, `Directions`). Word by word and byte by byte, in
  the numbers of the X10 protocol and without the tables of the code: what each word of a command sends, announces
  and records, what each received packet means, which ones mean nothing, and which events are reported as received.
* **The whole state** (`Effects`, `FilterQueries`, `StatusQueries`, `Daemon`, `MainLoop`). Lines, packets and USB
  events in any interleaving on the filter, tables, sensor table and transmit engine together; that USB events reach
  nothing but the wire; the answers to status queries; a client's reads carried out as the lines of its stream, and
  every event told to every main and XML client in order, whatever else happens to them.
* `EndpointSelection`: the search of a USB configuration for its two interrupt endpoints (descriptor fields as in
  section 9.6.6 of the USB 2.0 specification).

Commands and packets are modelled as the list of actions they cause, in order; `Daemon` carries such a list out on
the mutable state. The classes keep the fields of the source and each method is proved against a function of the
old state.

## Where the code and its documentation differ

`docs/architecture/architecture.md:78-79` says that an overlong command is discarded until the next line delimiter.
The loop (`src/x10/encode.c:959-966`) keeps 79 bytes and starts discarding at the byte after them whatever it is, so a
line of exactly 79 bytes has its own delimiter discarded and takes the next line with it. The model follows the code.
`Framing.DocumentedExactlyWhenNothingIsLost` says on which streams the documented rule holds, and
`Framing.LineAfterSeventyNineBytesIsLost` gives one where it does not.

## What does not always hold, and when it does

* An ACK may be credited to a later command, whether packets were waiting when its own was submitted
  (`TransmitProgress.LateAckIsCreditedToTheNextCommand`) or the line had fallen idle in between
  (`TransmitProgress.LateAckAfterIdleReleasesThePacketBehind`); `TransmitProgress.AckIsCreditedExactlyWhen` gives the
  condition.
* Shutdown may free a transfer libusb still uses, after a cancel answered NOT_FOUND with the callback still owed
  (`TransmitRuns.EarlyNotFoundFreesPending`); `TransmitRuns.FreeHitsPendingExactlyWhenOrphaned` gives the condition.
* The queue cannot drain after a cancel that finds no transfer, or after a free
  (`TransmitProgress.CancelledLineIsStuck`); `TransmitProgress.WaitingPacketsCanBeSentExactlyWhen` gives the condition.
* Device status does not depend on the RF-to-power-line bridge, but the selected units may
  (`RfTheorems.LaterCommandsMayDiffer`); `RfTheorems.BridgeKeepsTables` gives the condition.
* Sensors are kept by address alone, so an 8-bit and a 24-bit sensor with the same number share one record
  (`SensorTable.OtherWidthIsNotAnswered`); `SensorTable.AnsweredExactlyForTheFirstWidth` says which one is answered.
  511 of the 512 slots are used.

## Model

| member | source | states |
|---|---|---|
| `TransmitEngine.RingLimits` | src/usb/x10_write.c:42-58 | The ring is empty exactly when head meets tail, never holds more than 255 packets, and is full exactly when the next tail slot is the head |
| `TransmitEngine.RingPush` | src/usb/x10_write.c:46-66 | Filling the slot after the tail appends one packet to the queue and disturbs none that wait, through any wrap-around |
| `TransmitEngine.RingPop` | src/usb/x10_write.c:76-89 | The slot after the head holds the oldest packet, and advancing the head removes exactly that one |
| `TransmitEngine.PacketRing.Add` | src/usb/x10_write.c:46-66 | A packet is refused exactly when it exceeds 8 bytes or 255 wait; otherwise it is queued last, byte for byte |
| `TransmitEngine.PacketRing.Next` | src/usb/x10_write.c:81-83 | The record offered to USB is the oldest queued packet and stays queued |
| `TransmitEngine.PacketRing.Advance` | src/usb/x10_write.c:89 | Only the oldest packet leaves the queue |
| `TransmitEngine.TransmitEngine.constructor` | src/core/mochad.c:130-136 | Transfers idle, nothing queued, no deadline: the initial state of every run |
| `TransmitEngine.TransmitEngine.WriteUsb` | src/core/mochad.c:1502-1541 | Ring and flags change as the abstract machine's submission does, for any answer of libusb, including the -ENODEV, -EBUSY and -EINVAL refusals |
| `TransmitEngine.TransmitEngine.SendNextX10Out` | src/usb/x10_write.c:68-92 | A successful submission takes the oldest packet out of the queue, a failed one leaves it queued with the deadline armed, an empty queue ends the busy period |
| `TransmitEngine.TransmitEngine.X10Write` | src/usb/x10_write.c:94-116 | An idle line submits at once, a busy line queues, and a failed direct submission leaves the line idle; new state and return value are those of the abstract machine |
| `TransmitEngine.TransmitEngine.MaybeFinishX10Transmit` | src/core/mochad.c:284-307 | A CM19A advances on completion alone, a CM15A only with an ACK or time-out as well, consuming both flags |
| `TransmitEngine.TransmitEngine.IntrOutCb` | src/core/mochad.c:1371-1393 | Each status of the OUT callback refines the abstract step; only a completed transfer may release the next packet and only a failed one ends the daemon |
| `TransmitEngine.TransmitEngine.IntrInCb` | src/core/mochad.c:1395-1455 | Each status of the IN callback refines the abstract step; a one-byte 0x55 is the only acknowledgement; the writes of decoding a packet come after it and before the test for exiting and the resubmission |
| `TransmitEngine.TransmitEngine.PollDeadline` | src/core/mochad.c:1894-1901 | A poll time-out counts as a verdict for the command in flight and may release the next one |
| `TransmitEngine.TransmitEngine.CancelOutput` | src/core/mochad.c:1164-1187 | NOT_FOUND makes the transfer inactive, another error leaves it as it was, success marks it as being cancelled |
| `TransmitEngine.TransmitEngine.FreeTransfers` | src/core/mochad.c:1214-1227 | A transfer is released only when it is neither submitted nor being cancelled |
| `TransmitEngine.TransmitEngine.DrainCancelled` | src/core/mochad.c:1189-1212 | The bounded drain loop computes the abstract drain, state and return code, for any callbacks, writes made inside them, signals and interruptions |
| `TransmitEngine.TransmitEngine.Perform` | src/core/mochad.c:1371-1541 | Every step of the imperative engine is the step of the abstract queue machine |
| `TransmitEngine.TransmitEngine.PerformAll` | src/core/mochad.c:1371-1541 | Refinement over every interleaving of writes, callbacks, time-outs and cancellations |
| `TransmitSpec.StepKeepsInv` | src/core/mochad.c:284-307 | Every step keeps queue conservation, busy-if-deadline, and the link between flags and the outstanding transfer |
| `TransmitRuns.FifoOverEveryRun` | src/usb/x10_write.c:38-116 | Over every run, packets submitted followed by packets queued are exactly the accepted packets in order: no loss, duplication, reordering or corruption |
| `TransmitRuns.WriteRefusedExactlyWhen` | src/usb/x10_write.c:94-116 | A write is refused if and only if it exceeds 8 bytes, the busy queue holds 255, or an idle direct submission fails; a refusal changes neither queue nor wire |
| `TransmitCases.ReleasedExactlyWhen` | src/core/mochad.c:284-307 | Any event but a write submits the oldest waiting packet if and only if it is a completed OUT callback with the CM15A verdict in, a completed input of exactly 0x55 or a time-out after the transfer came back, one is waiting, and libusb takes it; with none waiting it ends the busy period |
| `TransmitCases.OnlyTheAckByteCounts` | src/core/mochad.c:1421-1431 | Of all a controller sends, the single byte 0x55 alone is an acknowledgement; any other data leaves the line as it was |
| `TransmitCases.APacketIsNoAck` | src/core/mochad.c:1421-1431 | A power-line packet received while a command waits for its ACK releases nothing, and 0x55 releases the next command |
| `TransmitCases.ExitsExactlyWhen` | src/core/mochad.c:1371-1455 | Over any run the daemon is told to exit exactly by a failed transfer, an input transfer that cannot be submitted again, or a signal |
| `TransmitCases.ListensUntilItExits` | src/core/mochad.c:1443-1455 | Until then, and unless it is cancelled or freed, the input transfer is always submitted |
| `TransmitCases.CancelledThenFreed` | src/core/mochad.c:1164-1227 | Only a cancel answered -5 makes an active transfer free to go before its callback |
| `TransmitCases.DrainEndsAtTheFirstError` | src/core/mochad.c:1189-1212 | Each call of the event handler counts, interruptions included, and the first other error is the answer of the drain |
| `TransmitRuns.SingleTransferInFlight` | src/core/mochad.c:1502-1541 | In every reachable state at most one OUT transfer is outstanding, its buffer still holds the submitted bytes, and the -EBUSY branch has never been taken |
| `TransmitRuns.IdleExactlyWhenNoDeadline` | src/usb/x10_write.c:68-116 | Outbusy holds exactly when PollTimeOut is 2000, and an idle line has an empty ring and no transfer in flight |
| `TransmitRuns.FreeHitsPendingExactlyWhenOrphaned` | src/core/mochad.c:1214-1227 | In any run, freeing a transfer would release one libusb still uses if and only if a cancel of it was answered NOT_FOUND with the callback still owed and that callback has not come since |
| `TransmitRuns.OrphanedExactlyWhen` | src/core/mochad.c:1164-1187 | The same for each transfer from any sound state, by the event of the run that caused it |
| `TransmitRuns.OrphansNeedAnEarlyNotFound` | src/core/mochad.c:1172-1177 | While NOT_FOUND is only answered when no callback is owed, no reachable state has such a transfer |
| `TransmitRuns.FreedTransfersAreIdle` | src/core/mochad.c:1214-1227 | Under that assumption no outstanding transfer is freed in any run |
| `TransmitRuns.EarlyNotFoundFreesPending` | src/core/mochad.c:1172-1177 | The assumption is needed: a concrete run frees the OUT transfer while its callback is owed |
| `TransmitRuns.DrainedMeansIdle` | src/core/mochad.c:1189-1212 | Draining, with any callbacks and the writes made inside them, keeps every invariant and reports success only when neither transfer is active |
| `TransmitRuns.ShutdownFreesOnlyIdleTransfers` | src/core/mochad.c:1991-2014 | After any run in which NOT_FOUND means that no callback will come, cancel, drain and free together release exactly the inactive transfers, none of them outstanding, and both when the drain succeeds |
| `TransmitRuns.PacingAfterSubmission` | src/core/mochad.c:284-307 | After any submission each further one costs one OUT callback and, on a CM15A, one more ACK or time-out heard since, however stale or early they are |
| `TransmitRuns.PacingOverEveryRun` | src/core/mochad.c:284-307 | Submissions never exceed one plus callbacks and, on a CM15A, one plus ACKs plus time-outs |
| `TransmitProgress.ProductiveStepsDescend` | src/core/mochad.c:284-307 | Every completion, ACK or time-out a busy line waits for strictly decreases a measure on queue and phase and keeps the packets in order |
| `TransmitProgress.ProductiveRunsAreShort` | src/core/mochad.c:284-307 | From every state reached without a stopping event, no interleaving of such steps is longer than the measure it uses up |
| `TransmitProgress.BusyStatesCanMove` | src/core/mochad.c:1894-1901 | No busy state reached without a stopping event is stuck: its next productive event is possible and descends |
| `TransmitProgress.QueueDrains` | src/usb/x10_write.c:68-92 | From every state reached without a stopping event some run of completions and time-outs, within the measure and with no new writes, empties the queue onto the wire in order and leaves the line idle |
| `TransmitProgress.StepKeepsLiveExactlyWhen` | src/core/mochad.c:1164-1227 | A line stays able to proceed exactly when the step is neither a cancel of the active transfer answered NOT_FOUND with no callback to come nor a free of the inactive transfer |
| `TransmitProgress.LiveExactlyWhenUndisturbed` | src/core/mochad.c:1164-1227 | Over a whole run the line is still able to proceed exactly when no such event was in it |
| `TransmitProgress.DeadLinesSubmitNothing` | src/core/mochad.c:284-307 | After such an event nothing is ever submitted again, and a busy line whose callback was lost stays busy in every run |
| `TransmitProgress.WaitingPacketsCanBeSentExactlyWhen` | src/usb/x10_write.c:68-92 | In every reachable state with packets waiting, some continuation sends them if and only if the run so far had no such event |
| `TransmitProgress.CancelledLineIsStuck` | src/core/mochad.c:1172-1177 | It can happen: a write and a cancel answered NOT_FOUND leave the line busy for good |
| `TransmitProgress.AckIsCreditedExactlyWhen` | src/core/mochad.c:1421-1426 | From any submission on a CM15A, over any run without ACKs, cancels, frees and failing submissions, the next ACK is credited to that command if and only if the run lacks what releases a packet (a time-out before the completion, or a callback before a time-out) or any packet to release, waiting at the submission or written in the run |
| `TransmitProgress.EitherOrderReleases` | src/core/mochad.c:1371-1393 | When transfers only complete, that condition is: not both a completion and a time-out, in whichever order |
| `TransmitProgress.LateAckIsCreditedToTheNextCommand` | src/core/mochad.c:1421-1425 | A run on which it fails with packets waiting: after a time-out the late ACK releases the command behind the next one |
| `TransmitProgress.LateAckAfterIdleReleasesThePacketBehind` | src/core/mochad.c:1421-1425 | A run on which it fails with nothing waiting: the line falls idle, and the late ACK releases the packet behind a later command |
| `OutputQueue.RingAppend` | src/core/mochad.c:170-188 | The two-part copy appends the bytes after those queued, across the wrap |
| `OutputQueue.RingDrop` | src/core/mochad.c:206-216 | Moving the head drops exactly that many of the oldest bytes |
| `OutputQueue.ClientOutputQueue.Enqueue` | src/core/mochad.c:170-188 | All or nothing: refused exactly when the bytes do not fit 16 KiB, otherwise queued whole and in order; nothing else changes |
| `OutputQueue.ClientOutputQueue.Peek` | src/core/mochad.c:190-204 | The chunk offered to send is a prefix of the queue, empty only for an empty queue |
| `OutputQueue.ClientOutputQueue.ConsumeFront` | src/core/mochad.c:206-216 | Exactly the sent prefix moves from the queue to the delivered bytes, and an emptied queue is no longer stalled |
| `OutputQueue.ClientOutputQueue.Init` | src/core/mochad.c:160-164 | A new client starts with an empty queue and history |
| `OutputQueue.ClientOutputQueue.FlushTo` | src/core/mochad.c:723-762 | The loop on the ring computes the flush of the queue value: the queue left, how it ended, the budget left and the answers read |
| `OutputQueue.ClientOutputQueue.Serve` | src/core/mochad.c:699-762 | Over any sequence of sends and writable sockets the client stays connected up to, and is disconnected at, the first send that does not fit or flush that reads an error; the socket has a prefix of everything sent, and while connected the rest is exactly what is queued |
| `OutputQueue.ClientOutputQueue.ServeOne` | src/core/mochad.c:699-762 | One operation leaves the queue value it should, and the client survives it exactly when the bytes fit and the flush reads no error |
| `QueueSpec.FlushMeans` | src/core/mochad.c:723-762 | For any socket, bytes go out in order and none is lost; a flush disconnects exactly when it reads an error; only a refusal marks a stall; each call of send delivers a byte, is interrupted or ends the loop |
| `QueueSpec.BudgetNeverEndsAFlush` | src/core/mochad.c:1947-1956 | The 64 KiB budget of a loop turn never ends a flush |
| `QueueSpec.AfterKeepsSound` | src/core/mochad.c:699-762 | Accepted bytes are always those delivered followed by those queued, and only a non-empty queue is stalled |
| `QueueSpec.StreamIsConserved` | src/core/mochad.c:699-762 | While no operation disconnects, what was sent is what the socket took and what is queued, in order |
| `ClientTables.OccupiedAfterPut` | src/core/mochad.c:554-582 | Changing one slot changes the count of occupied slots by exactly that slot |
| `ClientTables.PutKeepsSlots` | src/core/mochad.c:554-582 | Distinct descriptors and well-formed slots survive any permitted slot change |
| `ClientTables.PutKeepsIds` | src/core/mochad.c:531-535 | Live ids stay distinct and below the counter when a slot gets the next one |
| `ClientTables.LiveEntriesMatchCounts` | src/core/mochad.c:860-880 | The entries copied to the poll array number exactly the sum of the three counters |
| `ClientTables.XmlLine` | src/core/mochad.c:463-468 | An XML client is sent the bytes of the line, but NUL for a final newline |
| `ClientTables.LiveEntriesExactly` | src/core/mochad.c:1846-1873 | A record is in the poll array exactly when it is that of a live client of one of the tables, polled for output exactly while bytes are queued for it |
| `ClientTables.ClientTables.constructor` | src/core/mochad.c:537-552 | All slots free and all counters zero |
| `ClientTables.ClientTables.NextClientId` | src/core/mochad.c:531-535 | Ids are never zero, also when the 32-bit counter wraps |
| `ClientTables.ClientTables.AddClient` | src/core/mochad.c:554-644 | The client takes the first free slot of its table with an empty queue and, until the counter has wrapped, the next id, so that live ids stay distinct; refused exactly when the table is full or the descriptor cannot be made non-blocking, and then nothing changes |
| `ClientTables.ClientTables.DelClient` | src/core/mochad.c:810-857 | Frees exactly the slot of the descriptor, and changes nothing for an unknown one; counters keep matching |
| `ClientTables.ClientTables.FindFd` | src/core/mochad.c:674-686 | The slot-by-slot search finds a live descriptor in whichever table holds it, and fails only when none does |
| `ClientTables.ClientTables.QueueClientBytes` | src/core/mochad.c:699-721 | The bytes are queued whole or that client, and no other, is disconnected; a descriptor in no table gets them by the blocking send, a prefix in order |
| `ClientTables.ClientTables.SendTo` | src/core/mochad.c:445-451 | One line to one client, an XML client getting NUL for the final newline; a descriptor of no client is served by the blocking send |
| `ClientTables.ClientTables.FlushClient` | src/core/mochad.c:1947-1957 | The writable client's queue is flushed as its ring would be, marking or clearing its stall, or that client is disconnected on an error; no other slot changes |
| `ClientTables.ClientTables.Broadcast` | src/core/mochad.c:453-480 | Although clients may be deleted during the walk, each slot ends as if served alone: a main client has the line behind its queue, an XML client the same bytes with NUL for the final newline, an OpenRemote client nothing, and who has no room for it is gone |
| `ClientTables.ClientTables.DisconnectStalledClients` | src/core/mochad.c:764-794 | Exactly the clients stalled for at least 30 seconds with output waiting are disconnected |
| `ClientTables.ClientTables.CopyClients` | src/core/mochad.c:860-880 | Writes exactly the live clients, in slot order, and touches nothing outside that range |
| `ClientTables.ClientTables.BuildPollSet` | src/core/mochad.c:1846-1873 | The poll array is listeners, USB descriptors and live clients, always within the grown array |
| `ClientRuns.DroppedExactlyWhen` | src/core/mochad.c:699-794 | A client is dropped exactly by bytes that do not fit, an error of its socket, a stall of thirty seconds, or its deletion |
| `ClientRuns.StalledClientIsDropped` | src/core/mochad.c:744-794 | A socket that blocks with output waiting costs its client the connection exactly from thirty seconds on |
| `ClientRuns.StallLastsUntilAByteIsTaken` | src/core/mochad.c:723-794 | Whatever else happens, a stalled client whose socket takes nothing keeps the time its stall began, and the first check thirty seconds or more after it, and none earlier, drops it |
| `ClientRuns.ClientStreamIsConserved` | src/core/mochad.c:418-481 | Over any mix of table operations a client that stays connected keeps descriptor and id, and what its socket took and what is queued are exactly the lines addressed to it in its form, in order |
| `ClientRuns.EveryBroadcastIsHeard` | src/core/mochad.c:443-480 | Every line sent to all clients is among the messages of each main and XML client that stays connected, in its form and in order, and is all of them when nothing is sent to it alone; what it received and what is queued for it are exactly these messages |
| `ClientRuns.Perform` | src/core/mochad.c:418-857 | Every table operation does to each live client exactly that step |
| `ClientRuns.PerformAll` | src/core/mochad.c:418-857 | So does any sequence of them, to every client that survives it; and while the accepted clients cannot have exhausted the 32-bit counter, the ids of the live clients are distinct and below it |
| `PollArray.EnsureCapacity` | src/core/mochad.c:1229-1250 | Growing makes room, keeps what the array held and stays below twice the need; failure leaves the array alone |
| `PollArray.WithoutAt` | src/core/mochad.c:1267-1283 | Removal takes out the first record of a descriptor and shifts the rest, or changes nothing |
| `PollArray.RemoveUndoesAdd` | src/core/mochad.c:1252-1283 | Adding a new descriptor and removing it gives back the same records |
| `PollArray.RemovedIsGone` | src/core/mochad.c:1267-1283 | From distinct descriptors exactly one record goes, and the rest stay distinct |
| `PollArray.UsbPollFds.Add` | src/core/mochad.c:1252-1265 | The record is appended, or the allocation error is remembered and nothing changes |
| `PollArray.UsbPollFds.Remove` | src/core/mochad.c:1267-1283 | The moved array holds the records without the first one of that descriptor |
| `SocketIo.SendAll` | src/net/socket_io.c:21-52 | For any sender the bytes taken are a prefix in order; success means the whole buffer; failure means an oversize length, a zero write or an error other than EINTR |
| `SocketIo.SendAllTerminates` | src/net/socket_io.c:30-51 | Finitely many interruptions suffice for the loop to end |
| `PollTimeout.TimevalToTimeoutMs` | src/core/mochad.c:1335-1350 | For non-negative times the result is the smaller of INT_MAX and the total rounded up to milliseconds, with no overflow in any C type on the way |
| `PollTimeout.CeilMsRoundsUp` | src/core/mochad.c:1345 | The rounded total is the least number of milliseconds not below the exact time |
| `PollTimeout.CombinedIsMinimum` | src/core/mochad.c:1352-1365 | The combined wait ends by a given time exactly when the ACK deadline or libusb's does, -1 being no deadline |
| `DupFilter.SweepKeepsInv` | src/x10/decode.c:723-748 | Marking expired entries unused forgets no frame that is still fresh |
| `DupFilter.StoreKeepsInv` | src/x10/decode.c:755-773 | Storing a frame keeps entries distinct and forgets at most one displaced by 16 others |
| `DupFilter.VictimIsDisplaced` | src/x10/decode.c:757-768 | Evicting the entry closest to expiring leaves at least 16 frames accepted no earlier than it |
| `DupFilter.HitIsAmongTheNewest` | src/x10/decode.c:726-738 | A frame found fresh has fewer than 16 frames accepted after it |
| `DupFilter.DupFilter.Filter` | src/x10/decode.c:707-775 | Against the unbounded record: a duplicate was accepted at most 650 ms ago, and a frame accepted at most 650 ms ago with fewer than 16 others since is always a duplicate |
| `DupFilter.DupFilter.Scan` | src/x10/decode.c:723-748 | Finds the frame if cached, sweeps the expired entries before it, and names the first unused one |
| `DupFilter.DupFilter.ClosestToExpiring` | src/x10/decode.c:757-768 | The eviction index has a minimal expiry |
| `DeviceState.SelectedIsLatestRun` | src/x10/x10state.c:114-140 | A unit is selected exactly when an address in the most recent unbroken run, or the last xdim, named it |
| `DeviceState.ClosedMeansNoAddressSince` | src/x10/x10state.c:126-140 | An address group is closed exactly when on, off, all or xdim came and no address since |
| `DeviceState.StateIsLastCoveringEvent` | src/x10/x10state.c:114-179 | Status and brightness of each unit are fixed by the last event that covers it, and unknown without one |
| `DeviceState.OnExactlyWhenLit` | src/x10/x10state.c:114-179 | Status is '1' if and only if the dim level is non-zero |
| `DeviceState.HousesAreIndependent` | src/x10/x10state.c:106-179 | Events on one house never change another |
| `DeviceState.DeviceTables.SecInit` | src/x10/x10state.c:64-75 | The tables stand for the history that ends with a reset |
| `DeviceState.DeviceTables.Add` | src/x10/x10state.c:126-140 | The tables stand for the history with the address added |
| `DeviceState.DeviceTables.SetStatusXdim` | src/x10/x10state.c:114-124 | The tables stand for the history with the xdim added |
| `DeviceState.DeviceTables.FuncAll` | src/x10/x10state.c:142-158 | The tables stand for the history with the all-units function added |
| `DeviceState.DeviceTables.FuncSelected` | src/x10/x10state.c:160-179 | The tables stand for the history with the function on the selected units added |
| `DeviceState.DeviceTables.SetUnits` | src/x10/x10state.c:160-179 | Exactly the selected units, or all of the house, get the state and the full or zero level |
| `DeviceState.DeviceTables.GetStatus` | src/x10/x10state.c:110-112 | The queries answer from the history alone |
| `SensorTable.KnownIsLatest` | src/x10/x10state.c:77-104 | At most 511 sensors; a known one carries its latest reading; one seen since the reset is unknown only when the table is full |
| `SensorTable.KnownExactlyWhen` | src/x10/x10state.c:77-104 | A sensor is known if and only if an event since the last reset met it unknown with fewer than 511 known, and it answers to that event's address width |
| `SensorTable.AnsweredExactlyForTheFirstWidth` | src/x10/x10state.c:181-218 | A query is answered from the latest reading if and only if the event that made the address known had the width asked for, and with -1 otherwise |
| `SensorTable.AnswersExactly` | src/x10/x10state.c:181-218 | The answer is 1 if and only if the sensor is asked for in the width of its first event and its latest status is 04, or for 24 bits one of 00, 01, 04, 05, 0C, 0D; it is 0 for the same statuses with the top bit set |
| `SensorTable.OtherWidthIsNotAnswered` | src/x10/x10state.c:86-91 | A log on which a sensor in alert gets no answer for its own width, because one of the other width and the same number came first |
| `SensorTable.RearrangingKeepsTheMap` | src/x10/x10state.c:274 | No rearrangement of the records changes any answer |
| `SensorTable.CompareIsAddressOrder` | src/x10/x10state.c:220-224 | The subtraction comparator orders 24-bit addresses correctly |
| `SensorTable.SortedIsIncreasing` | src/x10/x10state.c:274 | Sorting with it puts distinct addresses in increasing order |
| `SensorTable.SensorTable.SecInit` | src/x10/x10state.c:73-74 | The table stands for the history that ends with a reset |
| `SensorTable.SensorTable.SecEvent` | src/x10/x10state.c:77-104 | The table stands for the history with the event added: an existing record is updated, a new one added, or dropped when full |
| `SensorTable.SensorTable.GetStatusSec` | src/x10/x10state.c:181-218 | The loop answers what the history says by the same statuses, whatever the order of the records |
| `SensorTable.SensorTable.SortForShow` | src/x10/x10state.c:274 | The sort leaves the table standing for the same history |
| `EndpointSelection.TrackEndpoint` | src/usb/usb_endpoint_selection.c:44-66 | Counter and output stay tied to the usable endpoints seen so far |
| `EndpointSelection.UsableMeans` | src/usb/usb_endpoint_selection.c:44-66 | A usable endpoint is one of the wanted setting whose type bits are 3, whose address is from 128 on for input, and whose size modulo 2048 suffices |
| `EndpointSelection.TheOnlyOne` | src/usb/usb_endpoint_selection.c:70-75 | A final count of one means the recorded endpoint is the only usable one |
| `EndpointSelection.SelectInterruptEndpoints` | src/usb/usb_endpoint_selection.c:5-76 | Returns 0 if and only if exactly one interrupt IN and one OUT endpoint of sufficient size exist across all matching alternate settings, and then names them and their packet sizes |
| `EndpointSelection.CountEndpoints` | src/usb/usb_endpoint_selection.c:44-66 | The innermost loop accounts for every endpoint of one alternate setting |
| `Framing.FeedAppends` | src/x10/encode.c:937-982 | Feeding two pieces is feeding their concatenation |
| `Framing.ChunksDoNotMatter` | src/x10/encode.c:937-982 | How a stream is split into reads changes neither the lines nor the final state |
| `Framing.FeedDeliversLines` | src/x10/encode.c:955-981 | From any state the byte loop delivers what the splitter on newline, CR and NUL with the exact overlong rule delivers |
| `Framing.StreamDeliversLines` | src/x10/encode.c:937-982 | Any reads of a stream deliver the splitter's lines of the whole stream |
| `Framing.LinesByLength` | src/x10/encode.c:955-981 | Up to a newline, CR or NUL: 1 to 78 bytes are delivered, none and 80 or more are not, and 79 take the next line with them |
| `Framing.NextLineGoes` | src/x10/encode.c:959-966 | That next line is dropped whatever its length, and what follows it is not |
| `Framing.UnfinishedLineWaits` | src/x10/encode.c:937-982 | Nothing is delivered of a line that no delimiter ends |
| `Framing.DocumentedExactlyWhenNothingIsLost` | src/x10/encode.c:959-966 | The rule of docs/architecture/architecture.md, each overlong line dropped on its own, holds if and only if no deliverable line follows a line of 79 bytes in discarding position |
| `Framing.LineAfterSeventyNineBytesIsLost` | src/x10/encode.c:959-966 | A stream on which it fails: the line after one of exactly 79 bytes is lost |
| `Framing.EncodeState.Encode` | src/x10/encode.c:937-982 | The 80-byte buffer, its length and the discard flag follow the splitter, and the lines handed over are its lines |
| `CommandText.BlankSeparatesWords` | src/x10/encode.c:112-129 | Words never straddle a blank, whichever of isspace it is |
| `CommandText.BlanksExactly` | src/x10/encode.c:112-129 | Six characters separate words and every other one is part of a word |
| `CommandText.UpperExactly` | src/x10/encode.c:98-104 | The 26 letters are turned to capitals and nothing else changes |
| `CommandText.TokenizeCommand` | src/x10/encode.c:112-129 | Read back as C strings from the rewritten buffer, the recorded positions give exactly the words of the line; more than 16 fail |
| `CommandText.WordEnd` | src/x10/encode.c:126-127 | The inner loop stops at the end of the word |
| `CommandText.ParseDecimalOf` | src/x10/encode.c:133-145 | A decimal number reads back as itself exactly when it is in range |
| `CommandText.ParseDecimalExactly` | src/x10/encode.c:133-145 | A number is accepted if and only if its text is decimal digits under an optional sign with a value in range, and that value is returned |
| `CommandText.DigitsExactly` | src/x10/encode.c:133-145 | Ten characters are digits, with their values |
| `CommandText.HexDigitsExactly` | src/x10/encode.c:147-170 | Twenty-two characters are hexadecimal digits, with their values in either case |
| `CommandText.HexReads` | src/x10/encode.c:147-170 | Hexadecimal digits read back as the number they write |
| `CommandText.ParseHexExactly` | src/x10/encode.c:147-170 | A token is accepted if and only if it is hexadecimal digits, bare or after 0X, as many as asked for, whose value fits; and that is the value read |
| `CommandText.LeadingHexZero` | src/x10/encode.c:165 | A leading zero leaves the token hexadecimal and its value the same |
| `SpelledCommands.SpelledWords` | src/x10/encode.c:112-129 | Words with any blanks between and around them are tokenized to those words |
| `SpelledCommands.EveryLineIsSpelled` | src/x10/encode.c:112-129 | Conversely every line is its tokens with blanks around them: the tokens are the maximal non-blank runs |
| `SpelledCommands.UpperSpells` | src/x10/encode.c:98-104 | Upper-casing a line upper-cases its words and keeps its blanks |
| `SpelledCommands.SpellingMattersOnlyToThePolicy` | src/x10/encode.c:674-697 | Lines with the same tokens, whatever their case and blanks, act the same if and only if not just one of them is the policy request |
| `SpelledCommands.OddLines` | src/x10/encode.c:678-693 | A line of more than sixteen words is refused, the policy request answered, and a blank line ignored |
| `SpelledCommands.RenderParses` | src/x10/encode.c:352-381 | Every expressible power-line command, written as text, is parsed back to itself |
| `SpelledCommands.ExpressibleExactlyWhenParsed` | src/x10/encode.c:709-761 | The commands a PL line can give are exactly all but extended code 1 on a unit without its parameters |
| `SpelledCommands.CommandTextRoundTrip` | src/x10/encode.c:674-760 | Rendered in any case and with any blanks, a command announces itself, means itself on the wire and records itself; what each word stands for is the subject of CommandWords and PlPackets |
| `CommandPath.IndexOf` | src/x10/encode.c:265-278 | A name is found at its first index or not at all |
| `CommandPath.GetParam` | src/x10/encode.c:331-342 | Every parameter is a byte |
| `SpelledCommands.ParamExactly` | src/x10/encode.c:331-342 | A parameter is the byte its token spells, and the default when there is none or it spells none |
| `CommandPath.GetDeviceAddr` | src/x10/encode.c:352-381 | An accepted address has a house A to P and a unit 1 to 16 or none |
| `SpelledCommands.AddrAcceptedExactly` | src/x10/encode.c:352-381 | A token is an address if and only if it has at most three characters, a house letter, and nothing more or a unit from 1 to 16 under an optional sign and leading zeros |
| `SpelledCommands.SpellingsOfAUnit` | src/x10/encode.c:352-381 | A1, A01 and A+1 select the same unit |
| `CommandPath.ParsePl` | src/x10/encode.c:709-761 | Whatever the tokens, a parsed command has its house, unit, function, level and data in range |
| `Codec.HouseTableInverts` | src/x10/decode.c:73-91 | The power-line house and unit codes decode to the letter and unit they encode |
| `Codec.HouseTableRfInverts` | src/x10/decode.c:93-111 | So do the RF house codes |
| `Codec.HouseTablesOnto` | src/x10/decode.c:73-111 | Every four-bit code belongs to one house in both tables |
| `Codec.ParityTableIsOddParity` | src/x10/decode.c:63-71 | The 256-entry table is odd parity |
| `Codec.AddressRoundTrip` | src/x10/encode.c:445-460 | The decoder shown a transmitted address frame selects and announces that house and unit |
| `Codec.FuncRoundTrip` | src/x10/encode.c:537-550 | The decoder shown a transmitted function frame records and announces that house and function |
| `Codec.DimRoundTrip` | src/x10/encode.c:496-516 | The decoder shown a transmitted dim or bright announces the house, the function and the level modulo 32 |
| `Codec.ExtendedRoundTrip` | src/x10/encode.c:463-486 | The decoder shown a transmitted extended code announces house, unit, data and both nibbles, and records the level |
| `Codec.AddressOnTheWire` | src/x10/encode.c:457-459 | The two bytes sent carry the same house and unit codes |
| `Codec.FuncOnTheWire` | src/x10/encode.c:546-549 | The two bytes sent carry the same house and function codes |
| `Codec.DimOnTheWire` | src/x10/encode.c:509-516 | The three bytes sent, with the last two swapped and the level byte replaced, carry the same house, function and level |
| `Codec.ExtendedOnTheWire` | src/x10/encode.c:483-485 | The five bytes sent carry the same house, unit, data and command |
| `Codec.RfOnOffRoundTrip` | src/x10/encode.c:613-660 | An RF on or off frame has complementary check bytes and decodes to the same house, unit and function |
| `Codec.RfDimRoundTrip` | src/x10/encode.c:613-660 | An RF dim or bright frame decodes to the same house and function, also without a unit |
| `Codec.RfFrameExists` | src/x10/encode.c:629-652 | Exactly dim, bright, and on or off with a unit have an RF frame |
| `Codec.ShortSecRoundTrip` | src/x10/encode.c:579-589 | The 8-bit security frame passes both checks with the same address and function |
| `Codec.LongSecRoundTrip` | src/x10/encode.c:590-604 | The long security frame decodes to the same address and function exactly when its last two address bytes XOR to even parity, and is reported as bad parity otherwise |
| `Codec.CameraRoundTrip` | src/x10/encode.c:800-808 | A camera frame decodes to the same house and key exactly for the codes that have a key |
| `CommandPath.CamKeyIsNamed` | src/x10/decode.c:603-614 | The code found for a key name is a key of that name |
| `Encoders.PlTxHouseUnit` | src/x10/encode.c:445-460 | The buffer shown to the decoder and the bytes sent after rewriting it carry the same house and unit |
| `Encoders.PlTxExtendedCode1` | src/x10/encode.c:463-486 | Shown and sent bytes are those of the extended code |
| `Encoders.PlTxHouseFunc` | src/x10/encode.c:488-551 | For dim, bright and every other function the shown frame decodes to it and the bytes sent mean it |
| `Encoders.RfTxHouseUnitFunc` | src/x10/encode.c:613-660 | Succeeds exactly when the command has an RF frame, then shows it and sends it, without its marker on a CM19A |
| `Encoders.RfSecTx` | src/x10/encode.c:571-605 | Short and long security frames carry the address bytes in transmission order |
| `CommandTheorems.PlCommandRoundTrip` | src/x10/encode.c:709-761 | Each power-line command announces itself, is told to the controller and is recorded as what it is |
| `CommandTheorems.PlLineRoundTrip` | src/x10/encode.c:709-761 | Whatever PL line, in any spelling, exactly the command its tokens parse to is carried out and nothing else, not even a sensor or a setting; nothing if they parse to none |
| `CommandPath.RfCommandBounds` | src/x10/decode.c:146-166 | Any two bytes decode to a house A to P, a unit 1 to 16 or none, and one of four functions, a dim or bright having no unit |
| `CommandPath.BridgeLineTokens` | src/x10/decode.c:920-952 | The line the bridge writes is always a PL line with the house, unit and function words, so that the recursion ends there |
| `BridgeTheorems.BridgeCarriesTheCommand` | src/x10/decode.c:920-952 | A bridged RF command becomes the power-line command of the same house, unit and function; an unbridged one does nothing more |
| `BridgeTheorems.DecodeRfSends` | src/x10/decode.c:833-998 | A received frame causes at most three writes of at most 8 bytes, and every table index is in range |
| `BridgeTheorems.PacketSendsAtMostThree` | src/x10/decode.c:1000-1072 | So does any packet from either controller, with the reads past its length inside the 8- and 9-byte buffers |
| `BridgeTheorems.LineSendsAtMostFour` | src/x10/encode.c:674-926 | Any client line causes at most four writes of at most 8 bytes, and every table index is in range |
| `RfTheorems.RfLineRoundTrip` | src/x10/encode.c:762-773 | An RF line sends the frame it names, and the daemon hears its own frame as that house, unit and function |
| `RfTheorems.RfLineAnnounces` | src/x10/encode.c:762-773 | Clients read the RF command and, where it is bridged, the same command on the power line, and nothing else |
| `RfTheorems.AddrBytesRoundTrip` | src/x10/encode.c:590-602 | The three address bytes make up the 24-bit address again, an 8-bit address being the last byte |
| `RfTheorems.RfAddrFits` | src/x10/encode.c:383-403 | An accepted address is below 2^8 after 0X and below 2^24 as six digits |
| `RfTheorems.SecLineRoundTrip` | src/x10/encode.c:774-786 | Every accepted RFSEC line sends its frame, and the same address and function are heard unless a long address has odd parity, which is reported |
| `RfTheorems.CamLineRoundTrip` | src/x10/encode.c:787-815 | Every RFCAM line with a named key sends its frame and hears that house and a key of that name |
| `RfText.RfTextRoundTrip` | src/x10/encode.c:762-773 | The same from text: RF with a house, a unit and a function in any case and with any blanks |
| `RfText.SecTextRoundTrip` | src/x10/encode.c:774-786 | The same from text: RFSEC with any spelling of any 8-bit or 24-bit address and every function name of its kind |
| `RfText.CamTextRoundTrip` | src/x10/encode.c:787-815 | The same from text: RFCAM with every key name |
| `RfPackets.OnOffFrame` | src/x10/encode.c:613-660 | The frame of an on or off, byte by byte, for every house and unit |
| `RfPackets.DimFrame` | src/x10/encode.c:613-660 | The frame of a dim or bright, with and without a unit |
| `RfPackets.OnOffPacketIsHeard` | src/x10/decode.c:897-953 | Such a frame from outside, also with the CM15A's odd second check, is announced as received and recorded, repeated and bridged as the settings say, with the bytes written |
| `RfPackets.DimPacketIsHeard` | src/x10/decode.c:920-937 | So is a dim or bright, as one step on the power line and without an entry in the tables |
| `RfPackets.ShortSecPacketIsHeard` | src/x10/decode.c:882-896 | An 8-bit security frame is announced and told to the sensor table |
| `RfPackets.LongSecPacketIsHeard` | src/x10/decode.c:957-978 | So is a 24-bit one of even parity; one of odd parity is only complained about |
| `RfPackets.CameraPacketIsHeard` | src/x10/decode.c:869-880 | A camera frame announces its key |
| `RfPackets.HeardExactly` | src/x10/decode.c:833-998 | For any bytes: a frame is put to the duplicate filter, whole, exactly when it passes the checks of its type; it is announced exactly when it also is no repetition, and only complained about otherwise |
| `RfPackets.WrongLengths` | src/x10/decode.c:846-867 | Fewer than five bytes, or more than eight not led by a second marker, are only complained about |
| `RfPackets.Cm19aPacket` | src/x10/decode.c:1000-1023 | What a CM19A hands over means what the frame with a marker means |
| `RfPackets.RfOnOffLineActs` | src/x10/encode.c:762-773 | RF ON and OFF in any spelling: events, table entries and bytes, repeated and bridged or not, and for a repetition the frame alone |
| `RfPackets.RfDimLineActs` | src/x10/encode.c:762-773 | The same for RF DIM and BRIGHT |
| `RfPackets.SecLineActs` | src/x10/encode.c:774-786 | The same for RFSEC, every event word and every spelling of every address |
| `RfPackets.CamLineActs` | src/x10/encode.c:787-815 | The same for RFCAM and every key word |
| `RfPackets.BadLinesDoNothing` | src/x10/encode.c:762-815 | An RF, RFSEC or RFCAM line with a bad address or an unknown word does nothing but complain |
| `RfText.RfAddrParses` | src/x10/encode.c:383-403 | Every address, written in hexadecimal in its own form, is read back |
| `RfText.RfAddrExactly` | src/x10/encode.c:383-403 | An address token is accepted if and only if it is hexadecimal digits after 0X with a value below 2^8, or exactly six digits, and is read as that address |
| `RfText.SecFuncParses` | src/x10/encode.c:307-329 | Every security function name selects its own code |
| `RfTheorems.TwiceKeepsTheState` | src/x10/x10state.c:126-179 | Recording an on or off twice changes no status or level, and changes the selection exactly when other units were selected in an open group |
| `RfTheorems.BridgeKeepsTables` | src/x10/decode.c:931-952 | For any frame and history every status and level is the same with the bridge on or off; the selection of a house is the same if and only if the frame is no bridged on or off for it, its group was closed, or no other unit was selected |
| `RfTheorems.HeardIsRecorded` | src/x10/decode.c:833-998 | Any frame records its own command if it is an accepted one, once, and once more exactly when it is bridged |
| `RfTheorems.LaterCommandsMayDiffer` | src/x10/decode.c:931-952 | A received frame, RF A1 ON, after which the selections differ, and a later bare off shows it |
| `SpelledCommands.XdimTextRoundTrip` | src/x10/encode.c:735-739 | XDIM in any spelling announces, transmits and records its level as extended code 1 with command byte 0x31 |
| `SpelledCommands.DefaultParameters` | src/x10/encode.c:740-757 | A missing or malformed level is one step, missing extended parameters are zero |
| `CommandWords.FuncWordsExactly` | src/x10/encode.c:207-223 | The sixteen function words have the numbers 0 to 15 of the protocol, XDIM 16, and no other word is read as a function |
| `CommandWords.SecWordsExactly` | src/x10/encode.c:265-329 | Each of the 17 words for a 24-bit sensor and of the 9 for an 8-bit one is read as its byte, and no other word as any |
| `CommandWords.KeysAreNamed` | src/x10/decode.c:532-559 | Each of the 24 camera key codes has its name |
| `CommandWords.KeysExactly` | src/x10/decode.c:571-600 | The key codes are 54 to 6E but for 5E, 5F and 6D |
| `CommandWords.KeyWordsExactly` | src/x10/decode.c:603-614 | Each key name is found as its own code |
| `PlPackets.AddressesAreWritten` | src/x10/encode.c:345-381 | An address is a letter from A to P and, for a unit, a number from 1 to 16 |
| `PlPackets.PlCommandBytes` | src/x10/encode.c:440-552 | Every power-line command writes these bytes, in the codes of the protocol |
| `PlPackets.PlLineBytes` | src/x10/encode.c:705-760 | So does the line that spells it |
| `PlPackets.FunctionWordsAct` | src/x10/encode.c:705-760 | Each function word but DIM and BRIGHT, for a house or a unit, in any spelling and whatever follows it: the event, the table entry and the bytes, function by number and codes by value |
| `PlPackets.LevelWordsAct` | src/x10/encode.c:705-760 | The same for DIM and BRIGHT with a level or without one |
| `PlPackets.ExtendedWordsAct` | src/x10/encode.c:729-756 | The same for EXTENDED_CODE_1 and XDIM |
| `PlPackets.OtherWordsSelect` | src/x10/encode.c:725-733 | A unit alone, or followed by a word that is no function, is selected; a house alone does nothing |
| `OtherCommands.HexWordsRead` | src/x10/encode.c:172-189 | Bytes written as hexadecimal words are read back |
| `OtherCommands.HexBytesExactly` | src/x10/encode.c:172-189 | Words are read as given bytes if and only if each spells its byte, with one digit or many, bare or after 0X |
| `OtherCommands.PassThroughSendsTheBytes` | src/x10/encode.c:816-825 | PT with any words sends given bytes if and only if the words spell them and they are one to eight, and otherwise sends nothing |
| `OtherCommands.BridgeSettingIsExact` | src/x10/encode.c:405-429 | RFTOPL turns the bridge on for exactly the houses named, all with an asterisk |
| `OtherCommands.RepeatSettingIsExact` | src/x10/encode.c:853-864 | RFTORF sets the repeat setting to its number from 0 to 65535, and anything else sets nothing |
| `OtherCommands.NoHousesNoBridge` | src/x10/encode.c:848-852 | RFTOPL alone turns the bridge off |
| `OtherCommands.ResetClearsEverything` | src/x10/encode.c:864-870 | ST 0 clears device tables and sensors and does nothing else |
| `OtherCommands.OtherwiseOnlyAnswered` | src/x10/encode.c:865-893 | ST with anything but 0, and HEX, change nothing |
| `OtherCommands.AnsweredOrIgnored` | src/x10/encode.c:696-920 | Ten words are answered and do nothing else; a line whose first word is no command is ignored |
| `OtherCommands.OpenRemoteIsAcknowledged` | src/x10/encode.c:710-851 | An OpenRemote client is told ok before seven commands and is served like any other otherwise |
| `OtherCommands.LeftoversAreReported` | src/x10/encode.c:918-922 | Words left over after a power-line command are complained about after it has been carried out |
| `Receiving.MarkerOnlyMarksDirection` | src/x10/decode.c:833-998 | The marker byte decides only between received and transmitted: under any marker a frame announces the same, sends the same, and changes device tables, sensors and settings alike |
| `Receiving.RepeaterSendsTheFrame` | src/x10/decode.c:669-998 | Decoding any frame with the repeater on does what it does with the repeater off, after sending the frame once more under the transmit marker exactly when it passed its checks and was no duplicate; events, tables, sensors and settings are unaffected |
| `Receiving.PaddingDoesNotMatter` | src/x10/decode.c:833-998 | What lies behind a frame in the packet buffer does not change what it means |
| `Receiving.AnotherDaemonHearsTheSame` | src/x10/decode.c:1000-1072 | A frame one daemon transmits means the same to another that receives it, through a CM15A or a CM19A |
| `Receiving.PlMarkerOnlyMarksDirection` | src/x10/decode.c:325-475 | So for power-line packets: the marker decides only the direction reported |
| `PlPackets.AddressPacket` | src/x10/decode.c:339-358 | A received 5A 02 00 packet selects and announces the unit of its codes, for every house and unit |
| `PlPackets.FunctionPacket` | src/x10/decode.c:359-410 | A received 5A 02 01 packet records and announces the function of its number, for every house |
| `PlPackets.LevelPacket` | src/x10/decode.c:411-425 | A received 5A 03 02 packet announces its level |
| `PlPackets.ExtendedPacket` | src/x10/decode.c:426-470 | A received extended packet, in either byte order, announces and records the level of its unit |
| `PlPackets.OtherPackets` | src/x10/decode.c:1000-1072 | A5 is answered with the clock; any other packet, and a 5A packet exactly when its count or length is wrong or its type unknown, does nothing |
| `Receiving.ReversedExtendedMeansTheSame` | src/x10/decode.c:422-470 | An extended packet received back to front means what the transmitted one does |
| `Receiving.AnotherDaemonHearsThePacket` | src/x10/decode.c:1054-1056 | A power-line frame one daemon sends and shows itself, received by another with anything behind it, announces and records the same |
| `Receiving.AnotherDaemonHearsTheReversed` | src/x10/decode.c:1054-1056 | So does an extended packet, which arrives back to front |
| `Directions.PacketsAreReceived` | src/x10/decode.c:1000-1072 | Of any packet from either controller the first event is reported as received, and anything it causes as sent |
| `Directions.LinesAreSent` | src/x10/encode.c:674-926 | No event of a client's line is reported as received |
| `FilterQueries.DuplicateDoesNothing` | src/x10/decode.c:856-960 | A duplicate has no effect at all, and a frame that fails its checks does the same whatever the filter holds |
| `FilterQueries.UnaskedLineIgnoresTheFilter` | src/x10/encode.c:674-926 | A line that transmits no RF frame does not depend on the filter |
| `RfPackets.AskedPackets` | src/x10/decode.c:719-776 | The duplicate filter is asked about a CM15A packet exactly when it is a frame that passes its checks, and about all of its bytes |
| `RfPackets.AskedCm19aPackets` | src/x10/decode.c:719-776 | About a CM19A packet it is asked under the marker 0x5D |
| `RfPackets.AskedLines` | src/x10/decode.c:719-776 | A line that asks the filter asks about the frame it sends, and sends it in any case |
| `Daemon.Daemon.ActAll` | src/x10/encode.c:674-926 | Actions carried out on the real tables, sensor table, transmit engine and settings leave exactly the histories and writes they stand for |
| `Daemon.Daemon.CommandLine` | src/x10/encode.c:674-926 | Any client line on the whole state: the filter is asked at most once, the tables record the line's events, and at most four writes reach the transmit queue |
| `Daemon.Daemon.ReceivePacket` | src/x10/decode.c:1000-1072 | Any received packet on the whole state: suppressed without effect when it is a duplicate, recorded otherwise, with at most three writes |
| `Daemon.Daemon.UsbEvent` | src/core/mochad.c:1371-1541 | A callback, time-out, cancel or write extends the run of events the engine has followed since start |
| `Daemon.Daemon.PerformOne` | src/core/mochad.c:1844-1988 | One line, packet or USB event: the filter's answer is right for its record, and settings, filter record, tables, sensors and engine events become exactly what the operation makes of them |
| `Daemon.Daemon.PerformAll` | src/core/mochad.c:1844-1988 | Any interleaving of lines, packets, callbacks, time-outs and failing submissions leaves the whole state as the operations make it one after the other, each filter answer right; packets submitted followed by packets queued are the accepted ones in order |
| `Daemon.UsbTouchesOnlyTheWire` | src/core/mochad.c:1371-1541 | Over any interleaving, the settings, the filter record, the tables and the sensors end as the lines and packets alone leave them with every submission working: callbacks, time-outs and failures of USB reach only the wire |
| `MainLoop.ReceiveReads` | src/x10/encode.c:937-982 | The reads of a client, cut in any way, leave framer, settings, filter, tables, sensors and transmit engine as the lines of the whole stream do |
| `MainLoop.Loop` | src/core/mochad.c:1844-1988 | Any run of inputs and client operations: the daemon's state is what the inputs alone make of it, and each client that stays connected ends as the announcements and what else happened to it leave it |
| `MainLoop.EachIsWorded` | src/x10/mochad_event.c:145-153 | There is one line for each event, in its place, with the direction it is reported in |
| `MainLoop.EveryClientIsToldEveryEvent` | src/x10/mochad_event.c:145-153 | In any such run every main and XML client that stays connected is told every event of every line and packet, in its form and in order, and has received or queued exactly what was addressed to it |
| `Effects.ChangesDecide` | src/x10/encode.c:674-926 | The sensor table and the settings depend only on the sensor and setting actions of a list, in order |
| `StatusQueries.Answer` | src/x10/encode.c:894-915 | The two status commands answer from the tables what the whole history says |
| `StatusQueries.ReadsOnExactlyWhenTurnedOn` | src/x10/encode.c:894-908 | In any spelling a client reads on for a unit if and only if the last event covering it is an on, an all on or a level above zero, and off otherwise |
| `StatusQueries.ReadsTheLevel` | src/x10/encode.c:894-908 | With XDIM it reads the level of that event, and -1 with any other word |
| `StatusQueries.ReadsAlertExactlyWhen` | src/x10/encode.c:909-915 | In any spelling of the address a client reads on for a sensor if and only if the event that made it known had that width and its latest status is one of the alerts, by value |
| `StatusQueries.AlertIsReadBack` | src/x10/encode.c:774-915 | A sensor sent by RFSEC and asked for by GETSTATUSSEC reads on after the six alert words and off after any other word |
| `StatusQueries.AnsweredTogether` | src/x10/encode.c:894-915 | Which status queries are answered: those with the address of a unit or of a sensor |

## Left out

- libusb discovery, claiming, hotplug, endpoint logging and start-up: calls into a library; only the results of submit and cancel, and the callbacks, are inputs. `Devh == NULL` and a missing OUT transfer are one case (not held).
- Sockets, listeners, accept, signals, syslog, hexdump and time stamps: input and output.
- `src/net/diagnostics.c`, `src/x10/mochad_event.c`, `src/config/config.c` and all printf formatting: easy claims only. Event lines are values of a datatype, and reply texts are one action `Reply`.
- The contents of the clock answer (`setClock`) are a parameter; `raw_data` output and the XML policy text are not modelled. Names of sensor events and keys in event lines stay numeric.
- TransmitEngine.TransmitEngine.WriteUsb: the fixed buffer IntrOutBuf is the sequence of bytes the transfer's length covers, because the bytes beyond it are never sent; the ring class keeps the 8-byte records with their stale tails.
- TransmitEngine.TransmitEngine.Perform: the two flags of each transfer are one value of type Transfer, together with what libusb knows of it.
- ClientTables.ClientTables.AddClient: a slot holds the value of its output queue, with the bytes accepted and delivered since it connected, and every operation applies to it the function that OutputQueue.ClientOutputQueue is proved to compute on the ring; the three tables are one field of sequences instead of nine arrays. The per-client framing state, which a new connection resets, is Framing.EncodeState and not part of the slot.
- Reuse of a descriptor by the operating system within one poll iteration: an accepted descriptor is one that no table holds.
- OutputQueue.ClientOutputQueue.ConsumeFront: the test for an empty queue after the length is reduced cannot succeed and is left out.
- OutputQueue.ClientOutputQueue.FlushTo: a run ends as Unfinished when the answers given to it are used up; the source would call send again.
- PollTimeout.TimevalToTimeoutMs: microseconds within 999 of the largest long are excluded, because the source's addition overflows there.
- DupFilter.DupFilter.Filter: times are unbounded and do not decrease; the 64-bit wrap of the millisecond clock is not modelled. The query with length -1 is never made by the source.
- Framing.EncodeState.Encode: an OpenRemote client is deleted after its first line, which resets the state in the middle of the loop; the model is of a client that stays connected. The default state used for callers without a client is not modelled.
- CommandText.TokenizeCommand: characters are those of the ASCII locale; `islower`, `toupper` and `isspace` of other bytes are not modelled.
- Encoders.PlTxHouseFunc: the extended-dim case of `pl_tx_housefunc` is never reached, because XDIM is sent by `pl_tx_extended_code_1`, and is left out.
- SensorTable.SensorTable.SortForShow: `qsort` is any procedure that leaves a sorted rearrangement; the rest of `hua_show` is printing.
- EndpointSelection.SelectInterruptEndpoints: null output pointers, which the source rejects first, do not exist in the model; the outputs of a failed search are unspecified.
- TransmitProgress.QueueDrains: a controller that never completes a transfer makes no progress; the run that drains the queue has working submissions and no new writes.
- StatusQueries.Answer: the line end of the answer and the complaint about leftover arguments are not part of it.
- Daemon.Daemon.PerformOne: a callback that libusb does not owe is passed over.
- MainLoop.Loop: how an event reads is any function of the event and the time of day. What the daemon says to one client, and the notices it sends to all, are table operations between the inputs and not tied to the action `Reply`.
- MainLoop.ReceiveReads: the reads of one client with nothing else in between; the deletion of an OpenRemote client after its first line is left out as in Framing.EncodeState.Encode.
- TransmitProgress.AckIsCreditedExactlyWhen: runs in which a submission fails, the OUT transfer is cancelled or freed are not covered; the queue theorems cover them.
