# Bluefin in Dafny

Bluefin carries a byte stream in numbered packets over UDP. This project models the chain
a byte goes through, from `send` to `recv`, and the small concurrent protocols around it,
and proves what the chain guarantees.

Every component appears twice. A specification on values says what each operation does.
Methods and classes in the form of the original code, with its loops, its branches and its
updates in place, are proved to do just that. Protocols between concurrent parties are
step systems built from the specifications: every atomic operation, critical section or
socket call is one step, steps interleave in any order, and the network loses, duplicates
and reorders. Main results hold in every reachable state.

| file | what it holds |
|---|---|
| `Bytes`, `Header`, `Packet` | big-endian numbers, the 20-byte header, packet streams: printers, parsers, inverses |
| `Packetizer`, `AckPacking` | both data packers and both ack packers against one specification |
| `Ring`, `OrderedBytes`, `RingRuns` | the reassembly buffer as a value, as a circular array, and over every run |
| `Window` | the ack window: a set, a sorted deque that refines it, and every run |
| `Pipeline`, `Drain`, `Flush` | sends, packing task, sender task and the flush counter; what the tasks leave behind; when a flush call returns |
| `Transfer`, `Delivery` | one direction of a connection end to end; delivery in order, sound acknowledgements |
| `Ending`, `Cadence`, `Witness` | the end of the stream, how far the ack window moves, and concrete runs |
| `Receive` | routing one datagram to its buffer; one read |
| `Close`, `CloseProtocol`, `Confirm` | the close buffer, two ends closing, and when a close can still succeed |
| `Hello`, `Handshake`, `Established` | pairing hellos with accepts, the handshake, and what it means for the transfer |

## What holds only under a condition

Where a natural property fails, there is a concrete run or input and the exact condition.

- A header round-trips if and only if its version is below 16 (`HeaderRoundTrip`,
  `WideVersionLost`).
- A packet list survives the wire if and only if it does not end in an empty data packet
  and is otherwise well-formed (`ParserInvertsPrinter`, `EmptyDataUnreadable`). The packers
  never make one.
- `peek` promises a byte to the next read only if the run at the head holds one
  (`PeekPromiseExact`, `EmptyPacketBreaksPeek`). End to end no empty payload is ever
  buffered, and the unwrap in `read` fails if and only if the length is zero and nothing is
  carried over (`PanicsExactly`, `EmptyReadPanics`).
- `insert_range` is the loop over single inserts unless the range overruns the window
  (`RangeIsLoopExactly`, `OverrunDiffers`), although its comment says it always is.
- `flush` is safe, but the tasks may rest before everything is sent. The packing task makes
  at most twelve datagrams per wake-up and then waits for another message, so up to twenty
  messages drained together are sent if and only if they hold at most 180000 bytes
  (`RestExact`, `BatchExact`, `LongMessageHangs`).
- Even then a flush call may never return: the undo of a failed send can take the counter to
  zero, and it notifies nobody (`StrandedFlush`). `CanReturnExactly` and `MustReturnExactly`
  give the exact conditions.
- After `flush` the mirrored packet number may still be old, although the comment in
  `bluefin/src/net/connection.rs:486-489` says otherwise (`FlushedYetStale`,
  `FinNumberExact`).
- `recv` may report the end of the stream before all data is there, and later return data,
  although its comment says it will not (`EofBeforeData`). A report is true if and only if
  everything has arrived (`EofTruthfulExactly`), so all are if everything arrives before the
  Fin (`EofAfterWholeStream`, `EofAfterClose`).
- Acks are sound but not complete: only the read that triggers an ack is acknowledged, so
  the sender's window can pass a packet if and only if every read up to its own takes 200
  packets or more and the first number is not zero (`PassedExactly`, `AcksExactly`,
  `ReadButNeverAcked`).
- A close can be too late to succeed: a closed end answers no further Fin, and an end that
  holds one Fin drops every other until it closes itself (`ConfirmExactly`,
  `SecondCloseTimesOut`, `SecondNumberDropped`).
- After a queued hello the server expects one more than the client's first data number, so
  the first data packet is never delivered (`QueuedHelloSkipsOne`, `ClientToServer`).

Where code and comments disagree otherwise, the model follows the code.

- A crossed close goes to waiting for its own FinAck, not to closed as the comment in
  `bluefin/src/net/close_handler.rs:164-168` says.
- The comment on `num_acks_consumed` (`bluefin/src/utils/window.rs:17-18`) names a range that
  is off by two; `ConsumeReportsFrontier` gives the range the code reports.

## Assumptions

- Packet numbers stay below 2^64. The packing step of the model stops before that.
- A connection has one reader. Send and accept calls are not cancelled.
- Connection ids are fresh, and nobody forges packets.
- A type code above 6, on which the decoder panics, is modelled as an error.
- `consume` is given a buffer of at least the requested length.

## Model

| member | source | states |
|---|---|---|
| `Header.DecodeOfEncode` | bluefin/src/core/header.rs:178-224 | Decoding an encoded header gives every field back, except that the version is reduced to its low four bits. |
| `Header.HeaderRoundTrip` | bluefin/src/core/header.rs:162-224 | Encode then decode is the identity if and only if the version is below 16. |
| `Header.WideVersionLost` | bluefin/src/core/header.rs:162-173 | Version 16 comes back as version 0. |
| `Header.EncodeOfDecode` | bluefin/src/core/header.rs:192-224 | Any 20 bytes that decode are exactly the encoding of the header they decode to. |
| `Header.SerialiseHeaderInto` | bluefin/src/core/header.rs:162-173 | Writing in place leaves the buffer holding the encoding of the header and touches nothing behind it. |
| `Packet.DeserialiseRoundTrip` | bluefin/src/core/packet.rs:47-72 | The single-packet form round-trips if and only if the version is below 16. |
| `Packet.SerialisePacketInto` | bluefin/src/core/packet.rs:106-117 | Writes header and payload, reports their length, leaves the rest of the buffer as it was. |
| `Packet.ParseOfEncoded` | bluefin/src/core/packet.rs:126-173 | The concatenated encodings of any non-empty list of well-formed packets not ending in an empty data packet parse to that list. |
| `Packet.EncodedOfParse` | bluefin/src/core/packet.rs:126-173 | Whenever a byte string parses, printing the result gives back the same bytes, and the result is well-formed. |
| `Packet.ParserInvertsPrinter` | bluefin/src/core/packet.rs:47-173 | A byte string parses to a list if and only if it is the printed form of that list and the list is non-empty, well-formed and does not end in an empty data packet. |
| `Packet.EmptyDataUnreadable` | bluefin/src/core/packet.rs:150-158 | A datagram that is one empty data packet does not parse. |
| `Packet.FromBytes` | bluefin/src/core/packet.rs:126-173 | The cursor loop computes the recursive parser, errors included. |
| `Packet.ReadPacketAt` | bluefin/src/core/packet.rs:136-164 | One iteration of the loop: the first packet of the bytes at the cursor, or the error that ends the parse. |
| `Packet.AppendPackets` | bluefin/src/core/packet.rs:201-229 | The loop of the appending parser: what it has appended is the decoding of the bytes before the cursor; an error is the error of the whole parse. |
| `Packet.FromBytesInto` | bluefin/src/core/packet.rs:190-240 | On success exactly the parsed packets are appended and counted; on failure what stays behind in the vector is the decoding of a prefix of the datagram. |
| `Packetizer.SerializePacketDirect` | bluefin/src/worker/writer.rs:648-659 | Appends exactly the encoding of the packet. |
| `Packetizer.EmitChunk` | bluefin/src/worker/writer.rs:703-714 | One emit site: as many bytes as the payload limit and the room allow leave the running payload as one numbered data packet. |
| `Packetizer.DrainRunning` | bluefin/src/worker/writer.rs:771-784 | The closing emit loop from any room that is a multiple of 1520: takes exactly as many bytes as there are or fit, emits the 1500-byte cut of them and nothing empty, although its guard asks for 20 bytes of room only. |
| `Packetizer.FinishDatagram` | bluefin/src/worker/writer.rs:771-789 | Draining and putting the remainder back in front completes the specified datagram and leaves the specified bytes queued. |
| `Packetizer.ConsumeDataInto` | bluefin/src/worker/writer.rs:673-790 | For every queue: takes the first min(total, 15000) bytes, appends them as 1500-byte packets numbered from the counter, leaves exactly the other bytes queued, advances the counter by the packets made, returns 0 only when no byte was queued. |
| `Packetizer.ConsumeData` | bluefin/src/worker/writer.rs:795-935 | The older packer meets the same specification. |
| `Packetizer.PackersAgree` | bluefin/src/worker/writer.rs:673-935 | Both packers give the same bytes, the same counter and the same bytes left, for every queue. |
| `Packetizer.ChunksConcat` | bluefin/src/worker/writer.rs:771-784 | Cutting n bytes loses nothing and makes ceil(n / 1500) chunks, all full but the last. |
| `Packetizer.CutIsChunks` | bluefin/src/worker/writer.rs:771-784 | Full chunks followed by at most one short one are the cut of their concatenation: the cut is unique. |
| `Packetizer.DatagramParses` | bluefin/src/worker/writer.rs:689-789 | Every produced datagram is at most 15200 bytes and parses to non-empty data packets with the given ids, consecutive numbers up to the new counter, and the taken bytes as payload. |
| `Packetizer.PayloadBytesInDatagram` | bluefin/src/worker/writer.rs:519-535 | The auditing walk adds up the announced lengths of any byte string, stopping where it is malformed. |
| `Packetizer.AuditAgrees` | bluefin/src/worker/writer.rs:519-535 | On every produced datagram the audit gives exactly the count the packer returned. |
| `Packetizer.PackAll` | bluefin/src/worker/writer.rs:336-369 | Packing again and again ends after exactly ceil(total / 15000) datagrams, which together are the whole queue cut once. |
| `AckPacking.ConsumeAcksInto` | bluefin/src/worker/writer.rs:938-972 | Takes as many acks from the front as fit in 15200 bytes, appends their encodings in order, leaves the others queued. |
| `AckPacking.ConsumeAcks` | bluefin/src/worker/writer.rs:978-1014 | The older ack packer: the first 760 acks as one datagram, or none for an empty queue. |
| `AckPacking.AckPackersAgree` | bluefin/src/worker/writer.rs:938-1014 | Both ack packers give the same bytes and leave the same acks. |
| `AckPacking.AckDatagramParses` | bluefin/src/worker/writer.rs:938-972 | An ack datagram parses back to its acks in order; a count survives the cast to 16 bits if and only if it is below 65536. |
| `OrderedBytes.WrapIndex` | bluefin/src/net/ordered_bytes.rs:19-26 | Branch-and-subtract equals the true remainder modulo 2000. |
| `OrderedBytes.OrderedBytes.constructor` | bluefin/src/net/ordered_bytes.rs:113-122 | A fresh buffer: no packet, no carry-over, expecting the start number. |
| `OrderedBytes.OrderedBytes.SetStartPacketNumber` | bluefin/src/net/ordered_bytes.rs:130-132 | Changes the expected number only; on an empty buffer the invariant is kept. |
| `OrderedBytes.OrderedBytes.BufferInPacket` | bluefin/src/net/ordered_bytes.rs:141-176 | Places the packet at its offset from the head or reports too old, too far ahead or duplicate; no occupied slot is overwritten. |
| `OrderedBytes.OrderedBytes.PeekHead` | bluefin/src/net/ordered_bytes.rs:179-191 | Succeeds exactly when there is a carry-over or a packet at the head. |
| `OrderedBytes.OrderedBytes.OpenHead` | bluefin/src/net/ordered_bytes.rs:243-272 | One loop iteration on the circular array is one iteration on the unrolled slots. |
| `OrderedBytes.OrderedBytes.OpenRun` | bluefin/src/net/ordered_bytes.rs:238-276 | The read loop, on the circular array, reaches the state that the loop on the unrolled slots reaches. |
| `OrderedBytes.OrderedBytes.Consume` | bluefin/src/net/ordered_bytes.rs:207-285 | A copying read does what the closed form of a read says: new buffer, bytes copied, packets removed and first number reported; the rest of the caller's buffer is untouched. |
| `OrderedBytes.OrderedBytes.PopRun` | bluefin/src/net/ordered_bytes.rs:326-346 | The zero-copy loop pops exactly the payloads of the run at the head, up to the limit, and adds up their lengths. |
| `OrderedBytes.OrderedBytes.ConsumeBytes` | bluefin/src/net/ordered_bytes.rs:304-353 | A zero-copy read appends the carry-over and whole payloads and reports the packets removed and the bytes. |
| `Ring.OpenAllIsCovered` | bluefin/src/net/ordered_bytes.rs:207-285 | The packet-by-packet read loop equals its closed form: open the fewest packets that cover the request, hand out a prefix, keep the rest. |
| `Ring.ReadDone` | bluefin/src/net/ordered_bytes.rs:207-285 | Where the loop stops, buffer, bytes and result are those of the closed form. |
| `RingRuns.ArriveKeepsInv` | bluefin/src/net/ordered_bytes.rs:141-176 | A packet is accepted if and only if its number is in the 2000 expected ones and was not accepted before. |
| `RingRuns.ReadIntoKeepsInv` | bluefin/src/net/ordered_bytes.rs:207-285 | A copying read, of any length, keeps the delivery invariant. |
| `RingRuns.ReadPiecesKeepsInv` | bluefin/src/net/ordered_bytes.rs:304-353 | A zero-copy read, of any size, keeps the delivery invariant. |
| `RingRuns.EveryRunDelivers` | bluefin/src/net/ordered_bytes.rs:141-353 | Over every run of arrivals and reads of both kinds: the bytes handed out, then the carry-over, are the accepted payloads of start, start + 1, ... up to the next expected number, each once and in order; accepted payloads never change. |
| `RingRuns.ReadIsPrefix` | bluefin/src/net/ordered_bytes.rs:207-285 | A read returns exactly the first len gap-free bytes, or all if there are fewer, and fails exactly when that is nothing. |
| `RingRuns.ReadsTakeNext` | bluefin/src/net/ordered_bytes.rs:207-285 | With nothing arriving in between, any sequence of reads hands out the gap-free bytes exactly up to the sum of the lengths. |
| `RingRuns.ReadNamesRemoved` | bluefin/src/net/ordered_bytes.rs:229-284 | The reported base and count name exactly the packets this copying read removed, at most 2000. |
| `RingRuns.ReadPiecesNamesRemoved` | bluefin/src/net/ordered_bytes.rs:319-352 | The same for the zero-copy read. |
| `RingRuns.PeekPredictsRead` | bluefin/src/net/ordered_bytes.rs:179-285 | With no empty payload buffered, a read of positive length succeeds if and only if peek does, and a failing read changes nothing. |
| `RingRuns.ReadFailsExactly` | bluefin/src/net/ordered_bytes.rs:179-285 | After a successful peek, with no empty payload buffered, a read fails if and only if it asks for no bytes and nothing is carried over. |
| `RingRuns.PeekPromiseExact` | bluefin/src/net/ordered_bytes.rs:179-285 | In general, after a successful peek a positive-length read succeeds if and only if some gap-free byte is there. |
| `RingRuns.EmptyPacketBreaksPeek` | bluefin/src/net/ordered_bytes.rs:179-285 | A lone empty data packet at the head makes peek succeed and the read fail, after moving the buffer on. |
| `Window.RangeIsLoop` | bluefin/src/utils/window.rs:92-132 | For a range that fits the window, the fast range insert equals inserting number by number, partial inserts and result included. |
| `Window.RangeIsLoopExactly` | bluefin/src/utils/window.rs:78-132 | For every range and window, range insert and loop succeed or fail together; they leave the same deque if and only if the range is empty, or does not run past the window, or its very first number is rejected; they give the same error if and only if it is not an overrunning range that overlaps what is there. |
| `Window.OverrunDiffers` | bluefin/src/utils/window.rs:78-109 | A range of two of which only the first fits: the loop keeps it, the range insert does not, although the comment says they match. |
| `Window.RangeRejectedUnchanged` | bluefin/src/utils/window.rs:92-109 | A range that starts below or runs past the window changes nothing. |
| `Window.FrontierCorrect` | bluefin/src/utils/window.rs:138-173 | The frontier is the first number from the start of the window on that has not been acknowledged. |
| `Window.ConsumeReportsFrontier` | bluefin/src/utils/window.rs:138-173 | A consume reports the largest number reachable without a gap and how many that is; an immediate second consume finds nothing. |
| `Window.EveryRunCounts` | bluefin/src/utils/window.rs:23-173 | Over every run of inserts and consumes the window stays valid and the reported counts sum to frontier minus start. |
| `Window.SortedUnique` | bluefin/src/utils/window.rs:7-11 | A strictly increasing deque is determined by its set of elements, so the set describes it completely. |
| `Window.BinarySearch` | bluefin/src/utils/window.rs:57-66 | Finds the number or the place where it belongs. |
| `Window.SlidingWindow.constructor` | bluefin/src/utils/window.rs:23-28 | An empty window at the start number. |
| `Window.SlidingWindow.InsertPacketNumber` | bluefin/src/utils/window.rs:30-67 | All paths into the deque insert into the set, or report why not, and keep the deque strictly increasing inside the window. |
| `Window.SlidingWindow.InsertRangeOf` | bluefin/src/utils/window.rs:92-132 | The range insert on the deque is the range insert on the set, including where a slow-path insert stops. |
| `Window.SlidingWindow.ConsumeContiguous` | bluefin/src/utils/window.rs:138-173 | The pop loop slides the window to its frontier. |
| `Window.PopContiguous` | bluefin/src/utils/window.rs:151-164 | Pops exactly the gap-free prefix of the deque and puts the first number after the gap back. |
| `Close.CloseInKeeps` | bluefin/src/net/close_handler.rs:95-139 | No sequence of close packets leaves Closed, lowers the peer-Fin flag or owes an answer to a number that was not a Fin among them. |
| `Close.CloseBuffer.constructor` | bluefin/src/net/close_handler.rs:79-88 | A fresh buffer is active and owes nothing. |
| `Close.CloseBuffer.BufferInFin` | bluefin/src/net/close_handler.rs:95-128 | The transition on a Fin from each state. |
| `Close.CloseBuffer.BufferInFinAck` | bluefin/src/net/close_handler.rs:132-139 | Records the number and nothing else. |
| `Close.CloseBuffer.TakePendingFinAckSend` | bluefin/src/net/close_handler.rs:152-154 | Hands out the owed number once. |
| `Close.CloseBuffer.RecordLocalFinSent` | bluefin/src/net/close_handler.rs:170-189 | Both an active and a crossed close wait for their own FinAck. |
| `Close.CloseBuffer.SetClosed` | bluefin/src/net/close_handler.rs:160-162 | Closed, whatever the state was. |
| `Close.BufferInClosePackets` | bluefin/src/worker/conn_reader.rs:298-345 | One datagram, whatever it holds: close packets buffered in order, one owed number taken out if a Fin was among them; it panics if and only if something else is among them, with the packets before that one buffered. |
| `CloseProtocol.ControlParses` | bluefin/src/worker/writer.rs:596-643 | A control datagram parses to the one close packet it was built from. |
| `CloseProtocol.ReceiveEffect` | bluefin/src/worker/conn_reader.rs:298-345 | What a delivered Fin or FinAck datagram does to an end, through the real parser and buffer. |
| `CloseProtocol.StepKeepsInv` | bluefin/src/net/connection.rs:477-539 | Every step of either end and of the network keeps the two-ended invariant. |
| `CloseProtocol.CloseAgreement` | bluefin/src/net/connection.rs:477-539 | In every run of two ends over a lossy, duplicating, reordering network: close returned Ok only if the other end has already answered a Fin with exactly that number, sent by this call, and raised its flag. |
| `CloseProtocol.ThreeFins` | bluefin/src/net/connection.rs:477-539 | In every run every call, whether it returned or not, has sent at most three Fins, all with its one number. |
| `CloseProtocol.FinAcksAreEarned` | bluefin/src/worker/conn_reader.rs:298-345 | In every run a FinAck on the wire carries the number of a Fin that was sent to its sender, that its sender has answered, and that raised its flag. |
| `CloseProtocol.ClosedIsFinal` | bluefin/src/net/close_handler.rs:95-189 | Over every run Closed is final, the peer-Fin flag never falls, and a closed end answers no further Fin. |
| `CloseProtocol.ClosedNeverConfirms` | bluefin/src/net/connection.rs:477-539 | Over every run, once an end is closed without having answered a number, no call of the other end with that number ever returns Ok. |
| `Confirm.ConfirmExactly` | bluefin/src/net/connection.rs:477-539 | In every reachable state: a close call that has its number and an attempt or a wait before it can still return Ok if and only if a FinAck for the number is on the wire, queued or in hand at the other end, or that end is active, waits for its own FinAck, holds a Fin with this very number, or holds another and has a close call of its own still to record. |
| `Confirm.SecondNumberDropped` | bluefin/src/net/close_handler.rs:95-128 | A run in which an end closes twice: while the other end holds the first Fin and never closes itself, the second call cannot return Ok. |
| `Confirm.SecondCloseTimesOut` | bluefin/src/net/connection.rs:477-539 | For any numbers, a run in which one end closes and returns Ok and the other then calls close: no continuation returns Ok, and one sends three Fins and times out. |
| `Pipeline.StepKeepsInv` | bluefin/src/worker/writer.rs:214-411 | Every step of senders (flag, count, enqueue or fail, undo), packing task, sender task and close keeps conservation of bytes, of datagrams, of the counter and of the numbers. |
| `Pipeline.EveryRunConserves` | bluefin/src/worker/writer.rs:273-499 | In every interleaving, packed and unpacked bytes are the accepted sends in order, wire and outgoing datagrams are the packed ones in order, and the counter is everything not yet subtracted plus increments in progress. |
| `Pipeline.WireParsesTo` | bluefin/src/worker/writer.rs:273-378 | The j-th datagram on the wire parses to the j-th group of packets, numbered on from those before. |
| `Pipeline.FlushIsSafe` | bluefin/src/worker/writer.rs:481-499 | When the counter is zero the parsed wire is exactly the accepted bytes; at any time it is a prefix of them. |
| `Pipeline.CounterNeverUnderflows` | bluefin/src/worker/writer.rs:285-294 | Every amount still to be subtracted, by the sender task or by a failed send, is at most the counter. |
| `Pipeline.EveryFlushIsSafe` | bluefin/src/worker/writer.rs:388-499 | Both of the above in every reachable state. |
| `Pipeline.FinNumberExact` | bluefin/src/worker/writer.rs:574-576 | In every reachable state before a reservation, the Fin number is at most the next data number, and equal to it if and only if the packing task has stored its counter since it last handed off a datagram. |
| `Pipeline.FlushedYetStale` | bluefin/src/net/connection.rs:483-490 | A run in which flush may return and the Fin would get the number of a data packet. |
| `Drain.QuietState` | bluefin/src/worker/writer.rs:312-378 | Where no task can move, everything packed is on the wire and the packing task waits for a message. |
| `Drain.QuietCounter` | bluefin/src/worker/writer.rs:312-378 | There, with no send in progress, the counter is exactly the bytes kept back in the queue; it is zero if and only if everything accepted is on the wire. |
| `Drain.RestExact` | bluefin/src/worker/writer.rs:312-378 | From any state with no send call on its way to its enqueue, tasks and undos in any order until they rest: the bytes kept back are those foreseen from the start (twenty messages and twelve datagrams to a wake-up), they are the counter, and everything accepted is on the wire if and only if there are none. |
| `Drain.BatchExact` | bluefin/src/worker/writer.rs:312-378 | Up to twenty messages waiting for an idle packing task, tasks in any order until they rest: everything is on the wire if and only if together they hold at most 180000 bytes; otherwise the counter is the excess and the excess is what is queued. |
| `Drain.SmallMessages` | bluefin/src/worker/writer.rs:312-378 | Of messages of at most 9000 bytes each nothing is foreseen to be kept back, however many wait for an empty queue. |
| `Drain.LongMessageHangs` | bluefin/src/worker/writer.rs:336-378 | For every message of more than 180000 bytes, a reachable state at rest in which the first 180000 are on the wire and the counter is the rest. |
| `Drain.BackgroundEnds` | bluefin/src/worker/writer.rs:273-378 | Without new calls the tasks take a bounded number of steps, whatever their order. |
| `Drain.Settles` | bluefin/src/worker/writer.rs:273-378 | From every state whose packing round is within its twelve datagrams there is a way to rest. |
| `Drain.ReachedBounded` | bluefin/src/worker/writer.rs:336-369 | Every reachable state is such a state. |
| `Flush.ReturnsAtRest` | bluefin/src/worker/writer.rs:481-499 | With no send in progress and no failed send to undo, whatever the order: a flush call in progress has returned when everything rests if and only if nothing is kept back and it is not parked past its notification. |
| `Flush.CanReturnExactly` | bluefin/src/worker/writer.rs:481-499 | With no send on its way to its enqueue and none to come, a flush call in progress can still return if and only if nothing is to be kept back and it is not parked past its notification. |
| `Flush.MustReturnExactly` | bluefin/src/worker/writer.rs:481-499 | It returns whatever the order if and only if moreover no failed send has bytes left to undo. |
| `Flush.OnlyUndoStrands` | bluefin/src/worker/writer.rs:400-406 | A flush call gets parked past its notification only by the undo of a failed send, which notifies nobody. |
| `Flush.EveryReturnIsSafe` | bluefin/src/worker/writer.rs:481-499 | In every reachable state, when a flush call returns, the parsed wire is exactly the accepted bytes. |
| `Flush.StrandedFlush` | bluefin/src/worker/writer.rs:285-299 | A run that ends at rest with counter zero and everything on the wire, in which a flush call is parked and cannot return unless somebody sends again. |
| `Transfer.WireIsGenuine` | bluefin/src/worker/conn_reader.rs:213-251 | Every packet a receiver parses from a datagram on the wire carries what was packed under its number. |
| `Transfer.ConsumeKeepsInv` | bluefin/src/worker/reader.rs:121-178 | The consume step of a read keeps the end-to-end invariant; the ack it may queue names packets that have been handed to the reader. |
| `Transfer.HappenKeepsInv` | bluefin/src/worker/reader.rs:78-241 | Every step of writer, network, reader and ack path keeps the end-to-end invariant. |
| `Transfer.EveryRunKeepsInv` | bluefin/src/worker/reader.rs:78-241 | So does every run. |
| `Transfer.FailedUnwrapExactly` | bluefin/src/worker/reader.rs:140-142 | A copying read that was told there is data fails if and only if it asks for no bytes and nothing is carried over. |
| `Delivery.EveryRunDeliversInOrder` | bluefin/src/worker/reader.rs:121-241 | In every reachable state of sends, tasks, lossy network and reads: what was read is a prefix of what was accepted for sending, if the receiver starts at the sender's first number; if it starts later, exactly the earlier packets are missing. |
| `Delivery.EveryAckIsEarned` | bluefin/src/net/ack_handler.rs:33-47 | In every reachable state every number the ack window holds or has passed belongs to a packet handed to the reader. |
| `Delivery.LargestAckIsEarned` | bluefin/src/net/ack_handler.rs:108-116 | In every reachable state the published largest ack and all numbers before it were handed to the reader. |
| `Delivery.LateStartFreezesWindow` | bluefin/src/net/ack_handler.rs:33-47 | If the receiver starts late, the sender's window never moves. |
| `Delivery.PanicsExactly` | bluefin/src/worker/reader.rs:121-142 | In every reachable state a read about to consume panics if and only if it is a copying read of length zero with nothing carried over. |
| `Witness.EmptyReadPanics` | bluefin/src/worker/reader.rs:121-142 | A run in which one byte is sent and arrives, and a read into an empty buffer, told that there is data, panics. |
| `Delivery.NothingToReadExactly` | bluefin/src/worker/reader.rs:128-138 | In every reachable state with nothing to read: everything accepted for sending has been read if and only if everything was packed and every packet has arrived. |
| `Delivery.AllArrivedAvailable` | bluefin/src/worker/reader.rs:121-178 | Once everything has arrived, what was read and what can be read make up the whole stream. |
| `Delivery.AllArrivedStays` | bluefin/src/worker/reader.rs:121-178 | No single step that accepts nothing new for sending undoes that everything has arrived. |
| `Ending.EofNeedsFin` | bluefin/src/worker/reader.rs:128-138 | In every reachable state: zero has been reported only if a Fin has arrived, and one has arrived only if a close call has forbidden further sends and sent it. |
| `Ending.EofTruthfulExactly` | bluefin/src/worker/reader.rs:128-138 | In every reachable state, whenever a step reports the end of the stream: the flag is up, and the report is true if and only if everything was packed and every packet has arrived. |
| `Ending.CompleteForGood` | bluefin/src/worker/reader.rs:121-241 | Over every run that accepts nothing new: once everything has arrived it stays so, and every zero reported from then on comes at the end of the stream. |
| `Ending.EofAfterWholeStream` | bluefin/src/worker/reader.rs:121-241 | If everything arrives before the Fin, then in every continuation that accepts nothing new every zero ever reported comes after the whole stream, and whenever nothing can be read all of it has been. |
| `Ending.NothingMoreAccepted` | bluefin/src/worker/writer.rs:388-411 | Over every run: once sends are forbidden and each that got past the ban has been enqueued or has failed, nothing more is accepted. |
| `Ending.EofAfterClose` | bluefin/src/worker/reader.rs:121-241 | So if in such a state everything has arrived and no Fin has, every zero reported in any continuation comes after the whole stream, and whenever nothing can be read all of it has been. |
| `Ending.EveryReadExtends` | bluefin/src/worker/reader.rs:140-142 | In every such continuation each consuming step of a positive read, of either kind, hands out the next bytes of the stream: for a copying read exactly as many as asked for or left. |
| `Ending.CallsFinishStream` | bluefin/src/net/connection.rs:375-410 | With the flag up, any sequence of positive read calls of both kinds, in the reader's own steps, hands out the stream in order: exactly the sum of the lengths if all copy, at least a byte for each other call, until nothing is left. |
| `Witness.EofBeforeData` | bluefin/src/worker/reader.rs:128-138 | A run in which a byte is sent and flushed, close is called, its Fin arrives first, a read reports zero, and a later read returns the byte. |
| `Cadence.EveryRunCadent` | bluefin/src/worker/reader.rs:144-175 | Every run keeps the cadence invariant: acks queued so far are those the reads have triggered, and the window holds and has passed whole reads only. |
| `Cadence.AcksExactly` | bluefin/src/worker/reader.rs:144-175 | In every reachable state the acks ever queued, in order, are those of the reads that brought the count since the last ack to 200, each naming the packets of that read alone; the reads together took all packets before the next expected one. |
| `Cadence.DeliveryPasses` | bluefin/src/net/ack_handler.rs:33-47 | Delivering a sent ack that names the start of the window and sliding moves the window past all it names. |
| `Cadence.PassedExactly` | bluefin/src/worker/reader.rs:144-175 | In every reachable state, for every packet that has been read: some continuation has the window past it if and only if the first number is not zero and every read up to and with the one that took it took at least 200 packets. |
| `Cadence.WindowMovesExactly` | bluefin/src/worker/reader.rs:144-175 | In particular the window can move at all if and only if the first read took at least 200 packets and the first number is not zero. |
| `Witness.ReadButNeverAcked` | bluefin/src/worker/reader.rs:144-175 | A run in which all that was sent has been read and no ack was queued, and in every continuation the window stays where it was. |
| `Receive.ConnectionBuffer.constructor` | bluefin/src/net/connection.rs:103-113 | An empty connection buffer expecting number zero. |
| `Receive.ConnectionBuffer.BufferInAddr` | bluefin/src/net/connection.rs:121-130 | The first address stays. |
| `Receive.ConnectionBuffer.BufferInPacket` | bluefin/src/net/connection.rs:138-161 | Keeps one handshake packet; the first ever kept sets the start to its number plus two on a server, plus one on a client, and no later one does. |
| `Receive.ConnectionBuffer.TakePacket` | bluefin/src/net/connection.rs:71-84 | Empties the slot and hands the packet over if the address is known. |
| `Receive.ConnectionBuffer.PeekHead` | bluefin/src/net/connection.rs:198-205 | Ready exactly when the address is known and the reassembly buffer is ready. |
| `Receive.BufferAllIsArrival` | bluefin/src/worker/conn_reader.rs:407-433 | Buffering a datagram's packets is arrival of those packets in a transfer. |
| `Receive.BufferInDataPackets` | bluefin/src/worker/conn_reader.rs:407-433 | Offers every packet whatever happened to the ones before and reports the last error. |
| `Receive.BufferInAckPackets` | bluefin/src/worker/conn_reader.rs:366-404 | Inserts every range whatever happened to the ones before and reports the last error. |
| `Receive.ReceiveDatagram` | bluefin/src/worker/conn_reader.rs:213-286 | The inline receive loop: parses a datagram and hands all its packets to the one buffer its first packet selects; unparsable bytes change nothing; the unreachable branch is reached exactly by a close packet followed by something else, with the close packets before that buffered. |
| `Receive.ReaderRx.NoteConsumed` | bluefin/src/worker/reader.rs:144-175 | Counts consumed packets; from 200 on acknowledges the packets of this very read and starts again. |
| `Receive.ReaderRx.ReadNow` | bluefin/src/worker/reader.rs:140-177 | The consuming half of a read is the read step of a transfer: buffer, bytes, counter, queued ack, failing unwrap. |
| `Hello.HelloState.constructor` | bluefin/src/net/mod.rs:44-49 | Nothing pending, nothing queued. |
| `Hello.HelloState.HandleHelloSingle` | bluefin/src/worker/reader.rs:277-313 | A hello takes the oldest accept slot, else queues while there are fewer than 64, else is dropped; any other packet changes nothing. |
| `Hello.HelloState.ClaimOrRegister` | bluefin/src/net/server.rs:108-121 | An accept takes the oldest queued hello, else registers its slot. |
| `Hello.EveryRunIsFifo` | bluefin/src/net/server.rs:108-121 | Over every run the k-th accept is paired with the k-th hello that was not dropped, each once; slots and hellos are never both waiting; at most 64 hellos wait. |
| `Hello.DroppedExactly` | bluefin/src/worker/reader.rs:293-309 | After any run a hello is dropped if and only if exactly 64 more hellos were kept than accepts made. |
| `Handshake.HandshakeParses` | bluefin/src/net/mod.rs:273-285 | A handshake packet travels alone in its datagram and parses back to itself. |
| `Handshake.StepKeepsInv` | bluefin/src/net/server.rs:80-181 | Every step of clients, accepts, workers and network keeps the handshake invariant. |
| `Handshake.Agreement` | bluefin/src/net/server.rs:80-181 | In every reachable state: an accept that succeeded names a client that connected to it; keys mirror each other, each holds the other's number, each ack window starts at its own end's first data number, the client expects the server's first data number, the server expects the client's, plus one if the hello had been queued. |
| `Handshake.AcceptedOnce` | bluefin/src/net/server.rs:80-181 | However often its hello is duplicated, a client is accepted at most once. |
| `Handshake.AckNumberMatches` | bluefin/src/net/server.rs:160-167 | An ack that reaches a waiting accept always carries the expected number. |
| `Handshake.QueuedHelloSkipsOne` | bluefin/src/net/connection.rs:148-158 | For any ids and numbers, a run in which a queued hello leads to a server that expects one more than the client's first data number. |
| `Established.WindowsStartRight` | bluefin/src/net/client.rs:90-168 | On every accepted connection both transfers start with the ack window that the handshake made. |
| `Established.ServerToClient` | bluefin/src/net/client.rs:84-175 | On every accepted connection the client reads a prefix of what the server sent. |
| `Established.ClientToServer` | bluefin/src/net/server.rs:108-181 | The server reads a prefix of what the client sent unless the hello had been queued; then the first packet is never delivered, all others are in order, and the client's ack window never moves. |

## Left out

- Wakers, task scheduling and memory orderings: atomics and critical sections are single steps. The notification that `flush` waits for is modelled; any other parked call may wake at any step.
- The receive loop that hands packets on through a channel (`bluefin/src/worker/conn_reader.rs:121-204`): a datagram that does not parse ends that task, while the inline loop, which is modelled, goes on.
- Timeouts as time: a timeout may fire at any step.
- Error returns for a missing waker (`NoSuchWakerError`): wakers are not modelled.
- Addresses in the handshake: the network delivers by connection id.
- Pack followers: the original has no behaviour for them.
- Data, ack and close packets that arrive on the listening socket: only the handshake is modelled there.
- `close` taking the connection out of the connection map, and dropped `accept` futures.
- Reuse of buffers, reference counts, unsafe length changes, diagnostics: no effect on the bytes.
- Sockets, `bluefin-io`, `bluefintool`, command-line programs, `bluefin-proto/src/handshake/state_machine.rs` (a stub) and `bluefin/src/utils/ring_buffer.rs` (not used): no further algorithm on this path.
- Eventual progress over the network (a close or a read that ends): lost datagrams are not sent again, so none is promised.
- Receive.ReaderRx.ReadNow: the zero-copy read is modelled by `ConsumeBytes` and the step system, not by a second method here.
