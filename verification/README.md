# VPU: a verified model

VPU captures telephone voice packets from a network interface, shards them over eight worker threads, stores both
directions of every call in files, screens each finished call for fax, and ships one call record (CDR) per call to a
collector over an acknowledged window protocol. This Dafny project models those cores and proves what they promise,
over every input, every run and every interleaving of their steps.

| files | what they model |
|---|---|
| `CdrWindow`, `CdrRing`, `CdrSender`, `AckFraming`, `CdrThread` | the call-record sender: a 65536-slot array with three 16-bit cursors, against a log with unbounded numbers; the connection loop and its acknowledgement frames |
| `PktFifo`, `PktFifoRing`, `Sharding`, `Pipeline` | the packet rings as micro-steps of one producer and one consumer; the identifier's bits; the capture thread with eight rings and workers |
| `FaxQueue` | record-node lists with a cached length, as linked objects |
| `CallControl`, `CallLedger`, `CallLife`, `CallCounts`, `CycleThread` | one slot's call control; the whole system of slots, nodes, fax threads, sender and counters; one call's life in its slot and what each event counts, told by the packets' own fields; the sweep and shutdown |
| `Recording`, `VoiceChannel`, `Playback` | voice buffers, files, fax buffers and live listening; the slot as an object with arrays; playing a call back |
| `EcmPage` | storage and replay of fax frames in error-correcting mode |
| `Request` | type-length-value requests, writer and reader |
| `Tailq`, `ConfStore`, `ConfForest`, `ConfTree` | the configuration tree: its sibling lists, its nodes, their subtrees, and the operations on its path-to-value map |
| `ConfYaml`, `ConfYamlParser`, `ConfFrame`, `ConfDocument`, `ConfOutcome`, `ConfLoad`, `ConfNames`, `ConfPlain` | the YAML event parser: what it can change, what it makes of a document, when it succeeds, what lookups find afterwards, and when siblings share a name |
| `Bytes`, `Sequences` | octets, sums, concatenations and first occurrences |

Code that updates state in place is a class or a method with loops, and each such method is tied to a function of the
old state. What the code promises is then proved about those functions, over whole runs. A run is a sequence of steps,
one per critical section or atomic access, in any order the guards allow; a copy that is not atomic takes several.

Some histories exist only to state properties: the log's acknowledged, dropped and transmitted numbers, the accepted and
delivered packets, the accepted voice bytes and written blocks, what replaced calls left behind, and the place of each record and node.

## Findings

Some properties one would expect do not hold of the code as written. For each, the project gives the case that fails and
the exact condition under which it holds.

- A packet with call identifier 0 that takes over a live slot makes the online counter one too high
  (`CallLedger.ZeroIdentifierIsMiscounted`); `CallLedger.OnlineStaysExact` says exactly which steps keep it right.
- The starting packet's time is wiped together with the slot, so the sweep never closes a call that falls silent after its
  first packet. A sweep closes a call exactly when a later packet came and the latest one is sixty seconds old
  (`CallLife.SweepClosesExactly`).
- A packet that comes after both last ones starts its call again, with a second pair of openings and a second record
  (`CallCounts.LatePacketStartsAnotherCall`). A packet starts a call exactly when its slot carries another call or none, and in
  the latter case the packet is young (`CallCounts.EventIsCounted`).
- Playback sends what it announced exactly when the shorter file is below 2 GiB and, if the files are not equally long, the
  smaller of the two sizes modulo 4 GiB is the shorter file's whole 1024-byte chunks (`Playback.PlaybackIsExact`). Below
  4 GiB that means that the files are equally long or no partial chunk of the shorter one is dropped
  (`Playback.PlaybackIsExactBelow4GiB`). Equal files are announced correctly only below 2 GiB
  (`Playback.EqualFilesAreAnnounced`).
- A fetched packet can be overwritten while the worker still reads it through its pointer, in rings of every size
  (`PktFifo.EverySizeCanOverwrite` is such a run). It happens exactly at a write that finds the slot released and every other
  slot full (`PktFifo.WhenTheHeldSlotIsOverwritten`), and in no run in which no put reads a count of size - 1
  (`PktFifo.RoomyRunsNeverOverwrite`).
- The bytes of an acknowledgement cut off by a lost connection are kept, so the next connection's frames are cut at shifted
  places. The codes are those of the two connections' streams apart exactly when the first ended between two frames
  (`AckFraming.StreamsAreApart`, with `CdrSender.AcksFollowTheStream`).
- `FETCH_PHEAD` resets the length after unlocking. Taken as one step it is correct; if another thread enqueues in
  between, a node is lost (`FaxQueue.LateResetLosesANode`). The counted walk appends correctly exactly when the cached length is right
  (`FaxQueue.AppendNeedsTheLength`).
- The YAML parser never sets a node's parent link (`ConfFrame.LoopLeavesUnparented`), and `ConfRemove` unlinks only nodes
  that have one. So removing a setting loaded from a file reports success, changes nothing, and leaves a freed node that
  lookups still find (`ConfTree.LoadAndRemove`). `ConfTree.Conf.Remove` states both cases, and that a removed name is really
  gone exactly when no sibling shares it.
- A key with an underscore is stored mangled but looked up unmangled, so writing it twice makes two siblings of one name
  (`ConfNames.UnderscoredKeyIsDuplicated`). The children stored for a mapping have different names exactly when no key that
  mangling changes has the stored name of an earlier key (`ConfNames.ChildrenDifferUnlessMangledLate`); a plain key written
  twice is recognised and reused.
- A list directly inside a list puts its items under the same node and numbers them from 0 again, so `[[a], b]` makes two
  children named "0" (`ConfNames.NestedListDuplicatesAName`). The children stored for a list have different names exactly when at
  most one list, of it and those directly inside it at any depth, has an item that is not a list
  (`ConfNames.ItemsDifferUnlessListsAreNested`).

## Model

| member | source | states |
|---|---|---|
| CdrWindow.InsertKeepsOk | src/send_cdr.c:71-93 | an insert keeps ack < send <= wait <= ack + 65536, gives up exactly one record, the oldest unacknowledged, exactly when the ring is full, and moves the send cursor only past that record |
| CdrWindow.SendKeepsOk | src/send_cdr.c:126-155 | a batch is a non-empty run of at most 16 records not crossing the array's end, exactly when something waits; what waits strictly shrinks |
| CdrWindow.NamedIsCandidate | src/send_cdr.c:177-186 | a 16-bit code names at most one transmitted record |
| CdrWindow.AckIsExact | src/send_cdr.c:177-186 | an acknowledgement is accepted exactly when it names a transmitted record at or after the last acknowledged one, which becomes the new one; it never moves back or past the last record sent |
| CdrWindow.StaleAckIsIgnored | src/send_cdr.c:177-186 | a code k behind the last acknowledged record is ignored, for every k below 65536 minus the number outstanding |
| CdrWindow.DrainSendsEverything | src/send_cdr.c:126-155 | with no inserts, repeated sends finish and transmit exactly the waiting records, in order, in legal batches |
| CdrRing.HeaderRoundTrip | src/send_cdr.c:157-162 | the batch header is 0, 4, then the first record's 16-bit number and the count, high octets first |
| CdrRing.FullWhenCursorsMeet | src/send_cdr.c:74 | the 16-bit cursors wait and ack are equal exactly when the window is full |
| CdrRing.AckTest | src/send_cdr.c:181-183 | the wrapped 16-bit differences are the true distances |
| CdrRing.BatchSizeFromCursors | src/send_cdr.c:136-150 | the 16-bit comparison and subtraction give the unbounded batch size |
| CdrRing.InsertKeepsStored | src/send_cdr.c:82-88 | after an insert every record in the window is at its number modulo 65536 |
| CdrRing.SliceIsNextBatch | src/send_cdr.c:151-154 | the array slice at the send cursor is the next run of the log |
| CdrRing.Ring.constructor | src/send_cdr.c:57-68 | the ring starts with ack 0, send 1, wait 1 and zeroed records |
| CdrRing.Ring.Insert | src/send_cdr.c:71-93 | the array and 16-bit cursors refine the unbounded window's insert |
| CdrRing.Ring.Send | src/send_cdr.c:126-162 | the batch and header handed to the socket are the next records of the log and their number |
| CdrRing.Ring.UpdateAck | src/send_cdr.c:177-186 | 16-bit acceptance refines the unbounded one |
| CdrRing.Ring.ResetSend | src/send_cdr.c:188-193 | transmission goes back to the record after the last acknowledged |
| CdrSender.StepInv | src/send_cdr.c:71-193 | every insert, connect, disconnect, receive and transmission keeps the sender's invariant |
| CdrSender.RunInv | src/send_cdr.c:71-289 | so does every interleaving of them |
| CdrSender.EveryRecordIsAccountedFor | src/send_cdr.c:71-93 | in every run each inserted record is exactly one of acknowledged (after having been transmitted), dropped by overflow, or in the window |
| CdrSender.NoSurvivorIsSkipped | src/send_cdr.c:188-240 | in every run each record below the send cursor that is neither acknowledged nor dropped is in a batch of the current connection, with its content |
| CdrSender.BatchesAreLegalAndOrdered | src/send_cdr.c:126-175 | in every run the batches of a connection are legal slices of the log and never go back |
| CdrSender.GapsAreDrops | src/send_cdr.c:71-81 | a number skipped between batches, or before the first one, was dropped by overflow |
| CdrSender.LogIsWhatWasInserted | src/send_cdr.c:82-92 | in every run the log is exactly the inserted records, in order |
| CdrSender.TransmitHandsOver | src/send_cdr.c:126-175 | in every reached state a transmission hands over a legal batch at the cursor and moves the cursor behind it, or changes nothing when nothing waits |
| CdrSender.ReceiveActs | src/send_cdr.c:177-186 | in every reached state a receive that completes a frame with command 5 acknowledges the transmitted record its octets name; any other leaves the window unchanged |
| CdrSender.OpenMeansDelivered | src/send_cdr.c:282-287 | in every reached state with an open connection every batch handed to it went out whole |
| CdrSender.FailureIsResent | src/send_cdr.c:225-287 | in every run a failed transmission closes the connection, it is open again only after a reconnect, and the next batch starts with the first record neither acknowledged nor dropped |
| CdrSender.EverythingCanBeAcknowledged | src/send_cdr.c:188-287 | from every reached state reconnecting, transmitting and receiving can get every record acknowledged |
| CdrSender.ReconnectResumes | src/send_cdr.c:225-240 | the first batch after a reconnect starts with the first unacknowledged record |
| AckFraming.FrameRoundTrip | src/send_cdr.c:266-270 | a frame with command 5 carries the code of its last two octets, high one first; any other none |
| AckFraming.DecodeAppend | src/send_cdr.c:259-275 | a receive completes the frame that the earlier bytes left open |
| AckFraming.FragmentationDoesNotMatter | src/send_cdr.c:248-277 | however the bytes are split over receives, the codes and the pending bytes are those of the whole stream cut into four-byte frames |
| AckFraming.SameStreamSameAcks | src/send_cdr.c:248-277 | two fragmentations of one stream give the same codes and pending bytes |
| AckFraming.StreamsAreApart | src/send_cdr.c:218-276 | frames of a later stream are cut where its own are if and only if the earlier bytes end between two frames |
| CdrSender.AcksFollowTheStream | src/send_cdr.c:248-277 | in every run the codes acted on, in order, and the pending bytes are those of all bytes received, whatever the receives and whatever came in between |
| CdrSender.SameBytesSameAcks | src/send_cdr.c:248-277 | two runs that received the same bytes have acted on the same codes |
| CdrThread.Connection.Take | src/send_cdr.c:259-275 | reassembly in the four-byte buffer follows the framing, and remain + received = 4 with remain > 0 always, so the branch for remain = 0 at the loop's head is never taken |
| CdrThread.Connection.EnsureOpen | src/send_cdr.c:225-240 | reload, reconnect and rewind |
| CdrThread.Connection.SendBatch | src/send_cdr.c:282-288 | a failed transmission closes the connection, any other leaves it open, after the send cursor has moved |
| CdrThread.Connection.Turn | src/send_cdr.c:220-289 | one turn of the connection loop is a run of the sender's steps in the order of the code, with any records that other threads enqueue before each of them |
| CdrThread.StepsOfATurn | src/send_cdr.c:220-289 | a turn's own steps: closing on reload, reopening if closed, and with an open socket what was received and a transmission, unless the peer hung up |
| PktFifo.SameSlot | src/pkt_fifo.c:34-38 | numbers within one turn of the ring share a slot only if equal or exactly one turn apart |
| PktFifo.StepInv | src/pkt_fifo.c:17-79 | every micro-step of put and get, parts of the copy included, keeps the ring's invariant |
| PktFifo.DeliversAcceptedInOrder | src/pkt_fifo.c:17-79 | for every interleaving the count stays within the size, delivered packets are a prefix of the accepted ones, unfetched packets are intact, and the out-of-range branch of get is never taken |
| PktFifo.WhenTheHeldSlotIsOverwritten | src/pkt_fifo.c:68-76 | the exact condition under which a write, in the middle or at the end of a copy, overwrites the packet last fetched |
| PktFifo.RoomyRunsNeverOverwrite | src/pkt_fifo.c:17-79 | in a run in which no put reads a count of size - 1 the pointer always shows the packet last fetched |
| PktFifo.EverySizeCanOverwrite | src/pkt_fifo.c:30-76 | a run, for every size, after which the pointer shows another packet than the one fetched |
| PktFifo.HeldPacketIsIntact | src/pkt_fifo.c:68-69 | until then the pointer shows the packet that was fetched |
| PktFifo.StepRefinesQueue | src/pkt_fifo.c:17-79 | each micro-step is one operation of an atomic bounded queue or none |
| PktFifo.RefusedExactlyWhenFull | src/pkt_fifo.c:24-28 | a put is refused exactly when the ring was full as it read the count, whatever the consumer does meanwhile |
| PktFifo.EmptyExactlyWhenNothingWaits | src/pkt_fifo.c:57-63 | a get finds nothing exactly when nothing was unfetched as it read the count, whatever the producer does meanwhile |
| PktFifoRing.Ring.constructor | src/pkt_fifo.c:6-14 | an empty ring of the given size |
| PktFifoRing.Ring.PutTouches | src/pkt_fifo.c:30 | a part of the copy leaves arbitrary contents in the slot |
| PktFifoRing.Ring.PutCopies | src/pkt_fifo.c:30-31 | the completed copy into the slot, as one micro-step |
| PktFifoRing.Ring.GetTakesPointer | src/pkt_fifo.c:68-69 | the pointer into the slot, as one micro-step |
| PktFifoRing.Ring.Put | src/pkt_fifo.c:17-41 | without interference: appended and 0, or full, unchanged and -1 |
| PktFifoRing.Ring.Get | src/pkt_fifo.c:44-79 | without interference: the oldest packet under the pointer and 0, or empty and -2 |
| Sharding.SlotsArePositions | src/voice_parser.c:306-317 | the decoded slot is always in range, and 17-bit positions correspond one-to-one to slots |
| Sharding.EverySlotIsReached | src/voice_parser.c:306-317 | every slot is some identifier's |
| Sharding.PartsOfIdentifier | src/vpu_worker.c:79-87 | start time, unit, line and time slot read back from an identifier composed of them, and the worker is the time slot modulo 8 |
| Sharding.SlotHasOneWorker | src/vpu_worker.c:82-87 | all packets of a slot go to one worker |
| Pipeline.PipeStepInv | src/vpu_worker.c:75-94 | every step of the capture thread and of the eight workers keeps the pipeline's invariant |
| Pipeline.PacketsAreConserved | src/vpu_worker.c:79-142 | in every run the voice and other counters are the numbers of handled packets that are and are not voice; at every quiescent point all packets = lost + voice + other + queued |
| Pipeline.NobodyIsBlocked | src/vpu_worker.c:75-142 | in every reached state any packet can arrive at an idle capture thread and everybody else has a step to take |
| Pipeline.VoicesByOctets | src/vpu_worker.c:136-142 | the packets counted as voice are those of 36 octets or more with 0x80 0x52 at 12 and 0x03 at 16 |
| Pipeline.SlotPacketsByOctets | src/vpu_worker.c:136-142 | exactly those, with an identifier of the slot, reach the slot's handler |
| Pipeline.SlotsSeeCaptureOrder | src/vpu_worker.c:132-142 | in every run in which no packet arrives at a ring with exactly one free slot, each slot's packets reach the handler from one worker only, as a prefix of the slot's accepted packets in capture order |
| FaxQueue.Queue.EnQueue | src/fax_queue.c:71-123 | the counted walk ends at the tail: the node is appended, nothing else moves |
| FaxQueue.Queue.FetchHead | src/fax_queue.c:147-179 | the first node is unlinked, or the list is empty and null is returned |
| FaxQueue.InitQueue | src/fax_queue.c:16-69 | the given number of new nodes, at least one, and an empty queue |
| FaxQueue.WalkAndLink | src/fax_queue.c:101-118 | on any list and any cached length the walk ends, links or crashes as the counted append says |
| FaxQueue.Move | src/fax_decode.c:747 | a fetch and an enqueue move one node between disjoint lists |
| FaxQueue.AppendNeedsTheLength | src/fax_queue.c:101-118 | the walk appends and keeps a right length exactly when the cached length was right |
| FaxQueue.LateResetNeedsAnEmptyList | src/fax_queue.c:163-168 | after the reset, the next two appends keep every node exactly when the list was empty |
| FaxQueue.LateResetLosesANode | src/fax_queue.c:163-168 | a run in which the reset comes after another thread's enqueue and a node is lost |
| CallLedger.StepInv | src/voice_parser.c:417-592 | every packet, sweep, fax and sender step keeps lines, records, nodes and counters consistent |
| CallLedger.PacketActsOnItsSlot | src/voice_parser.c:411-592 | a packet changes its own slot only, as the slot's control function says, and enqueues exactly the nodes that function hands over |
| CallControl.PacketTakesSlot | src/voice_parser.c:432-477 | a packet of another call takes the slot: its flags, files, node and the wiped time stamp, and the old node handed over |
| CallControl.PacketContinues | src/voice_parser.c:411-592 | a packet of the slot's call refreshes the time stamp and its direction's flag, or with both directions over blanks the slot and hands the node over; five hours past the start both are over |
| CallControl.PacketIsRefused | src/voice_parser.c:414-429 | an idle slot takes no packet five hours past its call's start |
| CallLife.LifeBegins | src/voice_parser.c:432-477 | the system's slot after a call's starting packet |
| CallLife.LifeGoesOn | src/voice_parser.c:411-546 | any event that does not end the call leaves its files and node, and its flags and time stamp follow the slot's packets |
| CallLife.LifeEnds | src/voice_parser.c:323-365 | any event that ends the call hands its node over and closes its files; only another call's packet leaves the slot live |
| CallLife.CallEndsExactly | src/voice_parser.c:534-590 | over runs from its starting packet, with only its own young packets in the slot and no sweep after sixty silent seconds, a call has ended, with blank slot, closed files and its node queued, if and only if an up last and a down last have come |
| CallLife.SweepClosesExactly | src/cycle_operation.c:80-88 | a sweep closes a call if and only if a packet after the starting one came and the latest is sixty seconds old or more |
| CallCounts.EventIsCounted | src/voice_parser.c:432-592 | what every counter, the free list and the sender's log owe to any event, by the packet and the slot before it |
| CallCounts.CountersCountTheRun | src/voice_parser.c:432-592 | in every run each counter is the number of events of its kind |
| CallCounts.EveryOpenedCallHasOneRecord | src/voice_parser.c:461-473 | in every run the calls that packets started and whose files opened are exactly those with a record, each in exactly one place, and a slot's record is that of the call it carries |
| CallCounts.FaxThreadServes | src/fax_decode.c:745-890 | a free fax thread takes the first record, passes it on and returns its node |
| CallCounts.LatePacketStartsAnotherCall | src/voice_parser.c:432-473 | a packet after both last ones makes a second call of the same identifier |
| CallLedger.EveryCallHasOneRecord | src/voice_parser.c:461-473 | in every run the record of each call whose files opened is in exactly one place: slot, fax queue, fax thread or one number of the sender's log, where it is exactly one of acknowledged, dropped or in the window |
| CallLedger.NodesArePartitioned | src/voice_parser.c:464-468 | in every run each node is in exactly one of free list, slots, fax queue and fax threads, and only pool nodes are anywhere |
| CallLedger.CallsAreLedgered | src/voice_parser.c:446-476 | in every run started = ended + online = opened + failed, open files and nodes belong to live slots, and enqueued = dequeued + queued |
| CallLedger.FaxIsLedgered | src/fax_decode.c:754-890 | in every run each opened call was refused a node, handed over or still holds it, and each fetched node was judged fax, judged not fax, or is being screened |
| CallControl.Screen | src/fax_decode.c:755-763 | a record is marked fax exactly when one direction's verdict, cut to an octet, is 1 |
| CallLedger.PacketExcess | src/voice_parser.c:432-448 | by how much any packet moves the online counter away from the number of live slots |
| CallLedger.OnlineStaysExact | src/voice_parser.c:446-448 | a step keeps the online counter exact if and only if it is not a packet with identifier 0 that takes over a live slot or completes an idle one's end marks |
| CallLedger.ShutdownIsSafe | src/cycle_operation.c:114-120 | for packets with nonzero identifiers the counter is the number of live slots, and the shutdown test succeeds exactly when there is none; then no file is open and no node held |
| CallLedger.ZeroIdentifierIsMiscounted | src/voice_parser.c:446-448 | a run of two packets from the start after which the counter counts a call that no slot carries |
| CycleThread.Cycle.SweepSlot | src/cycle_operation.c:80-88 | the visit to one slot |
| CycleThread.Cycle.Turn | src/cycle_operation.c:77-120 | the three nested loops visit every slot exactly once, idle ones are closed and others untouched, and shutdown is decided exactly when stopping with no live slot |
| VoiceChannel.Channel.SendVoiceData | src/voice_parser.c:270-295 | the block sent to a listener is the byte interleave of the two buffers |
| VoiceChannel.Channel.WriteVoiceFile | src/voice_parser.c:191-231 | both open files get blocks of the same length |
| VoiceChannel.Channel.EncryptVoice | src/voice_parser.c:368-377 | a part of the buffer is XORed in place, the rest unchanged |
| VoiceChannel.Channel.Store | src/voice_parser.c:494-510 | a payload is cut at the buffer's end, encrypted into it, and copied plain into the fax buffer up to its capacity |
| VoiceChannel.Channel.FlushIfFull | src/voice_parser.c:486-493 | a full buffer is sent to the listener, written and emptied first |
| VoiceChannel.Channel.Cleanup | src/voice_parser.c:323-365 | an abandoned call's files get their last block and are closed, its node is handed over, its end flags stay |
| VoiceChannel.Channel.Own | src/voice_parser.c:417-477 | refusal of stale packets, forced end of long calls, and the take-over of the slot; a replaced call is left as the clean-up leaves it |
| VoiceChannel.Channel.TakeIn | src/voice_parser.c:479-590 | storing, end marks, and the end of a call |
| VoiceChannel.Channel.VoiceParser | src/voice_parser.c:381-595 | the whole handler: refused packets and payloads, new control state, media and nodes handed over |
| VoiceChannel.Channel.SweepSlot | src/cycle_operation.c:81-87 | the sweep's visit, on the slot object |
| VoiceChannel.Channel.Listen | src/file_server.c:402-417 | a request to listen is refused only if someone listens already; the identifier asked for is not compared with the slot's call |
| VoiceChannel.OthersShareTheSlot | src/voice_parser.c:297-320 | every identifier shares its slot with another one |
| VoiceChannel.NewCallsMedia | src/voice_parser.c:433-462 | a call starts with empty buffers over its own two files and nobody listening |
| Recording.EncryptTwice | src/voice_parser.c:368-377 | encryption is its own inverse |
| Recording.InterleaveAppend | src/voice_parser.c:280-283 | interleaving chunk by chunk is interleaving the whole |
| Recording.StoredTrack | src/voice_parser.c:494-510 | a stored payload keeps: count within 8192, the window is the accepted bytes encrypted, the fax buffer is the first 512 KiB accepted |
| Recording.FlushInv | src/voice_parser.c:486-493 | a flush caused by a full buffer writes exactly 8192 bytes to both files |
| Recording.AcceptInv | src/voice_parser.c:479-546 | every packet of either direction keeps the call's media invariant |
| Recording.EveryAcceptedByteIsStored | src/voice_parser.c:479-590 | for every call that ends or is abandoned, each file that was opened is its old contents and the blocks, whose used parts decrypt to exactly the accepted bytes in order, the last block as long as the fuller buffer; the fax buffers are the first 512 KiB |
| Recording.StoredByteAt | src/voice_parser.c:201-377 | byte by byte: each used sample of a block stands at the block's place in the file and is the accepted byte XORed with 0x53 |
| Recording.PayloadIsTakenIn | src/voice_parser.c:486-500 | a payload is taken in as far as its buffer has room, after a full buffer of its own direction, and only such a one, was written out |
| Recording.FilesStayEquallyLong | src/voice_parser.c:201-228 | files that start equally long stay so at every flush, at the end and on clean-up |
| Recording.ListenerHearsTheFiles | src/voice_parser.c:486-490 | a listener hears, alternately, exactly the bytes the two files gained since attaching, the last block included if it is taken whole |
| Recording.WholeBlocksKeepListening | src/voice_parser.c:286-292 | a listener stays as long as every block is taken whole, and is dropped at the first that is not |
| Recording.UniformPayloadsAreNeverCut | src/voice_parser.c:494-499 | if every payload has one length that divides 8192, no byte is cut off |
| Playback.CheckVoiceFile | src/file_server.c:146-279 | the first directory with both files of a kept call, else of a normal one unless only kept calls are wanted, and its announced size; -2 without a local time, -1 if there is none |
| Playback.Play | src/file_server.c:384-397 | the chunked loop sends the interleave of equal files entirely, else of the whole chunks of the shorter one |
| Playback.PlaybackIsExact | src/file_server.c:222-224 | for all sizes, the announced size is what is sent if and only if the shorter file is below 2 GiB and the files are equal, or the longer one's size modulo 4 GiB is not below the shorter's, which ends on a chunk, or is below it and just what is sent |
| Playback.PlaybackIsExactBelow4GiB | src/file_server.c:222-224 | below 4 GiB, if and only if the shorter file is below 2 GiB and the files are equal or it ends on a chunk |
| Playback.EqualFilesAreAnnounced | src/file_server.c:222-224 | equal files play in full; their size is announced correctly if and only if below 2 GiB |
| Playback.RecordedCallsPlayInFull | src/file_server.c:384-397 | every call recorded into equally long files plays back completely |
| EcmPage.Receiver.HdlcAccept | src/fax_decode.c:260-312 | frames are stored by number with their length; mode and fax flags follow the other commands |
| EcmPage.Receiver.T4Begin | src/fax_decode.c:315-330 | a page begins with no stored frames |
| EcmPage.Receiver.T4End | src/fax_decode.c:333-358 | in error-correcting mode the stored payloads are replayed in numeric order |
| EcmPage.PageReplaysLastPayloads | src/fax_decode.c:287-295 | whatever messages come in a page, the image is the last accepted payload of each number in order if the last mode set is error-correcting, else nothing |
| EcmPage.PageIgnoresOrder | src/fax_decode.c:341-345 | frame lists with the same frames make the same page |
| EcmPage.ImageIgnoresArrivalOrder | src/fax_decode.c:287-345 | reordering and repetition do not change the replayed image if the last mode set is the same |
| EcmPage.FullPageIsReplayed | src/fax_decode.c:260-345 | up to 256 frames of up to 256 octets, in any order with repeats after a mode command with its bit set, are replayed as their payloads one after another |
| EcmPage.DataFrameIsStored | src/fax_decode.c:287-295 | a data frame is stored by its number up to 256 octets, a longer one ignored |
| EcmPage.OthersAreIgnored | src/fax_decode.c:268-283 | line conditions, bad frames and frames with another header change nothing |
| EcmPage.ShortModeCommand | src/fax_decode.c:210-252 | a mode command below six octets is ignored, one of six turns error correction off |
| EcmPage.FaxFlagFollows | src/fax_decode.c:300-302 | the fax flag is up exactly when a good confirmation frame has come |
| EcmPage.EndingTwice | src/fax_decode.c:337-357 | a second end of a page adds nothing |
| Request.FillInfo | src/conn_serv.c:33-49 | type, length and value at the offset, the rest of the packet unchanged |
| Request.WriteRequest | src/conn_serv.c:73-94 | fields at running offsets and the outer header make the encoded request |
| Request.CmdParser | src/file_server.c:82-143 | the walk returns 0 and the values found exactly when the parse of the buffer succeeds; it terminates on every input |
| Request.WalkEncoded | src/file_server.c:109-136 | encoded fields are noted each in turn, whatever follows them |
| Request.RequestRoundTrip | src/file_server.c:82-143 | any list of fields, in any order with repeats, reads back as the last value of each type if all four occur and is rejected otherwise, whatever memory holds behind the message |
| Request.HeaderIsChecked | src/file_server.c:101-106 | only a message of type 1 that states its true length is parsed |
| Request.FieldOctets | src/conn_serv.c:33-49 | the octets of each kind of field, high ones first |
| Request.UnknownTypeIsRefused | src/file_server.c:129-132 | a field of an unknown type anywhere makes the message refused, unless it is an empty one at the very end |
| Tailq.Head.InsertTail | src/yaml_conf.h:69-74 | the element is appended; forward links, back addresses and the head stay consistent; on node numbers it is the addition in ConfStore.AddNode |
| Tailq.Head.Remove | src/yaml_conf.h:95-104 | exactly that element leaves, the others keep their order, its own links become invalid; on node numbers it is the removal in ConfStore.Unlink |
| Tailq.Head.Lookup | src/yaml_conf.c:613-624 | the first element with the name, or none |
| ConfStore.FindIsInjective | src/yaml_conf.c:95-130 | different paths lead to different nodes |
| ConfStore.AssignChangesOnePath | src/yaml_conf.c:165-169 | assigning a node changes the value of its path alone |
| ConfStore.AppendAddsOnePath | src/yaml_conf.c:184-190 | a new child makes exactly one new path, without a value |
| ConfStore.UnlinkFind | src/yaml_conf.c:478-484 | unlinking a node removes exactly the paths through it if and only if no sibling has its name |
| ConfStore.SiblingsAreApart | src/yaml_conf.h:31-41 | the subtrees of two children of one node have no node in common |
| ConfStore.UnlinkedSubtreeIsUnreachable | src/yaml_conf.c:71-85 | after unlinking, nothing below the root is in the unlinked subtree |
| ConfTree.TokensOfJoin | src/yaml_conf.c:113-127 | every path of non-empty dot-free components is the token list of its dotted name |
| ConfTree.TokensSplitAtDot | src/yaml_conf.c:113-127 | what stands before and after a dot is tokenised apart, so empty pieces vanish |
| ConfTree.UnlinkRemoves | src/yaml_conf.c:478-484 | unlinking removes exactly a path and what extends it from the map if and only if no sibling has the name |
| ConfTree.UnlinkedIsNotDangling | src/yaml_conf.c:71-85 | unlinking a node before its subtree is freed leaves no freed node below the root |
| ConfTree.Conf.LookupChild | src/yaml_conf.c:613-624 | the first child with the name |
| ConfTree.Conf.GetNode | src/yaml_conf.c:95-130 | the node at the end of the path, or none |
| ConfTree.Conf.Get | src/yaml_conf.c:234-245 | the map's entry for the dotted name |
| ConfTree.Conf.Set | src/yaml_conf.c:149-216 | refused with nothing changed exactly when an existing node forbids it; otherwise the path has the value, missing prefixes exist without one, and no other path changes; nothing comes to dangle, and sibling names and parent links stay right where they were |
| ConfTree.Conf.Load | src/yaml_conf.c:930-954 | the parser's result on the nodes there are, 0 exactly for streams that close, else -1; the tree stays a forest and no new node has a parent link |
| ConfTree.Conf.Remove | src/yaml_conf.c:478-507 | with the parent link set, nothing dangles, and exactly the path and its extensions disappear if and only if no sibling has the name; without it the tree is unchanged and lookups still find the freed node |
| ConfTree.LoadAndRemove | src/yaml_conf.c:478-507 | removing any setting that a file has loaded reports success, changes nothing and leaves a freed node that its name still finds |
| ConfYamlParser.Parser.Key | src/yaml_conf.c:841-875 | a key reuses a child of that name or adds a mangled one, and labels a list item |
| ConfYamlParser.Parser.ConfYamlParse | src/yaml_conf.c:793-928 | the event loop with its recursion computes the parse function on every event stream, and terminates |
| ConfFrame.LoopBelow | src/yaml_conf.c:793-928 | on any event stream, well formed or not, a call changes only its parent node, nodes below it and new ones; every node stays linked at most once and keeps its name, flags, parent link and children, and its value if it forbids overriding |
| ConfFrame.LoopLeavesUnparented | src/yaml_conf.c:793-928 | no node made by a call has the parent link that removal needs |
| ConfDocument.ParseValue | src/yaml_conf.c:876-911 | any value's events are consumed exactly and merged into the tree at the key's node |
| ConfDocument.ParseEntries | src/yaml_conf.c:841-914 | a mapping's events, repeated keys included, are consumed through its end event and merged into the parent's tree entry by entry |
| ConfDocument.ParseItems | src/yaml_conf.c:831-893 | a list's events, lists in lists included, are consumed through its end event and added to the parent's tree |
| ConfDocument.FileIsMerged | src/yaml_conf.c:930-954 | over any tree, a file is consumed to its last event and leaves exactly the old tree with the document merged into it |
| ConfOutcome.LoopScans | src/yaml_conf.c:793-928 | the result and the stopping point are those of one scan that counts open collections |
| ConfOutcome.LoadSucceedsExactly | src/yaml_conf.c:793-928 | on any stream the result is 0 if and only if the events close more than they open at some point, every document up to there being of version 1.1; otherwise -1 |
| ConfOutcome.WrongVersionIsRefused | src/yaml_conf.c:810-828 | a file that does not declare version 1.1 is refused with -1 and nothing changed, whatever follows |
| ConfOutcome.TruncatedFileFails | src/yaml_conf.c:803-808 | a file cut off anywhere before its end gives -1 |
| ConfLoad.AnyStreamKeepsTheForest | src/yaml_conf.c:930-954 | whatever the events and wherever they stop, the tree stays a forest and grows only |
| ConfLoad.FindFollowsTree | src/yaml_conf.c:95-130 | a lookup by path finds what the root's tree has there |
| ConfLoad.LoadedFileAnswersLookups | src/yaml_conf.c:95-130 | after loading any document over any tree, every path lookup finds exactly what the merged tree has there |
| ConfLoad.FilesAreMergedInOrder | src/yaml_conf.c:958-972 | files loaded one after another are merged in that order |
| ConfNames.ChildrenDifferUnlessMangledLate | src/yaml_conf.c:849-872 | for any keys and values, repeats included, the stored children have different names if and only if no key that mangling changes has the stored name of an earlier key |
| ConfNames.StoredName | src/yaml_conf.c:854-871 | a key is stored with every underscore replaced by a dash, except under the two parents that keep them |
| ConfNames.RepeatedKeysKeepTheLastValue | src/yaml_conf.c:849-882 | under plain keys a repeated key keeps its last value and other values stay |
| ConfNames.UnderscoredKeyIsDuplicated | src/yaml_conf.c:849-872 | an underscored key written twice makes two siblings of one name |
| ConfNames.ItemsDifferUnlessListsAreNested | src/yaml_conf.c:831-903 | for any list, the stored children have different names if and only if at most one list, of it and those directly inside it at any depth, has an item that is not a list |
| ConfNames.NestedListDuplicatesAName | src/yaml_conf.c:886-889 | a list in a list with an item after it makes two children named "0" |
| ConfPlain.GoodEntriesAreAdded | src/yaml_conf.c:854-872 | where every key is new when it comes, merging adds exactly one child for every entry, in order |
| ConfPlain.PlainFileBecomesItsTree | src/yaml_conf.c:930-954 | a file with distinct keys without underscores at every level and no list directly in a list leaves exactly the document's tree under a fresh root, nowhere with two siblings of one name |

## Left out

- Packet capture, sockets, select, threads, signals, logging and directory creation are inputs to the steps: whether a
  connect, an open or a write succeeds, which bytes a receive yields, and what the clock says.
- The fax modem, image decoding and the fax servers: the decoder's verdict is an arbitrary integer, and the page is the
  sequence of octets put into it. The header files of the modem library are not part of this model.
- The reload of the fax server list and sending records to fax servers (src/fax_decode.c:769-884).
- The walks over management commands in src/conn_serv.c and the extraction of settings in src/conf.c.
- Choosing a writable directory and building file names (src/voice_parser.c:40-156): an open either succeeds or not, and
  a file may already have contents.
- The per-direction packet numbers and loss counts of a slot (src/voice_parser.c:480-485), which are only logged.
- Request.CmdParser: the source does not check field lengths against the message or the buffer; what lies beyond them is an arbitrary total memory, so a fault on reading it is not modelled.
- EcmPage.Receiver.HdlcAccept: frames are long enough for the octets the code reads of them, because the receiver's minimum length is not in this repository; line encoding, resolution and fallback settings are not modelled.
- FaxQueue.Queue.FetchHead: one step, because the split form breaks the queue as shown; the node's voice buffers are not part of the list model.
- FaxQueue.InitQueue: allocation succeeds; the source retries a failed node allocation without end.
- CycleThread.Cycle.Turn: what other threads do between two visits of one sweep is not in the loop; runs that interleave visits with every other step are those of CallLedger.
- CallLedger.StepInv: a packet is one step of its slot, because the slot's mutex is held throughout, although starting a call zeroes that mutex; a record is the number of its call, so its time, path and flags are not in the log.
- VoiceChannel.Channel.VoiceParser: what a listener received of a write that fell short is not modelled; the last block sent at the end of a call is 16384 bytes whatever the buffers hold, and its surplus is not interpreted.
- ConfTree.Conf.Set: names have at least one component, because the source passes a null component to strcmp otherwise.
- ConfTree.Conf.Load: opening the file and turning its text into events; the events that follow a failure are not read.
- ConfLoad.FilesAreMergedInOrder: the walk over the list of included files, which may itself grow while they are loaded.
- ConfTree.Conf.Remove: nodes are entries of a store in allocation order, not objects of their own, so the contents of freed memory and its reuse are not modelled; Tailq.Head models the links of one sibling list as objects.
- ConfYamlParser.Parser.ConfYamlParse: numbers in node names are not cut at 15 digits, and aliases, styles and line numbers of events are ignored as in the source.
- The endless loops of the capture thread, the workers and the fax threads appear as their repeated steps in Pipeline and
  CallLedger, in any interleaving, rather than as loops.
- Wrap-around of the 64-bit counters and of the 32-bit packet count is not modelled.
