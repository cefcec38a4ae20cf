# Cell publisher: a verified model

The program takes packets from devices, queues them in a byte ring, packs them into fixed-size cells that a CRC-16
protects, and hands received cells from one thread to another through a double-buffered list.  It carries a JSON
reader and writer for its configuration.  This project models those five parts in Dafny and proves what each is for.

| part | modules |
|---|---|
| octets, 16-bit words and their bits; stores into a buffer | `Bytes`, `Memory` |
| CRC-16: table form, long division, what it detects, and what it detects stored low octet first | `Crc16`, `CrcDetection`, `SwappedChecksum` |
| the packet ring, whole runs of it, and its guard | `Ring`, `RingRuns`, `RingGuard`, `FifoQueues` |
| frames in a cell, and greedy packing from the ring | `CellPacking`, `PackingRuns` |
| marks, data cells, signaling cells, register packets | `CellMarks`, `CellBuilder`, `Decimal`, `RegisterCell` |
| the double-buffered cell list and its two threads | `DbCellLists`, `DbCellRuns` |
| JSON: tree, scanner, parser, grammar, writer, round trips | `JsonTree`, `JsonScanner`, `JsonTiling`, `JsonParser`, `JsonGrammar`, `JsonWriter`, `JsonRoundTrip` |
| JSON: layout of written text, white space, strings, numbers, blame for a rejected document | `JsonLayout`, `JsonPretty`, `JsonSpacing`, `JsonStrings`, `JsonNumbers`, `JsonBlame` |

`dafny verify dfyconfig.toml` checks everything.

What the program updates in place is a class or an array here, and each of its methods is tied by its `ensures` to a
function on values; the theorems are about those functions.  Octets are integers below 256 and words integers below
65536, the host is little-endian, and `|` and `^` are defined bit by bit.

## Main results

* **CRC.** The 256-entry table loop is schoolbook long division by x^16 + x^15 + x^2 + 1 for every initial register
  and every message (`TableFormIsDivision`), it is linear (`FoldXor`), any damage within 16 consecutive bits changes
  it (`BurstDetected`), and 17 bits can escape (`DivisorGoesUnnoticed`).
* **Ring.** The bytes refine a first-in first-out queue of packets in every run whose accepted pushes find room in
  front of the reader (`SafeRunsRefine`), and that condition is exact (`SafeIff`).  It always holds with M + 3 bytes
  to spare for packets of at most M bytes (`SparedRunsRefine`), and under the program's own guard when all packets
  have one length (`UniformRunsRefine`, `OneLengthNeedsNoMore`).
* **Packing.** Greedy packing conserves the queue, its cells decode to the packets packed, and no longer run of
  packets would have fitted (`PackCompleteMsgPack`, `PackedCellDecodes`, `PackedMost`); nothing is lost or reordered
  whatever safe pushes of the receiving thread fall between the loop's peeks and pops (`PackingConserves`).
* **Cells.** Every octet of a data cell is given, for any packet and any cell of at least 24 octets (`DataCellFields`),
  and of the answer to a register packet of either subtype, labels that outgrow the cell included (`RegisterAnswered`,
  `NoLabelsAnswered`, `StationLabel`, `StationUnknown`).  A receiver recovers what they hold (`DataCellDecodes`).
  Sealed legacy cells divide without remainder (`SealLegacyCell`), and any burst of 16 bits is noticed in them
  (`DamagedLegacyCellRejected`).  Data and signaling cells store their checksum low octet first: in them a window of 16
  bits lets no damage pass exactly when at least 14 of its bits lie in front of the checksum, or none
  (`BurstsCaughtIff`).
* **Cell list.** In every interleaving packets arrive once, in order and intact (`PacketsInOrder`), each cell is in
  exactly one place and none is allocated in vain (`CellsOwned`), and no packet is stranded even if notifications are
  lost (`NoneStranded`, `AllDelivered`).  A push ends the wait exactly when ten cells were waiting already, and then four
  steps of the consumer deliver the oldest packet without a timeout (`PushWakesIff`, `PushDelivers`).
* **JSON.** The scanner yields exactly the tilings of a document (`ScanIff`), the parser accepts exactly the grammar's
  derivations with distinct names (`ParseIff`), and a tree survives writing and reading exactly when its numbers are
  ints and the names within each object differ (`RoundTrip`); what was read once reads the same again (`ReadStable`).
  A number reads as what it denotes exactly when an int can hold that (`NumberReadIff`).
  Written text is the pretty-printing of its tokens, each line indented by as many tabs as brackets are open
  (`TextIsLayout`, `LinesIndented`).  Any of the six blank characters between tokens changes nothing, and any other that
  begins no token is refused where it stands (`BlanksIgnored`, `StrayCharacter`, `CrlfRead`).  A rejected document is
  blamed on the first token that no tree's tokens continue with (`FirstMisfit`, `NothingHelps`).

## Where the code falls short of its intent

The model keeps the code as it is.  Each of these is a lemma with a concrete input or an exact condition:

* The guard of `FifoQueue::PushPacket` (fifo_queue.cpp:46) counts packets and their headers but not the tail skipped
  at the end of the buffer.  `GuardAloneOverruns` gives eight operations on 100 bytes, all accepted, after which a pop
  reads beyond the buffer.
* The comment at fifo_queue.cpp:43-45 says that 2 * len + 2 bytes are reserved for the case of len + 1 bytes on either
  side.  The guard lets that case through: `EmptyQueueLosesPacket` shows that then even an empty queue loses the
  packet, because its last byte falls on the end marker, and `EmptyQueueLosesPacketRun` is a run that gets there.
* The publisher swaps its checksum twice (publisher.cpp:440-442, 545-547), so it travels low octet first and the cell is
  no multiple of the divisor.  `EscapingBurst` damages any such cell within nine consecutive bits, the last octet in
  front of the checksum and the first of the checksum, and the checksum still matches; `BurstsCaughtIff` is the exact
  condition.
* Up to 255 labels are accepted whatever the cell's size (publisher.cpp:383-386), and the checksum goes behind them.
  So cells of n labels all arrive with a matching checksum if and only if 26 + 2 * n is at most the size: `AllMatchIff`.
* The eleven-bit fields of split marks (publisher.cpp:509-516) are shifted by five and overlap the class bits.  They
  decode exactly below 64 (`HeadMarkIff`, `MiddleMarkIff`); above, a first fragment can pass for a middle or last one
  (`HeadMarkReads`, `MiddleMarkReads`).
* The eleven-bit length of a frame head decodes exactly below 2048: `FrameHeadDecodes`.
* json/reader.h:106 describes tokens with a fraction, but no such token parses (json/reader.inl:523-541), and one of
  them anywhere rejects the document: `DoubleNeverParses`, `PointRejected`, `NoDoubleElement`.
* The parser looks only at whether the whole token was consumed (json/reader.inl:508-518).  So tokens parse exactly when
  they are digits behind at most one sign (`ParsesIff`), and one with digits gives the integer it denotes exactly when
  an int can hold it, else the nearest int (`DenotedIff`, `NumberReadIff`, `PrintedRead`).  A lone `-` reads as 0
  (`LoneMinus`), and 2147483648 as 2147483647 (`OneTooMany`).
* The set of numeric characters includes the terminator of the literal it is made from (json/reader.inl:356-358), so a
  NUL behind a number is taken into its token, which then does not parse: `TerminatorJoins`.

Two comments differ from the code without consequence: they announce a header of seven octets (publisher.cpp:401, 468)
where six are written, and a fill of zeros (publisher.cpp:433) where the octets are three.

## Model

| member | source | states |
|---|---|---|
| Crc16.Entries | CRC_16.cpp:9-42 | all 256 literals of the table: the entry for an index is determined by the parities of the index's leading bits, in the four groups of four bits given |
| Crc16.TableResponds | CRC_16.cpp:9-42 | the table entry at an octet is what an empty 16-cell shift register holds after the octet's eight bits |
| Crc16.ByteStep | CRC_16.cpp:54-58 | one step of the table form is eight steps of bit-serial division |
| Crc16.FoldFeeds | CRC_16.cpp:60-66 | the loop over a buffer is bit-serial division of the whole message, for every initial register |
| Crc16.TableFormIsDivision | CRC_16.cpp:54-66 | the loop computes the remainder of long division of the message times x^16 by x^16 + x^15 + x^2 + 1, the initial register added to the leading terms |
| Crc16.Crc | CRC_16.cpp:60-66 | the array loop returns that remainder with its octets swapped, and changes nothing |
| CrcDetection.FoldXor | CRC_16.cpp:54-66 | the CRC is XOR-linear in register and buffer together |
| CrcDetection.SameCrcIff | CRC_16.cpp:60-66 | two buffers of one length have equal CRCs if and only if the divisor divides their difference |
| CrcDetection.BurstDetected | CRC_16.cpp:54-66 | two different buffers of any length that agree outside 16 consecutive bits have different CRCs |
| CrcDetection.DivisorGoesUnnoticed | CRC_16.cpp:60-66 | the bound is sharp: a certain 17-bit burst anywhere in any message leaves the CRC unchanged |
| CrcDetection.ResidueIff | CRC_16.cpp:60-66 | a message and two more octets give CRC 0 if and only if those octets are its CRC, high octet first |
| CrcDetection.FoldConcat | CRC_16.cpp:60-66 | the CRC of a buffer in two parts continues from the first part's |
| Ring.SafeIff | fifo_queue.cpp:43-57 | of the pushes the guard accepts, exactly those without room in front of the reader overwrite an unread byte or their own end marker |
| Ring.PushAppends | fifo_queue.cpp:51-65 | a safe push leaves bytes, positions and counters holding the old packets and the new one behind them, through every kind of rewind |
| Ring.ReaderFindsOldest | fifo_queue.cpp:86-94 | at the end of the buffer, at an end marker or in place, the reader finds the record of the oldest packet |
| Ring.PopTakesOldest | fifo_queue.cpp:86-98 | a pop stays in the buffer, delivers the oldest packet whole and leaves the others |
| Ring.PeekKeepsQueue | fifo_queue.cpp:101-118 | a peek answers the length of the oldest packet, and the queue is the same even when the read position moved |
| RingRuns.StepRefines | fifo_queue.cpp:30-118 | every operation but an unsafe push does to the bytes what the bounded queue does to its packets, with the same answer, refusals and waits included |
| RingRuns.SafeRunsRefine | fifo_queue.cpp:30-118 | whole runs of such operations stay in the buffer and give the callers exactly the answers of the bounded queue |
| RingRuns.SparedRunsRefine | fifo_queue.cpp:35-99 | packets of 1 to M bytes pushed while M + 3 bytes stay free: no push is refused, every run refines the queue, and the skipped tail never exceeds M + 1 |
| RingRuns.PeekThenPop | fifo_queue.cpp:73-118 | after a peek that answers L and any safe pushes, the next pop delivers the then oldest packet, of L bytes |
| RingGuard.AcceptsIff | fifo_queue.cpp:46-49 | with packets of one length held, the guard accepts another if and only if their number plus 2 is at most (N + 2) / (len + 2); so it never refuses at N / (len + 2) - 2 or fewer |
| RingGuard.UniformPushSafe | fifo_queue.cpp:46-57 | with packets of one length an accepted push is safe, and rewinds exactly when the last whole slot is used |
| RingGuard.UniformRunsRefine | fifo_queue.cpp:30-118 | with packets of one length the guard alone keeps every run safe and true to the queue, from any aligned state |
| RingGuard.OneLengthNeedsNoMore | fifo_queue.cpp:30-118 | the same from an empty ring of any size; at most N / (len + 2) packets are ever held |
| RingGuard.GuardAloneOverruns | fifo_queue.cpp:46-57 | with mixed lengths the guard is not enough: a run of accepted pushes on 100 bytes after which a pop reads beyond the buffer |
| RingGuard.EmptyQueueLosesPacket | fifo_queue.cpp:43-57 | with len + 1 bytes on either side of the positions an empty queue accepts a packet and cannot deliver it |
| RingGuard.EmptyQueueLosesPacketRun | fifo_queue.cpp:35-99 | from an empty ring one packet in and out leads there: the next packet is accepted and the pop after it does not deliver it |
| FifoQueues.FifoQueue.constructor | fifo_queue.cpp:8-24 | a new queue holds no packets |
| FifoQueues.FifoQueue.Reset | fifo_queue.cpp:30-33 | positions and counters return to zero, bytes stay, no packets are held |
| FifoQueues.FifoQueue.PushPacket | fifo_queue.cpp:35-71 | refused exactly by the guard; otherwise the stores amount to the push, and a safe one appends its packet |
| FifoQueues.FifoQueue.FindRecord | fifo_queue.cpp:86-93 | the part that pop and peek share moves the read position to where the next record is and loads its length |
| FifoQueues.FifoQueue.PopPacket | fifo_queue.cpp:73-99 | the oldest packet is copied to the destination and nothing else is, and the queue loses just that packet |
| FifoQueues.FifoQueue.PeekNextPackLen | fifo_queue.cpp:101-118 | 0 for an empty queue, else the length of the oldest packet; the queue does not change |
| CellPacking.PackMsgPacketHead | pub_worker.cpp:618-625 | clearing the target and ORing the four fields into it stores the frame head, and nothing else changes |
| CellPacking.FrameHeadIsSum | pub_worker.cpp:618-625 | the ORed fields do not overlap, for any part, type and length |
| CellPacking.FrameHeadDecodes | pub_worker.cpp:693 | the decode recovers type and part as their fields hold them and the length modulo 2048; it is the length if and only if that is below 2048 |
| CellPacking.FrameHeadOnTheWire | cell_factory.h:42-44 | high octet first, a frame head is 3 bits type, 2 bits part and 11 bits length |
| CellPacking.WalkFindsFrames | pub_worker.cpp:618-625 | following frame heads over back-to-back frames up to a zero word gives back exactly their packets, in order |
| CellPacking.PackCompleteMsgPack | pub_worker.cpp:596-616 | the queue before is the packets packed and the queue after; the cell holds their frames and is otherwise untouched; the count matches; on exit the queue is empty or the next packet does not fit; the loop ends |
| CellPacking.PackedMost | pub_worker.cpp:601-607 | stopping there, no longer run of packets from the front would have fitted |
| CellPacking.PackedCellDecodes | pub_worker.cpp:596-616 | in a cleared cell the receiver's walk over the packed region yields the packed packets |
| PackingRuns.Conserved | fifo_queue.cpp:35-99 | in every run without a reset, packets held before and accepted = packets delivered and held after, in order |
| PackingRuns.PackEffect | pub_worker.cpp:601-613 | with arbitrary pushes between its peeks and pops, the loop's operations deliver the packets packed and leave the rest |
| PackingRuns.PackGreedy | pub_worker.cpp:601-607 | even so the frames end where the sizes of the packets packed say, within the room, and the loop stops only when nothing is left or the next packet does not fit |
| PackingRuns.PackingConserves | pub_worker.cpp:601-613 | the same on the bytes of the ring, for safe pushes: nothing is lost or reordered between packing and receiving thread |
| PackingRuns.PackAlone | pub_worker.cpp:596-616 | without arrivals this is the longest run of packets that fits, as `PackCompleteMsgPack` promises |
| CellMarks.UnsplitMarkDecodes | publisher.cpp:481-505 | for each of the five classes of unsplit data the mark gives back the class, the length and the container count as its field truncates it |
| CellMarks.HeadMarkIff | publisher.cpp:509-512 | the mark of a first fragment gives back the number of fragments if and only if it is below 64 |
| CellMarks.MiddleMarkIff | publisher.cpp:513-516 | the mark of a middle fragment gives back its number if and only if it is below 64 |
| CellMarks.HeadMarkReads | publisher.cpp:509-512 | what a first fragment's mark is read as for any number of fragments: the bit of 64 makes it a middle mark, that of 128 a tail mark, and those above are lost |
| CellMarks.MiddleMarkReads | publisher.cpp:513-516 | what a middle fragment's mark is read as for any number: the bit of 64 is lost in the class, and that of 128 makes it a tail mark |
| CellMarks.TailMark | publisher.cpp:517-521 | the mark of a last fragment gives back the length modulo 512 |
| CellMarks.SplitMarksDistinct | publisher.cpp:506-522 | below 64 fragments, first, middle and last marks are never read as one another, whatever the fragment's number |
| CellBuilder.WriteHeader | publisher.cpp:455-478 | the field-by-field writes leave the eighteen header octets and nothing else in the cleared cell |
| CellBuilder.HeaderDecodes | publisher.cpp:388-411 | security level, kind and business identifier are read back, big-endian, at their offsets; the rest is zero |
| CellBuilder.BuildDataCellPacket | publisher.cpp:449-551 | writing through the moving position fills exactly the cell, whatever the packet, cut to the room there is |
| CellBuilder.DataCellHead | publisher.cpp:457-478 | every data cell opens with the header of kind 1 |
| CellBuilder.DataCellSum | publisher.cpp:545-547 | the last two octets, low octet first, are the CRC recomputed over the cell behind the security head |
| CellBuilder.PublisherHeader | publisher.cpp:457-478 | the eighteen header octets, one by one |
| CellBuilder.DataCellFields | publisher.cpp:449-551 | every octet of every data cell, for any packet and any cell of at least 24 octets: header, mark, label high octet first, the payload's first octets, as many as fit or all zeros without data, zeros behind them, and the checksum |
| CellBuilder.DataCellDecodes | publisher.cpp:449-551 | for lengths up to 467 that fit, a receiver recovers mark, label and payload, with zero padding and a matching checksum |
| SwappedChecksum.FewBitsBehind | CRC_16.cpp:54-66 | fourteen or fifteen damaged bits at the end of a message never leave just the one or two checksum bits behind them |
| SwappedChecksum.ForgedSealed | publisher.cpp:545-547 | changing the last octet of a message by k and its checksum by the table entry of k goes unnoticed, for every k and every message |
| SwappedChecksum.BurstCaught | publisher.cpp:545-547 | with the checksum low octet first, damage in a window with at least 14 bits of the message, or none, is noticed |
| SwappedChecksum.AllCaughtIff | publisher.cpp:545-547 | these are exactly the windows in which no damage escapes |
| CellBuilder.DataCellMatches | publisher.cpp:545-547 | every data cell has a matching checksum |
| CellBuilder.DamagedDataCellRejected | publisher.cpp:545-547 | a cell with a matching checksum, data or signaling, that is changed in such a window, the checksum included, fails the receiver's check |
| CellBuilder.DamagedContentRejected | publisher.cpp:545-547 | so does one changed within any 16 consecutive bits in front of its checksum |
| CellBuilder.EscapingBurst | publisher.cpp:545-547 | every cell with a matching checksum can be changed within nine consecutive bits so that it still matches and is still accepted |
| CellBuilder.BurstsCaughtIff | publisher.cpp:545-547 | for every such cell, a window lets no damage pass if and only if at least 14 of its bits lie in front of the checksum, or none |
| CellBuilder.StoreChecksum | publisher.cpp:545-547 | the checksum, swapped twice, is stored low octet first at the position, and nothing else changes |
| CellBuilder.SealLegacyCell | pub_worker.cpp:458-461 | after the store, the CRC from 0 over everything behind the security head, checksum included, is 0 |
| CellBuilder.DamagedLegacyCellRejected | pub_worker.cpp:458-461 | a sealed cell changed within 16 consecutive bits, checksum included, no longer gives 0 |
| CellBuilder.Net32Reverses | publisher.cpp:429-431 | an address loaded in host order and stored in network order comes out with its octets reversed |
| CellBuilder.BuildSignalingCellPacket | publisher.cpp:376-446 | refused exactly above 255 labels, with the cell cleared; otherwise mark, labels, address, fill and checksum are written in this order, also when they outgrow the cell |
| Decimal.AtoiOfDigits | publisher.cpp:423 | `atoi` of a number printed in decimal is the number |
| Decimal.AtoiReads | publisher.cpp:423 | `atoi` of white space, one sign, digits and a rest is the signed number that the digits denote |
| Decimal.AtoiOfNothing | publisher.cpp:423 | and 0 when no digits stand there |
| Decimal.Canonical | json/writer.inl:124-127 | printed numbers are digits without a leading zero that denote the number |
| RegisterCell.LabelRoundTrip | publisher.cpp:301-306 | a label printed in decimal, parsed and stored comes out as the two octets it was |
| RegisterCell.LabelsPassThrough | publisher.cpp:300-309 | so do all labels of a packet, in order |
| RegisterCell.CollectLabels | publisher.cpp:290-321 | the loop collects the decimal texts of the packet's labels; for the other subtype, the one label known for the station, if any; their number is given |
| RegisterCell.HandleRegisterCellResponse | publisher.cpp:269-342 | a cell is sent if and only if the packet is long enough, the subtype known and the labels at most 255, and it is the signaling cell for that packet |
| RegisterCell.SignalingMarkDecodes | publisher.cpp:413-417 | the mark of a signaling cell gives back its class and the number of labels, up to 255 |
| RegisterCell.SignalingCellMatches | publisher.cpp:440-442 | every signaling cell that holds its labels has a matching checksum |
| RegisterCell.RegisterAnswered | publisher.cpp:269-446 | subtype 1, for any number of labels from 1 to 255: header, the count, the packet's label octets unchanged, the reversed address, the fill of threes and the checksum, each at its offset, also when the labels outgrow the cell; what lies further behind is untouched |
| RegisterCell.NoLabelsAnswered | publisher.cpp:290-312 | subtype 1 without a label part, or of odd label length, is answered with the count 0 and the address behind it |
| RegisterCell.StationAnswered | publisher.cpp:313-322 | subtype 3 is answered with the count 1 and the value of the label known for the station, whatever labels the packet carries |
| RegisterCell.StationLabel | publisher.cpp:313-322 | for a label in decimal below 65536 those two octets are its number, high octet first |
| RegisterCell.StationUnknown | publisher.cpp:313-322 | subtype 3 without a known label is answered with the count 0 and the address behind it |
| RegisterCell.LabelReads | publisher.cpp:421-426 | any label text of white space, a sign, digits and a rest counts as the signed number modulo 65536 |
| RegisterCell.AllMatchIff | publisher.cpp:383-442 | signaling cells of n labels all have a matching checksum if and only if the labels leave room for it in the cell |
| RegisterCell.OutgrownFails | publisher.cpp:432-442 | for every cell whose labels outgrow it there is another with as many labels such that not both match |
| RegisterCell.SignalingFields | publisher.cpp:376-446 | every octet of a signaling cell for up to 255 labels; labels that outgrow the cell push the checksum behind them |
| DbCellLists.DbCellList.constructor | db_cell_list.cpp:9-35 | both work lists empty, the flag up, and that many idle cells |
| DbCellLists.DbCellList.AcquireCell | db_cell_list.cpp:39-42 | the front of the idle list, or a new cell when it is empty |
| DbCellLists.DbCellList.PushCell | db_cell_list.cpp:46-52 | the cell goes behind the written list; the reader is notified exactly when the flag is up and more than ten cells wait |
| DbCellLists.DbCellList.PushPacket | db_cell_list.cpp:37-54 | the three sections together: acquire, load and enqueue |
| DbCellLists.DbCellList.ExchangeRwPtr | db_cell_list.cpp:89-95 | the roles of the work lists are swapped and the flag goes down |
| DbCellLists.DbCellList.PopFront | db_cell_list.cpp:84-86 | the front of the read list is taken |
| DbCellLists.DbCellList.RecycleCell | db_cell_list.cpp:116-121 | the cell goes behind the idle list |
| DbCellLists.ActOwned | db_cell_list.cpp:37-121 | every step of either thread keeps each allocated cell in exactly one of five places |
| DbCellLists.ActPlaced | db_cell_list.cpp:56-95 | every step keeps the wait loop's conditions: what flag and lists must be at each point of it |
| DbCellLists.ConsumeOrdered | db_cell_list.cpp:56-121 | no step of the consumer loses, repeats or reorders a packet |
| DbCellLists.ProduceOrdered | db_cell_list.cpp:37-54 | nor does a step of the producer, although it writes into cells used before |
| DbCellLists.ActThrifty | db_cell_list.cpp:39-42 | a cell is allocated only when all others are in use |
| DbCellLists.StepInv | db_cell_list.cpp:37-121 | every step of either thread, timeouts and lost notifications included, keeps the invariant |
| DbCellRuns.PacketsInOrder | db_cell_list.cpp:37-121 | in every run, packets pushed = delivered, then in the consumer's hand, then the read list, then the write list, with the bytes that were pushed |
| DbCellRuns.ExchangeGuarded | db_cell_list.cpp:56-95 | in every run an exchange happens only with the read list empty and the write list not, and the front is never taken of an empty list |
| DbCellRuns.CellsOwned | db_cell_list.cpp:29-48 | in every run each allocated cell is in exactly one place, and allocations are the larger of Init's count and the peak simultaneous demand |
| DbCellRuns.ConsumeCloser | db_cell_list.cpp:56-87 | while a packet is undelivered, each step of the consumer delivers one or comes closer to it |
| DbCellRuns.ProduceNoFarther | db_cell_list.cpp:37-54 | no step of the producer moves the consumer farther away |
| DbCellRuns.NoneStranded | db_cell_list.cpp:50-87 | from any reachable state with k packets undelivered, 8 k consumer steps deliver them, wherever the producer's steps fall and whatever notifications are lost |
| DbCellRuns.AllDelivered | db_cell_list.cpp:50-87 | after 8 consumer steps for each undelivered packet, everything pushed until now has been delivered in order |
| DbCellRuns.PushWakesIff | db_cell_list.cpp:46-52 | a push turns a waiting consumer to signalled if and only if ten cells stand in the write list before it, leaves it waiting otherwise, and moves a consumer in no other state |
| DbCellRuns.OnlyPushWakes | db_cell_list.cpp:37-48 | no other step of the producer moves the consumer; packets of up to 491 octets are loaded, longer ones, which the assertion stops, are not |
| DbCellRuns.SignalDelivers | db_cell_list.cpp:56-87 | from a signal on, the consumer's next four steps leave the wait, exchange the lists, take the front and hand on the oldest packet |
| DbCellRuns.PushDelivers | db_cell_list.cpp:46-87 | so a push on ten waiting cells delivers the oldest packet in four consumer steps, none of them a timeout |
| DbCellRuns.WaitSteps | db_cell_list.cpp:56-95 | the steps of the wait: to the wait, to its timeout, and from there on to the exchange if there is anything to read, else back; and the hand-back of the cell |
| JsonTree.EqualIff | json/elements.inl:239-257 | the recursive comparison of elements is equality of trees |
| JsonTree.Object.Find | json/elements.inl:281-289 | the first member of that name, or the end if there is none |
| JsonTree.Object.Insert | json/elements.inl:291-304 | appended unless the name is taken; names stay distinct |
| JsonTree.Object.Index | json/elements.inl:311-321 | the member of that name, added as null if missing; names stay distinct |
| JsonScanner.PlaceMeaning | json/reader.inl:87-102 | a location counts the newlines, the characters since the last newline and the characters consumed |
| JsonScanner.InputStream.Get | json/reader.inl:87-102 | one character is consumed and the location stays that of the position |
| JsonScanner.EatWhiteSpace | json/reader.inl:285-290 | stops behind the white space |
| JsonScanner.MatchExpectedString | json/reader.inl:292-307 | succeeds exactly where the string stands; otherwise fails at the place behind the first character that differs |
| JsonScanner.MatchString | json/reader.inl:310-351 | collects the characters up to the closing quote with escapes resolved, or fails at an unknown escape or at the end |
| JsonScanner.MatchNumber | json/reader.inl:354-368 | takes the longest run of numeric characters |
| JsonScanner.ScanToken | json/reader.inl:188-281 | one pass of the loop: the token that begins here with its two places, or the place of the error |
| JsonScanner.Scan | json/reader.inl:185-282 | the loop yields all tokens or the first error, and each pass consumes a character |
| JsonTiling.ScanOneSound | json/reader.inl:185-282 | a token found takes up the characters between its places and is spelled as its kind demands |
| JsonTiling.ScanOneComplete | json/reader.inl:185-282 | wherever such a token stands, it is found |
| JsonTiling.ScanIff | json/reader.inl:185-290 | a text scans to these tokens if and only if they tile it: not empty, in order, disjoint, at the places they record, with only white space between |
| JsonTiling.ScannedPlaces | json/reader.inl:188-281 | each token of a document carries line, column and offset of its first character and of its end, and is spelled as its kind demands |
| JsonSpacing.BlankCharacter | json/reader.inl:285-290 | white space is the blank and the five characters of codes 9 to 13, and none of it is numeric |
| JsonSpacing.BlanksIgnored | json/reader.inl:285-290 | any run of these put in front of, between or behind the tokens of an accepted document leaves it reading as the same tree |
| JsonSpacing.StrayCharacter | json/reader.inl:263-281 | any other character there that begins no token and extends no number fails the scan at its place |
| JsonSpacing.SpacedRead | json/reader.inl:164-494 | the tokens of a well-formed tree read as that tree, whatever white space, or none, stands around each |
| JsonSpacing.CrlfRead | json/reader.inl:285-290 | a written tree whose lines end in carriage return and newline reads as that tree |
| JsonStrings.EscapeRead | json/reader.inl:310-351 | each of the eight escapes, `\/` among them, wherever it stands in a string document, reads as its character |
| JsonStrings.RawRead | json/reader.inl:310-351 | any character but quote and backslash stands for itself, line breaks included |
| JsonStrings.StringRead | json/reader.inl:310-351 | a document of one quoted body reads as what the body's characters stand for |
| JsonStrings.StringMiss | json/reader.inl:310-351 | a string fails behind the first escape that is none of the eight, or where the text ends without a closing quote |
| JsonStrings.WordMiss | json/reader.inl:292-307 | a word fails behind the first character that differs, or where the text ends |
| JsonStrings.ScanFailureMeans | json/reader.inl:185-282 | a scan fails behind whole tokens and white space: at a character that begins no token, or in a word or string that begins there |
| JsonParser.DoubleNeverParses | json/reader.inl:523-541 | no token with a point in it parses |
| JsonParser.ParseValue | json/reader.inl:371-494 | a value that is parsed consumes at least one token and stays within the tokens |
| JsonParser.TokenStream.MatchExpectedToken | json/reader.inl:556-566 | a token of the expected kind is consumed and its value returned; otherwise the failure names the token, or the last one at the end |
| JsonParser.ParseUnknown | json/reader.inl:371-429 | recursive descent on the cursor agrees with the parser function, in value, cursor and failure |
| JsonParser.ParseArray | json/reader.inl:474-494 | so does the loop over elements |
| JsonParser.ParseObject | json/reader.inl:432-471 | so does the loop over members, which inserts each into the object and refuses a repeated name |
| JsonGrammar.ValueSound | json/reader.inl:371-494 | what is parsed is a derivation of the tree returned, whose objects have distinct names |
| JsonGrammar.ValueComplete | json/reader.inl:371-494 | every derivation of a well-formed tree is parsed to that tree |
| JsonGrammar.ParseIff | json/reader.inl:164-182 | all tokens are taken and t returned if and only if they are the grammar's derivation of t and t is well formed; trailing commas and leftovers are rejected |
| JsonGrammar.DoublesRejected | json/reader.inl:523-541 | one token of the kind of doubles anywhere among the tokens rejects them all |
| JsonBlame.FirstMisfit | json/reader.inl:371-566 | a failure names a token, with the reason its kind gives, such that the tokens in front of it begin the derivation of some tree |
| JsonBlame.NothingHelps | json/reader.inl:371-566 | and all tokens that agree up to that one are rejected too, for the same token unless it repeats a name |
| JsonWriter.Writer.Write | json/writer.inl:172-183 | the text of the element at the current depth is appended and the depth is as before |
| JsonWriter.Writer.WriteString | json/writer.inl:141-165 | the loop appends the quoted string with its seven kinds of escape |
| JsonWriter.Writer.WriteElement | json/writer.inl:79-87 | one pass of the loop appends the element's line, indented, with a comma if more follows |
| JsonWriter.Writer.WriteArray | json/writer.inl:69-93 | the loop appends one line for each element, one step deeper, with commas between |
| JsonWriter.Writer.WriteMember | json/writer.inl:105-116 | one pass of the loop appends the member's line: name, colon and element |
| JsonWriter.Writer.WriteObject | json/writer.inl:95-122 | likewise for the members of an object |
| JsonWriter.WriteText | json/writer.inl:61-67 | a fresh writer starts at depth 0 |
| JsonStrings.CharacterWritten | json/writer.inl:141-165 | each of seven characters is written as a backslash and its letter, every other as it is |
| JsonLayout.TabsAreTabs | json/writer.inl:81 | the indentation of each depth is that many tabs |
| JsonPretty.TextIsLayout | json/writer.inl:69-139 | the text of a tree is its tokens in a row with the gaps that their brackets, commas and colons demand: a new line with literal tabs inside brackets and behind a comma, a blank on either side of a colon |
| JsonPretty.LinesIndented | json/writer.inl:69-122 | behind every newline stand as many tabs as brackets are open outside strings, one fewer when the line begins by closing, and then a character that is no white space |
| JsonLayout.DeeperIsIndented | json/writer.inl:69-122 | writing any tree d steps deeper is writing it and putting d more literal tabs in front of every line but the first |
| JsonLayout.StringsOneLine | json/writer.inl:141-165 | no string breaks a line, whatever characters it holds |
| JsonRoundTrip.ReadDocument | json/reader.inl:164-182 | scanning, parsing and the test for leftovers compute the reading of a document, its errors included |
| JsonRoundTrip.ReadIff | json/reader.inl:164-494 | a text reads as t if and only if t is well formed and the text is tiled by tokens that derive t |
| JsonRoundTrip.QuotedUnescapes | json/writer.inl:141-165 | the reader's unescaping undoes the writer's escaping for every string |
| JsonRoundTrip.IntSpells | json/writer.inl:124-127 | a printed int is one number token, and parses to itself |
| JsonRoundTrip.TreeTiles | json/writer.inl:69-170 | wherever the text of a well-formed tree stands, at any depth, tokens that derive the tree tile it |
| JsonRoundTrip.RoundTrip | json/writer.inl:69-170 | reading the text of a tree, written at any depth, gives the tree if and only if its numbers are ints and the names within each object differ |
| JsonRoundTrip.ReadStable | json/reader.inl:164-494 | whatever text is accepted, its tree is well formed, and written at any depth and read again it is the same |
| JsonRoundTrip.WriterInjective | json/writer.inl:69-170 | two well-formed trees with the same text are equal, whatever the depths |
| JsonNumbers.ParsesIff | json/reader.inl:503-521 | a number token parses if and only if it is at most one sign and digits behind it |
| JsonNumbers.DenotedIff | json/reader.inl:508-520 | with at least one digit the value is the integer denoted if and only if that lies in the range of an int, and the nearest int otherwise |
| JsonNumbers.OneNumberRead | json/reader.inl:164-182 | a document of one number token, with or without a point, reads as the value of the token, or is rejected for the token |
| JsonNumbers.CharacterJoins | json/reader.inl:354-368 | a point, an exponent letter, a sign or a NUL behind any number joins its token, and the document is rejected for that token |
| JsonNumbers.NumberReadIff | json/reader.inl:164-182 | a document of sign and digits reads as the integer it denotes if and only if that lies in the range of an int |
| JsonNumbers.LoneMinus | json/reader.inl:503-521 | the document `-` reads as 0 |
| JsonNumbers.PrintedRead | json/reader.inl:503-521 | any integer written in decimal reads as the nearest int |
| JsonNumbers.OneTooMany | json/reader.inl:503-521 | the document 2147483648 reads as 2147483647 |
| JsonNumbers.TerminatorJoins | json/reader.inl:354-368 | a NUL behind any number, with or without a point, is taken into its token, and the document is rejected for that token |
| JsonNumbers.PointRejected | json/reader.inl:523-541 | a document in which the scanner finds a number with a point is rejected |
| JsonNumbers.NoDoubleElement | json/reader.inl:523-541 | no document makes the parser build a double |

## Left out

* Sockets, MySQL, logging, parameters, thread start-up and `main`.  The label that the database holds for a station
  (subtype 3) and the raw packet are parameters.
* `PubWorker::ProcsMsg` and its fragmenting helpers, `CalculateRemainingSpace` as a whole, `SendCellWithNewProcess`
  and `TcpSocket::RecvPacket`: of these only the frame head and the decode of its length are modelled.
* NetworkManager's reload and the publisher's transaction map.
* The memory model of the hardware and unlocked races: each ring operation, and each section of the cell list that
  runs under a lock or on data of a single thread, is one atomic step.
* Spurious wake-ups of the timed wait, which the source excludes as well (db_cell_list.cpp:61-62).
* `PopWorkCell` as one method: its wait is the consumer of the step system in `DbCellLists`.  Cells there are named
  by number, and hold the bytes up to `data_len` only.
* JSON doubles as tree elements (the parser's failure `DoubleElement` stands for one, and no document gets there), `\u`
  escapes, stream formatting state, the texts of exception messages, and the overloads that read a document of a known
  root type.  A document without tokens fails with `NoTokens`, where the source reads an element of an empty vector
  (json/reader.inl:133).
* Characters are Dafny characters: the sign of `char` and encodings are not modelled.
* Alignment of addresses, and cells smaller than their fixed fields: the builders require 24 and 26 octets, and buffers
  that hold what is written.
- PushPacket: the byte counters are unbounded, where the source's wrap at 2^64; the ring holds its packets after a push only if the push is safe, which `SafeIff` shows to be the best possible.
- PopPacket: starts when the wait for a packet is over; in whole runs a pop of an empty queue answers `Blocked` and changes nothing.
- Atoi: values that an int cannot hold are outside the model, since the conversion of such a label text is undefined in C; labels of packets have at most five digits.
- HandleRegisterCellResponse: for a packet of six octets the buffer must hold a seventh, because the source reads the address from octets 3 to 6.
- NumberValue: conversion of numbers follows the C++11 rules for extraction into an int.
