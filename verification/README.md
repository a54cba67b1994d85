# A model of the TeamSpeak client library

This project models the parts of the repository that keep state across packets, and states what they
promise as theorems over all inputs, all runs or all reachable states. Stateful code is modelled by
classes and loops, and each of them is tied to a function on values; the theorems are about these
functions.

| files | models |
|---|---|
| Prelude, BigEndian | value types, big-endian numbers |
| PacketIds | 16-bit packet ids with their 32-bit generation, and how the generation of an arriving id is inferred |
| Fragmentation | compressing, splitting and reassembling commands |
| CommandCodec | numbering and encrypting on the one side; window, ordering, release and ack on the other |
| Resender, ResenderRuns | the records of packets that are not acked: ordered queues, a priority heap, and the index between them |
| AckNumbers | the ids of the acks themselves, and which acks can be read |
| CommandChannel | both sides together with a network that loses, reorders and duplicates |
| DoubledPackets, CommandSafety, StaleDuplicate | which runs of the channel are safe |
| CommandEnd, LosslessRuns | what ends a connection, and that a lossless network in order never does |
| CommandAcks | what acks mean |
| AckDelivery, LostAcks | exactly when everything can still be acked, and a run after which nothing can |
| SendWindow, EarlyPacket | which send windows keep acks sound and the connection alive |
| SlidingWindow, AudioQueue | the queue of voice packets of one speaker, with loss concealment and adaptive speed |
| ChannelOrder | the channel tree, whose order is a linked list hidden in a hash map |
| CommandText | the printer and the parser of command texts |
| VoicePacket | the content of voice and whisper packets |
| License, LicenseBuilder | chains of license blocks, read and written |
| Mixer | the output callback that cuts an endless stream of frames into buffers |

## How the reliable channel is modelled

A packet of a stream has a position, `generation * 65536 + id`, and the 16-bit code is shown to refine
positions. A run is a sequence of steps: a command is sent, a pending packet is put on the network, some
packet that ever was on the network arrives, some ack that was ever sent arrives. A packet or an ack that
never arrives is lost, one that arrives twice is duplicated. Acks are numbered and encrypted on their own: the
sender of the commands reads an ack only if it infers the generation of the ack right, and then expects the
number behind it. Packets that were made without the key (`Forge`: unencrypted, or not decryptable under the
inferred generation) may arrive at any step, and all theorems over runs include them. An error that the connection returns instead of
reporting it as a stream item (`ReceiveError.Fatal`: the receive queue or the fragment queue is full, or
decompression failed) ends the connection: nothing is received any more. Decryption is ideal: it succeeds exactly
under the generation that was used for encryption. QuickLZ is any pair of functions in which
decompression undoes compression and refuses results of more than 2 MiB. The connection is established.
Arithmetic wraps as in a release build: a debug build stops where `gen - 1`, `gen + 1` or `gen_id + 1`
(connection.rs:200-206, packet_codec.rs:181) leave the 32 bits of a generation.

## Where the code differs from what one would expect

- The receive queue does not look for duplicates. A packet that is queued twice is released again when its
  id comes round, so a run stays in step with the stream if and only if the receiver never gets 65536
  positions past a packet that arrived while it was waiting already (`StaysInStepIff`), and in step it
  is safe (`SafetyInStep`). `DuplicatesBreakSafety` is a run in which a command is released twice.
- "Command queue full" is not about the queue: it is returned exactly for a packet that is 200 to 32766
  positions ahead of the expected one, however empty the queue is (`QueueFullIff`), and it ends the connection
  (`QueueFullEndsIff`, `ConnectionEndsIff`). A single lost packet is enough, for every sender that has two or
  more packets in its heap (`OneLostPacketEnds`); only with a single one it never happens (`HeapLimitedRuns`).
- A packet 32767 or more positions ahead counts as received long ago: it is acked without being read, and so is a
  forged one with such an id. In exactly these runs some ack is for a packet that was not received (`AcksGotIff`). The send window limits the
  number of packets in the heap, not their positions, and is up to 32767; up to 32568 this cannot happen
  (`HeapLimitedRuns`), from 32569 on it can (`FarPacketIsAckedUnread`).
- An ack that is sent after 32767 acks in a row were lost is decrypted under a wrong generation, and so are all
  later ones (`NextAckIsReadIff`, `NothingHeardAgain`): nothing leaves the send queue any more, unless an ack
  from before arrives. One packet that is doubled often enough does it (`AcksAreLostIff`, `SenderStalls`). An old
  ack that comes again can have the same effect (`LateAckIff`).
- A packet that is more than 32769 positions behind is not acked again (`LowestIsAckedIff`). Together with
  the ack numbers this is all that can keep a living connection from getting everything through (`GetsThroughIff`).
- A client drops every ack of type `Ack` with the id 1, not only that of the handshake (packet_codec.rs:80-84).
- The packet with id 65535 is filed under the next generation (`FiledUnderPosition`). While anything is pending
  that was sent no later, its ack does not find it; once it is the lowest one, it does (`AckFindsRecordIff`).
  What is handed over after it goes below its key, so that it can stand in the heap twice (`LastIdIsQueuedTwice`).
- The comment on `send_queue_indices` (resend.rs:217-219) holds if ids ascend (`Operate`, `StreamsAscendIff`);
  that nothing is lost from the heap holds without it.
- The difference of two ids counts a generation as 65535 ids (`DifferenceExactWithinGeneration`).
- Speeding up playback removes samples from the decoded buffer but does not move the position to decode to,
  so the next packet is preceded by as much silence (`ThinningIsPaddedWithSilence`).
- A plain comparison of voice ids is wrong across the wrap; behind the id 65535, where the next id is 0, it is
  right exactly for ids that are behind the wrap (`BufferingTestIsExactIff`).
- Samples that were left over from the last call are lost as soon as anything is decoded (`LeftoversAreLost`).
- If the decoder reports zero samples before there are as many as were asked for, the slice at audio.rs:465 is out
  of range and the program stops; this is the only way to get there (`GetNextData`).
- The debug assertion at audio.rs:396-401 is one tighter than the admission test at audio.rs:246; the model follows
  the release build, which has no assertion.
- Editing a channel relinks it to the place named but does not change its parent (`Edited`).
- A command name directly followed by a part separator is not found again (`CommandRoundTripIff`).
- A Ts5 license property must not end the data, so the builder can write licenses that the parser refuses
  (`LicenseRoundTripIff`).

## Model

| member | source | states |
|---|---|---|
| PacketIds.FullIsOrderIsomorphism | native/local_tsclientlib/tsproto/src/resend.rs:269-275 | Ids with their generation are the positions of a stream below 2^48, and the order of ids is the order of positions. |
| PacketIds.ArithmeticOnPositions | native/local_tsclientlib/tsproto/src/resend.rs:281-309 | Adding and subtracting a 16-bit number is addition of positions modulo 2^48, and the two undo each other. |
| PacketIds.DifferenceExactWithinGeneration | native/local_tsclientlib/tsproto/src/resend.rs:311-319 | Subtracting two ids gives the distance of their positions if and only if both are of one generation; otherwise it is off by the number of generations between them. |
| PacketIds.WindowRecoversPosition | native/local_tsclientlib/tsproto/src/connection.rs:189-209 | For all positions n expected and f arriving, the inferred generation is the one f was numbered with exactly when f is in [n - 32769, n + 32767) modulo 2^48; then the packet is inside the window exactly when f is not behind n. |
| PacketIds.NearPositionsAreRecovered | native/local_tsclientlib/tsproto/src/connection.rs:189-209 | The same without wrap-around: nearness of the two positions is the whole condition. |
| PacketIds.GenerationsRecoveredOverRuns | native/local_tsclientlib/tsproto/src/packet_codec.rs:177-183 | Over whole runs of acks or voice packets, where the expected id may move back, every packet is opened under its own generation as long as each arrival is near the one before. |
| Fragmentation.CompressAndSplit | native/local_tsclientlib/tsproto/src/algorithms.rs:46-113 | The loop returns the labelled chunks of the content, or of its compressed form when that is not longer. |
| Fragmentation.ChunksPartition | native/local_tsclientlib/tsproto/src/algorithms.rs:72-87 | The chunks are a partition of the data: joined they give it back, all but the last are full, and their number is the rounded-up quotient. |
| Fragmentation.SplitShape | native/local_tsclientlib/tsproto/src/algorithms.rs:93-112 | Every packet has at most 500 bytes; with several fragments exactly the first and the last are marked, and only the first carries the compression flag. |
| Fragmentation.SplitFlags | native/local_tsclientlib/tsproto/src/algorithms.rs:97-103 | Every packet has the header of the command, but for the marks of compression and fragmentation. |
| Fragmentation.ShorterFormIsSent | native/local_tsclientlib/tsproto/src/algorithms.rs:55-66 | A command within the packet size is sent as it is. Of a longer one the shorter of content and compressed form is sent, the compressed one if they are equally long, and it is marked as compressed in its first packet exactly then. |
| Fragmentation.CompressionKeepsDeliverable | native/local_tsclientlib/tsproto/src/algorithms.rs:57-66 | A command that could be delivered uncompressed is deliverable, up to the limit of decompression. |
| Fragmentation.AssembleConcat | native/local_tsclientlib/tsproto/src/packet_codec.rs:276-324 | Reassembly may be interrupted anywhere: feeding two lists one after the other is feeding their concatenation. |
| Fragmentation.AssembleExtends | native/local_tsclientlib/tsproto/src/packet_codec.rs:276-324 | What reassembly released is never taken back by later packets. |
| Fragmentation.FragmentLimit | native/local_tsclientlib/tsproto/src/lib.rs:50-52 | The limit of 40960 bytes is met by up to 86 fragments towards the server and 85 towards the client, and by no more. |
| Fragmentation.CommandRoundTrip | native/local_tsclientlib/tsproto/src/packet_codec.rs:276-324 | Split and reassembled in order, a command comes back with its content and header if and only if it is deliverable (fragment count, decompressed size); otherwise the receiver fails and releases nothing of it. |
| Fragmentation.StreamRoundTrip | native/local_tsclientlib/tsproto/src/packet_codec.rs:276-324 | For any list of deliverable commands, reassembling all their fragments in order releases exactly their contents. |
| CommandCodec.FiledUnderPosition | native/local_tsclientlib/tsproto/src/packet_codec.rs:451-457 | The resender files a packet under its own position if and only if its id is not 65535; that one is filed a whole generation later. |
| CommandCodec.PacketCodec.EncodePacket | native/local_tsclientlib/tsproto/src/packet_codec.rs:354-460 | With n the position of the next outgoing id, fragment i gets the id and the encryption of position n + i, and the counter moves behind the last one. Towards the server every fragment bears the new-protocol flag. |
| CommandCodec.PacketCodec.HandleCommandPacket | native/local_tsclientlib/tsproto/src/packet_codec.rs:255-352 | The loop over in-order packets, with the receive queue and the fragment queue updated in place, is the function HandleCommand. |
| CommandCodec.PacketCodec.Position | native/local_tsclientlib/tsproto/src/packet_codec.rs:328-331 | The search in the receive queue finds the first packet with an id, or tells that there is none. |
| CommandCodec.PacketCodec.HandleUdpPacket | native/local_tsclientlib/tsproto/src/packet_codec.rs:44-250 | Window check, generation, decryption, ordering and the decision about the ack together have the effect of the function HandleUdp, with every error; those of them that end the connection are told apart by Fatal. |
| CommandCodec.ForgedIsRefused | native/local_tsclientlib/tsproto/src/packet_codec.rs:74-131 | For any receiver: a packet that is unencrypted, or encrypted under another generation than the inferred one, changes nothing, releases nothing and does not end the connection; it is acked exactly if its id is outside of the window. The error tells which of the three it was. |
| CommandCodec.OnlyAuthenticEnters | native/local_tsclientlib/tsproto/src/packet_codec.rs:74-131 | Whatever is released, kept or counted is encrypted under the generation inferred for it, and inside the window. |
| CommandChannel.ForgeIs | native/local_tsclientlib/tsproto/src/packet_codec.rs:225-248 | So in a run a forged packet leaves everything as it was, but for an ack if its id is outside of the window. |
| CommandCodec.QueueFullIff | native/local_tsclientlib/tsproto/src/packet_codec.rs:339-350 | For any receiver and any encrypted packet, the error of a full command queue comes up if and only if the position, counted in generations as the program infers them, is 200 to 32766 ahead of the expected one; what is in the queue does not matter. |
| CommandCodec.DrainIsAssembly | native/local_tsclientlib/tsproto/src/packet_codec.rs:272-336 | The receive loop is reassembly of the packets it goes through, wherever earlier calls left off. |
| CommandCodec.TakenIsConsecutive | native/local_tsclientlib/tsproto/src/packet_codec.rs:326-335 | The packets the loop goes through are consecutive positions of the stream. |
| CommandCodec.TakenStopsAtFirstGap | native/local_tsclientlib/tsproto/src/packet_codec.rs:326-335 | The loop ends at the first position that is missing in the queue, not before. |
| CommandCodec.DrainReleasesRun | native/local_tsclientlib/tsproto/src/packet_codec.rs:269-338 | An in-order packet releases the longest run of consecutive positions that is there, and leaves the receiver in step with the stream behind that run. |
| CommandCodec.EarlyReaction | native/local_tsclientlib/tsproto/src/packet_codec.rs:339-348 | A packet that is early by less than 200 positions is kept, acked, and nothing else changes. |
| CommandCodec.StrayReaction | native/local_tsclientlib/tsproto/src/packet_codec.rs:230-242 | Any other packet of the stream leaves the receiver as it was. It is acked only if it was consumed already (or is at least 32767 positions ahead), and the error is fatal exactly if it is 200 to 32766 positions ahead. |
| CommandCodec.ArrivalKeepsStep | native/local_tsclientlib/tsproto/src/packet_codec.rs:44-250 | Whatever position of the stream arrives, the receiver stays in step with the stream, forgets nothing, acks only what it released or kept, and fails fatally exactly for 200 to 32766 positions ahead. The packets it goes through are the next positions of the stream, as many as it moves on. |
| CommandCodec.QueueStaysExactIff | native/local_tsclientlib/tsproto/src/packet_codec.rs:342-347 | A queue without stale or repeated packets stays so if and only if the id of the early packet is not waiting already; the program does not check this. |
| CommandCodec.ExactQueueIsShort | native/local_tsclientlib/tsproto/src/lib.rs:56 | Such a queue holds at most 199 packets. |
| Resender.AboveIsStrictWeakOrder | native/local_tsclientlib/tsproto/src/resend.rs:353-368 | The comparison of send records is a strict weak order, so that the top of the heap is well defined up to ties. |
| Resender.TopIffForemost | native/local_tsclientlib/tsproto/src/resend.rs:353-368 | The top of the heap is an entry that was never sent, if there is one; among equals the one whose time is the longest ago, and then the one with the lowest id. |
| Resender.TopNotDue | native/local_tsclientlib/tsproto/src/resend.rs:707-719 | If the top of the heap is not due, nothing in the heap is. |
| Resender.FindFirst | native/local_tsclientlib/tsproto/src/resend.rs:577-585 | Skipping the records below the index leaves the lowest pending id that is not in the heap. |
| Resender.InsertKeepsIndexedIff | native/local_tsclientlib/tsproto/src/resend.rs:657-663 | Handing over a packet keeps the index exact if and only if nothing of its type from its id on is in the heap. |
| Resender.RenewKeepsIndexed | native/local_tsclientlib/tsproto/src/resend.rs:752-755 | Renewing tries and time of the heap entry and of the record together keeps the index exact. |
| Resender.RenewKeeps | native/local_tsclientlib/tsproto/src/resend.rs:752-755 | From any state, also an inexact one, renewing loses no pending record from the heap. |
| Resender.LastIdIsQueuedTwice | native/local_tsclientlib/tsproto/src/resend.rs:658-664 | If the packet with id 65535 is still in the heap when the next one is handed over, and the window has room for all, it is in the heap once more than before and the index is not exact. |
| Resender.FilledUpKeeps | native/local_tsclientlib/tsproto/src/resend.rs:576-615 | Filling up loses no pending record, leaves something in the heap whenever something is pending, and leads from an exact index to an exact one. |
| Resender.DropKeepsIndexed | native/local_tsclientlib/tsproto/src/resend.rs:697-706 | Dropping an entry that acks left over keeps the index exact. |
| Resender.AckTargetIsNext | native/local_tsclientlib/tsproto/src/resend.rs:433-459 | The record an acked 16-bit id stands for is the only one, within one round of ids from the lowest pending one, that carries this id. |
| Resender.AckEventIsCumulative | native/local_tsclientlib/tsproto/src/resend.rs:434-447 | The announced id is below everything still pending, and at least that of the record just acked. |
| Resender.Resender.ChooseNext | native/local_tsclientlib/tsproto/src/resend.rs:587-600 | Of the lowest unqueued records of the two types the one that was handed over last is chosen, a command on a tie, or none if all are queued. |
| Resender.Resender.FillUpSendQueue | native/local_tsclientlib/tsproto/src/resend.rs:576-615 | The queue afterwards is the one with the best records added one by one, as many as the window leaves room for. These are exactly the pending records that the index moves over, each once and as it is; from an exact index it leads to an exact one. |
| Resender.Resender.RebuildSendQueue | native/local_tsclientlib/tsproto/src/resend.rs:569-573 | From any state with consistent records the heap is rebuilt from the lowest ids, with an exact index. |
| Resender.Resender.SendPacket | native/local_tsclientlib/tsproto/src/resend.rs:648-666 | For any id: the new record is pending, all others are untouched, the index is lowered to it if need be and the heap is filled up from there. Nothing pending is lost from the heap. The index stays exact if no entry of the heap has this id or a higher one, in particular if the id is not below one handed over before. |
| Resender.Resender.AckPacket | native/local_tsclientlib/tsproto/src/resend.rs:424-473 | Removes the record the acked id stands for and no other, announces cumulatively when it was the lowest, and keeps the index exact. The time since the packet was handed over is counted as a round trip if and only if it was sent exactly once. |
| Resender.Resender.DropLeftover | native/local_tsclientlib/tsproto/src/resend.rs:702-706 | Exactly the one entry goes, and the heap is filled up in its place. |
| Resender.Resender.Peek | native/local_tsclientlib/tsproto/src/resend.rs:688-692 | Such an entry, if there is any. |
| Resender.Resender.RecordSent | native/local_tsclientlib/tsproto/src/resend.rs:752-780 | A record that was sent gets its new tries and time. The first time only its heap entry is renewed with it; a repetition backs off the round trip time and fills the heap anew from the lowest pending ids, with an exact index whatever it was before. |
| Resender.RtoNeverShrinks | native/local_tsclientlib/tsproto/src/resend.rs:681-685 | A loss never shortens the retransmission timeout, which is at most a second. |
| Resender.Resender.PollRound | native/local_tsclientlib/tsproto/src/resend.rs:677-781 | One round of the loop, at its own instant, in terms of the top entry: left over, it is dropped; not due, the poll ends idle; handed over too long ago, it ends with a timeout; otherwise the socket decides, and a packet that was sent is recorded. Idle means that nothing in the heap is due. |
| Resender.Resender.PollResend | native/local_tsclientlib/tsproto/src/resend.rs:670-785 | One poll at a fixed instant with a positive timeout terminates, sends only entries that are due and not too old, changes the records by exactly these sendings, and stops idle only if nothing in the heap is due. From any index an entry is sent no more often than it has copies in the heap, a record that waits outside counting once; from an exact index the index stays exact and no packet is sent twice. A packet that is sent for the first time after a repetition was not in the heap at the start. From an exact index, if ids and times of handing over go together, packets of a type go out for the first time in the order of their ids. |
| Resender.LowestFreshFirst | native/local_tsclientlib/tsproto/src/resend.rs:687-719 | When a packet goes out for the first time, no pending packet of its type with a lower id is still to be sent for the first time. |
| Resender.RtoIs | native/local_tsclientlib/tsproto/src/resend.rs:681-685 | The timeout is the smoothed round trip time and four deviations, up to a second. |
| Resender.HeapHoldsLowest | native/local_tsclientlib/tsproto/src/resend.rs:576-615 | With an exact index every packet in the heap is one of the lowest pending ones of its type, as many as the heap has entries; so the congestion window, at most 32767, limits how many pending packets lie below one that is sent. |
| Resender.SentOnceMore | native/local_tsclientlib/tsproto/src/resend.rs:707-719 | A packet that was sent in a poll is not due again in it. |
| Resender.AfterSendingRecords | native/local_tsclientlib/tsproto/src/resend.rs:752-755 | After any sequence of sendings the sent records bear its instant and a try, and the others are as they were. |
| ResenderRuns.Operate | native/local_tsclientlib/tsproto/src/resend.rs:205-221 | For every sequence of packets handed over, acks and rounds of polls, with any ids and times: what is pending is exactly what was handed over and not acked, and nothing pending is lost from the heap. If no id is below an earlier one of its type, the index is exact at the end. If time does not run backwards either, packets of each type go out for the first time in the order of their ids over the whole run, none before a lower one that is pending; every sending is in the log with its number of tries. |
| ResenderRuns.AscendingIff | native/local_tsclientlib/tsproto/src/resend.rs:658-661 | Ids ascend in this sense if and only if the ids of each type increase; how the types alternate does not matter. |
| ResenderRuns.KeysIncreaseIff | native/local_tsclientlib/tsproto/src/packet_codec.rs:451-457 | The keys under which the packets of a stream are filed increase if and only if no packet but the last has the id 65535. |
| ResenderRuns.StreamsAscendIff | native/local_tsclientlib/tsproto/src/packet_codec.rs:451-457 | For two streams handed over in order, with acks and polls in between, ids ascend if and only if nothing comes after an id 65535. |
| CommandSafety.StaysInStepIff | native/local_tsclientlib/tsproto/src/packet_codec.rs:255-352 | For every run over a lossy, reordering, duplicating network, of any length: the packets consumed are the positions of the stream one after the other, each once, if and only if the receiver never got 65536 positions past a packet that arrived again while it was waiting. |
| CommandSafety.SafetyInStep | native/local_tsclientlib/tsproto/src/packet_codec.rs:255-352 | In every run that is in step, the released contents are a prefix of the sent ones. |
| CommandSafety.SafetyWithinRound | native/local_tsclientlib/tsproto/src/packet_codec.rs:255-352 | A condition on the stream alone: if it ends less than 65536 positions after every packet that arrived again while waiting, the run is in step and safe. |
| CommandSafety.SafetyWithoutWaitingDuplicates | native/local_tsclientlib/tsproto/src/packet_codec.rs:255-352 | In particular for runs of any length in which no packet arrives whose id is waiting already. |
| CommandSafety.SafetyOfFirstIds | native/local_tsclientlib/tsproto/src/packet_codec.rs:255-352 | And against arbitrary duplication, for streams of up to 65536 packets. |
| DoubledPackets.LoopTakesCopy | native/local_tsclientlib/tsproto/src/packet_codec.rs:326-335 | The failing half, for all streams and positions: the loop that gets 65536 positions past a doubled packet takes a packet out of step; if the packet itself is behind already, its copy takes the turn of position p + 65536. |
| CommandSafety.QueueOverRuns | native/local_tsclientlib/tsproto/src/packet_codec.rs:339-348 | In every state of a run without such arrivals all queued ids are less than 200 ahead of the expected one, which is not among them, and at most 199 packets are queued. |
| CommandChannel.ConsistentIsSafe | native/local_tsclientlib/tsproto/src/packet_codec.rs:255-352 | In a consistent state the released commands are the first of those sent, in order and each once, and all of them when the receiver has reached the end. |
| CommandChannel.ArriveConsistent | native/local_tsclientlib/tsproto/src/connection.rs:337-346 | Every arrival keeps the receiver consistent with the stream, with its exact reaction. |
| CommandSafety.StepKeepsGood | native/local_tsclientlib/tsproto/src/packet_codec.rs:44-250 | Every step of sender, network and receiver keeps the receiver in step and the account of doubled packets exact, until a round is over. |
| CommandEnd.QueueFullEndsIff | native/local_tsclientlib/tsproto/src/connection.rs:401-403 | For every run, safe or not: the connection ends with a full command queue if and only if some packet arrives that is 200 to 32766 positions ahead of the expected one. |
| CommandEnd.ConnectionEndsIff | native/local_tsclientlib/tsproto/src/connection.rs:401-403 | In safe runs nothing else ends it. |
| LosslessRuns.LosslessRunsNeverEnd | native/local_tsclientlib/tsproto/src/packet_codec.rs:339-350 | Over a network that loses nothing and keeps the order, a sender that sends positions for the first time in their order (as Operate states of the resender) never meets a full command queue, nor does anything else end the connection: whatever has arrived is consumed, and what is released is a prefix of what was sent, for any repetitions and forged packets. |
| StaleDuplicate.DuplicatesBreakSafety | native/local_tsclientlib/tsproto/src/packet_codec.rs:342-347 | A concrete run of 65538 commands in which a packet that was queued twice is released again a generation later: without the hypothesis safety fails. |
| StaleDuplicate.CopyReleased | native/local_tsclientlib/tsproto/src/packet_codec.rs:326-335 | The step at which it fails: the stale copy has the id that is looked for next. |
| AckNumbers.AckCodec.Encode | native/local_tsclientlib/tsproto/src/packet_codec.rs:426-459 | With n the position of the next ack, it gets the id and the encryption of position n, and the counter moves behind it. |
| AckNumbers.AckCodec.Handle | native/local_tsclientlib/tsproto/src/packet_codec.rs:76-183 | An ack is read if and only if a client does not ignore its id and the generation inferred for it is its own; then the number behind it is expected, and otherwise nothing changes. |
| AckNumbers.ReadsIff | native/local_tsclientlib/tsproto/src/connection.rs:189-209 | For all positions of the expected and of the arriving ack: it is read exactly if it is at most 32769 behind and less than 32767 ahead, modulo 2^48, and not ignored. |
| AckNumbers.LateAckIff | native/local_tsclientlib/tsproto/src/packet_codec.rs:177-183 | If every ack was read up to now, an old one that comes again puts the next one out of reach exactly if it is 32768 or 32769 behind the next one and not ignored. |
| CommandAcks.AcksGotIff | native/local_tsclientlib/tsproto/src/packet_codec.rs:232-242 | For every run below id 65535: in all its states every ack that was sent is for a packet that was released or kept, if and only if no packet, forged or not, arrives 32767 or more positions ahead of the expected one while the connection lives. |
| CommandAcks.StepAcksGotIff | native/local_tsclientlib/tsproto/src/packet_codec.rs:232-242 | The same for a single step: exactly a packet that far ahead is acked without having been received. |
| CommandAcks.AcksAreSound | native/local_tsclientlib/tsproto/src/resend.rs:424-473 | Then in every reachable state a position that left the send queue was released or kept by the receiver, and an announced id means that everything up to it was consumed. |
| CommandAcks.AnnouncedMeansReleased | native/local_tsclientlib/tsproto/src/connection.rs:334-346 | Once the id that send_packet returned is announced, the other side has released this command and all before it. |
| CommandAcks.AckFindsRecordIff | native/local_tsclientlib/tsproto/src/resend.rs:450-461 | Beyond the first ids, while a record is pending the ack of its packet finds it, unless the id is 65535 and something sent no later is pending as well. |
| SendWindow.LowestAreNear | native/local_tsclientlib/tsproto/src/resend.rs:576-615 | A packet among the w lowest pending ones is less than w + 199 positions ahead of the one the receiver expects, because at most 199 of those in between can have been received. |
| SendWindow.HeapLimitedRuns | native/local_tsclientlib/tsproto/src/resend.rs:617-634 | For every run of a sender with at most w packets in its heap, in which no forged packet has an id that far ahead: up to w = 32568 acks are sound, and with w = 1 the connection never ends. |
| EarlyPacket.OneLostPacketEnds | native/local_tsclientlib/tsproto/src/packet_codec.rs:339-350 | For every w from 2 on there is a proper run of such a sender in which only packet 0 is lost, packets 1 to 199 are received and acked, and the connection ends with nothing released; in general for every packet 200 to 32766 that such a sender can reach. |
| EarlyPacket.FarPacketIsAckedUnread | native/local_tsclientlib/tsproto/src/packet_codec.rs:232-242 | For every w from 32569 on there is a proper run of such a sender after which packet 32767 has left the send queue and was not received. |
| SendWindow.LimitedRuns | native/local_tsclientlib/tsproto/src/packet_codec.rs:339-350 | For a sender that limits positions instead, again without such forged packets: within 32767 positions from its lowest pending one acks are sound, and within 200 the connection never ends. |
| AckDelivery.NextAckIsReadIff | native/local_tsclientlib/tsproto/src/connection.rs:189-209 | For every run: the ack that is sent next can be read if and only if fewer than 32767 acks were sent from the expected one on, and it is not ignored. |
| AckDelivery.NothingHeardAgain | native/local_tsclientlib/tsproto/src/packet_codec.rs:76-110 | Once this fails, then in every continuation without acks from before nothing leaves the send queue and nothing is announced, whatever else happens. |
| AckDelivery.RetransmissionHealsIff | native/local_tsclientlib/tsproto/src/resend.rs:721-756 | While the connection lives, one successful retransmission of the lowest pending packet gets it acked and removed if and only if it is at most 32769 positions behind and the next ack can be read; otherwise nothing leaves the queue. |
| CommandAcks.LowestIsAckedIff | native/local_tsclientlib/tsproto/src/packet_codec.rs:230-242 | A packet that was consumed already is acked again if and only if it is at most 32769 positions behind. |
| AckDelivery.EverythingGetsThrough | native/local_tsclientlib/tsproto/src/resend.rs:205-221 | From any state in which the connection lives, acks can be read and the lowest pending packet is at most 32769 positions behind, there is a continuation after which everything is released and acked; it sends only lowest packets again, and no ack from before arrives in it. |
| AckDelivery.GetsThroughIff | native/local_tsclientlib/tsproto/src/resend.rs:205-221 | And these conditions are exact: if one fails, something stays pending in every proper continuation without acks from before. |
| SendWindow.SmallWindowGetsThrough | native/local_tsclientlib/tsproto/src/resend.rs:205-221 | For a sender within 200 positions whose acks arrive in their order or not at all, fewer than 32766 of them missing in a row, such a continuation exists from every reachable state. |
| SendWindow.LimitedSenderStalls | native/local_tsclientlib/tsproto/src/resend.rs:205-221 | If no ack is in reach, the receiver never gets beyond the limit of such a sender, in any continuation without acks from before. |
| LostAcks.AcksAreLostIff | native/local_tsclientlib/tsproto/src/connection.rs:189-209 | A concrete family of runs: 201 commands, packet 0 arrives k times and no ack arrives. The connection lives, and a retransmission helps, and everything can be acked, if and only if k is below 32767. |
| LostAcks.SenderStalls | native/local_tsclientlib/tsproto/src/connection.rs:189-209 | After 32767 arrivals, a sender within 200 positions gets at most 200 commands released in every such continuation. |
| SendWindow.EndIsFinal | native/local_tsclientlib/tsproto/src/connection.rs:401-403 | After the end nothing more is released, whatever is sent again. |
| SlidingWindow.SlidingWindowMinimum.Push | native/local_tsclientlib/tsclientlib/src/audio.rs:143-158 | Keeps the deque over the values still in the window, for every size from 1 to 255, although the clock has 8 bits. |
| SlidingWindow.SlidingWindowMinimum.GetMin | native/local_tsclientlib/tsclientlib/src/audio.rs:160 | The minimum of the last `size` values pushed, and zero before the first. |
| SlidingWindow.AgeIsExact | native/local_tsclientlib/tsclientlib/src/audio.rs:150-156 | The wrapping difference of the 8-bit clocks is the true age of every entry of the deque. |
| SlidingWindow.FrontIsMin | native/local_tsclientlib/tsclientlib/src/audio.rs:119-137 | The front of the deque is the minimum of the window. |
| AudioQueue.QueuedIsStrictlyIncreasing | native/local_tsclientlib/tsclientlib/src/audio.rs:87-88 | The invariant in terms of all pairs: the cyclic distances from the next id increase strictly and are at most 50. |
| AudioQueue.AudioQueue.New | native/local_tsclientlib/tsclientlib/src/audio.rs:164-203 | A queue is refused only for the samples of its first packet, and otherwise holds exactly this packet. |
| AudioQueue.AudioQueue.FindPlace | native/local_tsclientlib/tsclientlib/src/audio.rs:250-258 | Searching from the back with wrapping differences finds the number of packets before the new one. |
| AudioQueue.DuplicateIsAtSplit | native/local_tsclientlib/tsclientlib/src/audio.rs:259-264 | Looking at this one place is enough to find out whether an id is in the queue. |
| AudioQueue.AudioQueue.AddPacket | native/local_tsclientlib/tsclientlib/src/audio.rs:225-280 | Refuses a packet for exactly the reason of Refusal, in the order of the checks and without any change; otherwise inserts it at its place and lowers the samples to buffer. |
| AudioQueue.AdmittedIff | native/local_tsclientlib/tsclientlib/src/audio.rs:225-264 | A packet is refused exactly if 50 are queued, its samples cannot be told or are more than 24000, it is not within 50 ids of the next one, or its id is queued; the first of these counts. |
| AudioQueue.SamplesAre | native/local_tsclientlib/tsclientlib/src/audio.rs:229-243 | A packet has the samples that the decoder tells, and none at the end of a stream. |
| AudioQueue.BufferingIs | native/local_tsclientlib/tsclientlib/src/audio.rs:265-272 | What is left to buffer goes down by the samples of the packet and of the gap before it, unless its id is below the one after the last; never below zero. |
| AudioQueue.BufferingTestIsExactIff | native/local_tsclientlib/tsclientlib/src/audio.rs:267-268 | The plain comparison that decides about counting a gap means "goes to the end" if and only if both ids are on one side of the wrap; if the last id is 65535, if and only if the new id is behind the wrap. |
| AudioQueue.LastIsFarEnough | native/local_tsclientlib/tsclientlib/src/audio.rs:321-335 | The gap count never underflows: the last packet is at least as far as there are packets. |
| AudioQueue.GapsAreMissing | native/local_tsclientlib/tsclientlib/src/audio.rs:321-335 | It counts the ids up to the last packet that are not queued. |
| AudioQueue.AudioQueue.GetDeviation | native/local_tsclientlib/tsclientlib/src/audio.rs:219-223 | Exactly the largest minus the smallest of the last 255 sizes, and it fits into a byte. |
| AudioQueue.AudioQueue.AddBufferSize | native/local_tsclientlib/tsclientlib/src/audio.rs:209-216 | Both windows see the same sizes; a size that does not fit into a byte is left out. |
| AudioQueue.NotedIs | native/local_tsclientlib/tsclientlib/src/audio.rs:209-216 | The size is noted in frames of 960 samples, rounded down, exactly if that is below 256. |
| AudioQueue.AudioQueue.DecodePacket | native/local_tsclientlib/tsclientlib/src/audio.rs:282-339 | One decoder call with the right payload and length, and the whole state afterwards for success and failure. |
| AudioQueue.AudioQueue.DecodeNext | native/local_tsclientlib/tsclientlib/src/audio.rs:385-419 | Which packet is decoded, used for error correction, concealed or lost, with the one treatment added to the history of its position. |
| AudioQueue.PlanIsRight | native/local_tsclientlib/tsclientlib/src/audio.rs:386-419 | A packet is decoded exactly if the queue holds the next id, recovered exactly if it holds only the one after, and concealed otherwise. |
| AudioQueue.CallIsRight | native/local_tsclientlib/tsclientlib/src/audio.rs:386-419 | The decoder gets the packet with the next id, or else for error correction the one with the id behind it, or else nothing and the length of the last packet. |
| AudioQueue.SkippingTo | native/local_tsclientlib/tsclientlib/src/audio.rs:442-446 | Truncating up to a packet gives every position before it one treatment and leaves the queue in order from that packet on. |
| AudioQueue.AudioQueue.CountKept | native/local_tsclientlib/tsclientlib/src/audio.rs:431-440 | The most packets from the back that stay below the limit. |
| AudioQueue.AudioQueue.Truncate | native/local_tsclientlib/tsclientlib/src/audio.rs:428-446 | Keeps exactly these packets, and continues with the id of the first of them. |
| AudioQueue.KeptAt | native/local_tsclientlib/tsclientlib/src/audio.rs:456-460 | Sample for sample, one stereo sample is left out in front of every 99. |
| AudioQueue.AudioQueue.SpeedUp | native/local_tsclientlib/tsclientlib/src/audio.rs:447-461 | The removals stay in bounds and thin out exactly the samples decoded last. |
| AudioQueue.ThinningIsPaddedWithSilence | native/local_tsclientlib/tsclientlib/src/audio.rs:298-315 | When another packet is decoded after a speed-up, silence of the removed length takes the place of what was removed: only the last packet gets shorter. |
| AudioQueue.AudioQueue.Adapt | native/local_tsclientlib/tsclientlib/src/audio.rs:425-461 | Cut, speed up or go on, by the minimum and the deviation of the last 255 sizes. |
| AudioQueue.PaceIff | native/local_tsclientlib/tsclientlib/src/audio.rs:421-447 | Cut exactly if all of the last sizes were above 25 frames; otherwise faster exactly if no size was twice as large as another one or more. |
| AudioQueue.AudioQueue.Refill | native/local_tsclientlib/tsclientlib/src/audio.rs:377-462 | One round of the loop: the decoder call, the output and what is left in the queue, exactly. |
| AudioQueue.AudioQueue.GetNextData | native/local_tsclientlib/tsclientlib/src/audio.rs:345-466 | Terminates, returns exactly the samples asked for unless the stream ended, the decoder failed or returned nothing (the slice is out of range if and only if the last call returned nothing and the buffer is too short). The samples are those of its decoder calls in their order: each call puts its frames, thinned out or not by the sizes noted then, behind the position that was decoded before. No packet is lost unaccounted: each is still queued, was used at its own position, or is among the lost ones. |
| AudioQueue.PlainPiecesAreJoined | native/local_tsclientlib/tsclientlib/src/audio.rs:296-315 | If no call is thinned out, the output is the frames of the calls, joined. |
| AudioQueue.LeftoversAreLost | native/local_tsclientlib/tsclientlib/src/audio.rs:296-300 | What was left over from the call before does not come out once anything is decoded. |
| AudioQueue.UsedInOrder | native/local_tsclientlib/tsclientlib/src/audio.rs:377-462 | Over the whole life of a queue packets are used in strictly increasing positions, each at the position its id names, so in cyclic order and at most once. |
| ChannelOrder.LinkedIsDistinct | native/local_tsclientlib/utils/ts-bookkeeping/src/data.rs:604-649 | In a list hidden in the map nothing is listed twice. |
| ChannelOrder.ListIsUnique | native/local_tsclientlib/utils/ts-bookkeeping/src/data.rs:604-649 | The map determines the list of every parent. |
| ChannelOrder.Book.RelinkFirst | native/local_tsclientlib/utils/ts-bookkeeping/src/data.rs:610-623 | Visiting the hash map in any order, the first match gets another order, with an event that tells the old one. |
| ChannelOrder.RemovalIsWithout | native/local_tsclientlib/utils/ts-bookkeeping/src/data.rs:604-624 | Relinking the follower takes the channel out of its list and leaves all lists as they were otherwise, for any order of iteration. |
| ChannelOrder.InsertionIsInsertAfter | native/local_tsclientlib/utils/ts-bookkeeping/src/data.rs:626-649 | Relinking the new follower puts the channel behind its predecessor, or to the front for order zero. |
| ChannelOrder.InsertingTwiceIsOnce | native/local_tsclientlib/utils/ts-bookkeeping/src/data.rs:278-283 | A created channel is inserted twice by the program; the second time changes nothing. |
| ChannelOrder.CreatedKeepsLists | native/local_tsclientlib/utils/ts-bookkeeping/src/data.rs:651-656 | After a creation the map holds lists again if and only if the order names a sibling. |
| ChannelOrder.CreatedLeadsBackIff | native/local_tsclientlib/utils/ts-bookkeeping/build/MessagesToBook.tt:368-428 | The events of a creation lead back to the old map if and only if the channel was not there before. |
| ChannelOrder.Book.Created | native/local_tsclientlib/utils/ts-bookkeeping/src/data.rs:278-283 | Creation inserts into the list of the parent, and both equivalences above hold for it. |
| ChannelOrder.Book.Deleted | native/local_tsclientlib/utils/ts-bookkeeping/src/data.rs:284-292 | Deletion takes the channel out of its list; a missing channel is an error without effect; the events lead back. |
| ChannelOrder.Book.OrderMove | native/local_tsclientlib/utils/ts-bookkeeping/src/data.rs:670-700 | Both changes of links and their events, the error for a missing channel, and no effect without a new place; the events lead back. |
| ChannelOrder.Book.Moved | native/local_tsclientlib/utils/ts-bookkeeping/src/data.rs:664-668 | A move, also to another parent, takes the channel out of one list and puts it into the other; the map holds lists again if and only if the order names a channel that is in the new list without the moved one. |
| ChannelOrder.MovedKeepsListsIff | native/local_tsclientlib/utils/ts-bookkeeping/src/data.rs:670-700 | The same as a statement about the maps. |
| ChannelOrder.MovingNowhere | native/local_tsclientlib/utils/ts-bookkeeping/src/data.rs:670-700 | A move to where the channel is already leaves its list as it was. |
| ChannelOrder.Book.Edited | native/local_tsclientlib/utils/ts-bookkeeping/src/data.rs:658-662 | An edit has the effect of the move it announces if and only if it leaves the parent, which the program does not update. |
| ChannelOrder.EditedIsMovedIff | native/local_tsclientlib/utils/ts-bookkeeping/src/data.rs:658-662 | The same as a statement about the maps before and after. |
| ChannelOrder.Book.Listed | native/local_tsclientlib/utils/ts-bookkeeping/src/data.rs:278-283 | A consistent channel list is loaded unchanged, in whatever order its entries come. |
| CommandText.EscapeRoundTrip | native/local_tsclientlib/utils/tsproto-packets/src/commands.rs:122-147 | Unescaping undoes escaping for arbitrary bytes. |
| CommandText.WireLetters | native/local_tsclientlib/utils/tsproto-packets/src/packets.rs:965-982 | The letter on the wire for each of the nine escaped bytes; all others stand for themselves. |
| CommandText.EscapedEndsNothing | native/local_tsclientlib/utils/tsproto-packets/src/packets.rs:965-982 | No byte of an escaped value can end a value or a part. |
| CommandText.AlphanumericIff | native/local_tsclientlib/utils/tsproto-packets/src/commands.rs:36-51 | Exactly digits and letters may stand in the name of a command. |
| CommandText.GetIsUnescape | native/local_tsclientlib/utils/tsproto-packets/src/commands.rs:152-154 | Taking the raw bytes when no escape was counted gives the same as unescaping them, on any input. |
| CommandText.ParseOneProgresses | native/local_tsclientlib/utils/tsproto-packets/src/commands.rs:66-112 | On any bytes a call of next consumes at least one byte and stays inside, with the spans of the item in order and no more escapes than bytes. |
| CommandText.SpansIncrease | native/local_tsclientlib/utils/tsproto-packets/src/commands.rs:66-112 | The spans of all items of a text are disjoint and in the order of the text. |
| CommandText.ReadsInOrder | native/local_tsclientlib/utils/tsproto-packets/src/commands.rs:33-112 | What a whole command is read as comes, argument by argument, from such spans behind its name. |
| CommandText.ReadsAreWellNamed | native/local_tsclientlib/utils/tsproto-packets/src/commands.rs:78-88 | The parser returns no argument name with a space, an equals sign, a pipe, or white space at its start. |
| CommandText.CommandNameEnds | native/local_tsclientlib/utils/tsproto-packets/src/commands.rs:36-51 | An alphanumeric name is found exactly if a space or the end of the text follows it. |
| CommandText.PiecesAreRead | native/local_tsclientlib/utils/tsproto-packets/src/commands.rs:66-112 | Reading what was printed returns everything but the arguments that print as nothing. |
| CommandText.CommandRoundTripIff | native/local_tsclientlib/utils/tsproto-packets/src/packets.rs:988-1029 | For any alphanumeric name and any parts with arbitrary values, parsing the printed command gives it back if and only if the argument names are ones the parser can return, no argument is blank, and the name can be told from what follows. |
| CommandText.CommandParser.New | native/local_tsclientlib/utils/tsproto-packets/src/commands.rs:36-51 | The loop finds the name of the command. |
| CommandText.CommandParser.Next | native/local_tsclientlib/utils/tsproto-packets/src/commands.rs:68-111 | The scanning loops return the next item and move the index behind it. |
| CommandText.CommandParser.ScanValue | native/local_tsclientlib/utils/tsproto-packets/src/commands.rs:91-106 | The value loop finds the end of the value and counts its escapes. |
| CommandText.UnescapeValue | native/local_tsclientlib/utils/tsproto-packets/src/commands.rs:122-147 | The loop unescapes a raw value. |
| CommandText.ReadCommand | native/local_tsclientlib/utils/tsproto-packets/src/commands.rs:33-112 | Name and items of a whole command are those of Parse, with which the round trip is stated. |
| CommandText.OutCommand.WriteEscaped | native/local_tsclientlib/utils/tsproto-packets/src/packets.rs:964-982 | Appends the escaped value. |
| CommandText.OutCommand.WriteBinArg | native/local_tsclientlib/utils/tsproto-packets/src/packets.rs:999-1008 | Appends an argument as Print does. |
| CommandText.OutCommand.WriteArg | native/local_tsclientlib/utils/tsproto-packets/src/packets.rs:1012-1024 | Has the same effect, although it writes the equals sign first and may take it back. |
| CommandText.OutCommand.StartNewPart | native/local_tsclientlib/utils/tsproto-packets/src/packets.rs:1028 | Appends the separator as Print does. |
| BigEndian.NumberRoundTrip | native/local_tsclientlib/utils/tsproto-packets/src/packets.rs:642-654 | Numbers that fit are read back as they were written, most significant byte first. |
| BigEndian.DigitAt | native/local_tsclientlib/utils/tsproto-packets/src/packets.rs:642-654 | Byte i of n is the digit of weight 256^(n - 1 - i). |
| VoicePacket.VoiceRoundTripIff | native/local_tsclientlib/utils/tsproto-packets/src/packets.rs:638-721 | Parsing the content written for any of the five variants gives it back if and only if its counts fit into a byte and the new whisper form has a payload. |
| VoicePacket.VoiceLayout | native/local_tsclientlib/utils/tsproto-packets/src/packets.rs:1143-1184 | At which byte of the content id, sender, codec, target and payload stand. |
| VoicePacket.WhisperLayout | native/local_tsclientlib/utils/tsproto-packets/src/packets.rs:1143-1184 | The same for the counts and lists of a whisper. |
| VoicePacket.ParsedIsWritten | native/local_tsclientlib/utils/tsproto-packets/src/packets.rs:638-721 | Writing what was parsed gives back every byte of the content. |
| VoicePacket.OutOfRangeIff | native/local_tsclientlib/utils/tsproto-packets/src/packets.rs:656-663 | The error path for an unknown codec looks beyond the content exactly for client packets of three or four bytes. |
| VoicePacket.WriteAudio | native/local_tsclientlib/utils/tsproto-packets/src/packets.rs:1143-1184 | The writer with its loops over channels and clients produces this content. |
| License.ParsedBlockIsInside | native/local_tsclientlib/tsproto/src/license.rs:334-421 | A parsed block has at least 42 bytes and lies inside the data. |
| License.BlockIff | native/local_tsclientlib/tsproto/src/license.rs:334-421 | Byte for byte: data starts with a block of a certain length and properties if and only if it has 42 bytes, the kind of the key is zero, the type is 0, 2, 8 or 32, and the string or the properties that belong to the type end where the block does. |
| License.BlockErrors | native/local_tsclientlib/tsproto/src/license.rs:336-345 | When the data is too short, when the kind of the key is wrong and when the type is unknown. |
| License.BoundsLayout | native/local_tsclientlib/tsproto/src/license.rs:203-211 | The validity is in bytes 34 to 41, most significant byte first. |
| License.CheckedIff | native/local_tsclientlib/tsproto/src/license.rs:195-222 | A block is accepted exactly if it can be read, the time is within its validity, and its validity within that of the block before. |
| License.BlockStays | native/local_tsclientlib/tsproto/src/license.rs:336-421 | A block that was complete is parsed the same when more data follows. |
| License.ScanProperties | native/local_tsclientlib/tsproto/src/license.rs:392-410 | The cursor over the properties computes Properties, with the same errors. |
| License.ParseIff | native/local_tsclientlib/tsproto/src/license.rs:167-224 | Data is a license of certain blocks if and only if they partition it after the version byte, are at most eight, and each is valid (at the given time) inside the one before. |
| License.ChainIsNested | native/local_tsclientlib/tsproto/src/license.rs:212-222 | Validity intervals are nested for every earlier and later block. |
| License.ExpiryOnlyRejects | native/local_tsclientlib/tsproto/src/license.rs:160-165 | Checking for expiry rejects licenses, but does not change what is read. |
| License.BuiltIsParsedAgain | native/local_tsclientlib/tsproto/src/license.rs:270-303 | Going on behind parsed blocks gives the same blocks, or the same error, as parsing all of the data again. |
| License.Licenses.ReadBlocks | native/local_tsclientlib/tsproto/src/license.rs:176-192 | The loop over the blocks computes ParseFrom. |
| License.Licenses.ParseInternal | native/local_tsclientlib/tsproto/src/license.rs:167-193 | The result is that of Parse, with its errors. |
| License.Licenses.Build | native/local_tsclientlib/tsproto/src/license.rs:270-303 | Reading only what was added gives what a full parse gives. |
| LicenseBuilder.BlockRoundTripIff | native/local_tsclientlib/tsproto/src/license.rs:336-421 | A written block is read with its length and bounds if and only if its type is known and, for a Ts5 block with properties, something follows it. |
| LicenseBuilder.LicenseRoundTripIff | native/local_tsclientlib/tsproto/src/license.rs:167-193 | A license written block by block is accepted if and only if it has at most eight blocks of known types, each valid inside the one before, and does not end with the properties of a Ts5 block. |
| LicenseBuilder.LicenseBlockBuilder.AddBlock | native/local_tsclientlib/tsproto/src/license.rs:732-739 | The new block is the written form of a block in which nothing is set. |
| LicenseBuilder.LicenseBlockBuilder.NotValidBefore | native/local_tsclientlib/tsproto/src/license.rs:748-758 | The bytes are then the written form with this one field changed; the other setters likewise. |
| LicenseBuilder.LicenseBlockBuilder.NotValidAfter | native/local_tsclientlib/tsproto/src/license.rs:748-762 | The same for the end of the validity. |
| LicenseBuilder.LicenseBlockBuilder.PublicKey | native/local_tsclientlib/tsproto/src/license.rs:741-746 | The same for the key. |
| LicenseBuilder.LicenseBlockBuilder.ServerLicenseType | native/local_tsclientlib/tsproto/src/license.rs:764-775 | The same for the license type. |
| LicenseBuilder.LicenseBlockBuilder.AddProperty | native/local_tsclientlib/tsproto/src/license.rs:777-790 | A property is appended and the count goes up. |
| LicenseBuilder.LicenseBlockBuilder.MaxClients | native/local_tsclientlib/tsproto/src/license.rs:792-811 | The field or, in a Ts5 block, a new property. |
| LicenseBuilder.LicenseBlockBuilder.Issuer | native/local_tsclientlib/tsproto/src/license.rs:813-842 | The string before the terminating zero or, in a Ts5 block, a new property. |
| Mixer.OutputStream.Callback | native/src/api.rs:915-1058 | A buffer of any size gets the next samples of one stream. Each of them is the sample of the voices and of the sounds that play then, added up and cut off at one. Every frame is mixed once, in order. |
| Mixer.PlayAll | native/src/api.rs:892-1064 | For every sequence of buffer sizes the concatenated output is the same stream. |
| Mixer.OutputStream.MixFrame | native/src/api.rs:922-1034 | Requests are started, both sounds are added to the voices, and the sum is clamped. |
| Mixer.OutputStream.MixSound | native/src/api.rs:998-1023 | Adds what is left of a sound to the frame and moves its position. |
| Mixer.OutputStream.EnterFrame | native/src/api.rs:920-934 | A frame is mixed when it is entered, and only then. |
| Mixer.StartExactly | native/src/api.rs:969-991 | Requests fill the free slots in order; what is beyond them is dropped; busy slots are untouched. |
| Mixer.SoundPlaysThrough | native/src/api.rs:992-1025 | From the frame in which it starts, a sound occupies its slot without a gap until its end, and then the slot is free. |
| Mixer.SoundIsHeard | native/src/api.rs:1012-1019 | Sample x of a sound is added at half volume to sample x counted from the start of its first frame. |
| Mixer.SampleIsMix | native/src/api.rs:918-1034 | Every played sample is this sum, where a slot adds the sound that started there last, as long as it has samples left, and otherwise nothing. |
| Mixer.VoiceIsPlayed | native/src/api.rs:918-1034 | Where no sound plays, the voices are played as they are. |
| Mixer.NothingRequested | native/src/api.rs:969-991 | As long as no sound was requested, none plays. |
| Mixer.SoundIsAdded | native/src/api.rs:992-1034 | A sound changes the played sample by half of its own, on top of the voices and of the other sound, unless something is cut off. |

## Left out

- Handshake, fake encryption and key derivation: the channel starts connected, with ids of packets and acks that may start anywhere; the exceptions for the client id are not modelled.
- Decryption, compression, the voice decoder: arbitrary functions with the laws stated above; a decoder may answer anything within the length it was given, depending on all calls before.
- `Init` packets in the resender: resending the first of them may legitimately put a record into the heap twice.
- The congestion window: any number from 1 to 32767 at every use; time stamps are integers, the smoothed round trip time is kept without its fraction.
- Resender.Resender.PollResend: at a fixed instant with a positive timeout, because with a timeout of zero a poll at one instant would send for ever; PollRound has neither hypothesis. The configured timeouts are 5 and 30 seconds, above the limit of one second for resending.
- Wrap-around of the generation in the resender: there, ids are positions without bound; the 48-bit arithmetic itself is modelled in PacketIds.
- Forged acks and voice packets: an ack that arrives is one that was sent.
- Pings, loss counters and bandwidth statistics, and `is_full`, which measures the array of the three queues instead of the packets in them.
- One `PacketCodec` of the model is one of the two command types of a connection; the two types share no state in these functions.
- CommandAcks.AcksAreSound: for runs below id 65535 in which no packet arrives 32767 or more positions ahead. That it fails otherwise is AcksGotIff; from id 65535 on an ack may not find its record, as AckFindsRecordIff states. The theorems of AckDelivery, SendWindow and LostAcks about whole channels are about the same ids.
- AckDelivery.EverythingGetsThrough: a fair way to get everything through exists; that it is taken with some probability is not a statement about the code. Whether packets from before arrive makes no difference, acks from before are excluded in both directions of GetsThroughIff.
- AckDelivery.NothingHeardAgain: as long as fewer than 2^48 - 32769 acks are sent from the expected one on; then their numbers come round.
- The audio handler over many speakers, volumes, and the buffering chosen for new queues: the samples to buffer are a field that may have any value.
- The lock-free jitter buffer and the attenuation of voices: a frame of voices is an input of the mixer. Samples are real numbers, sounds do not change while they play, and the count of played samples does not wrap at 2^64.
- Properties of channels other than parent and order, clients, and the generated code that dispatches messages.
- UTF-8: names and values of commands are bytes. The header of a packet is not part of the content that commands and voice packets are modelled on.
- The getters of license blocks (issuer, properties, keys) and the texts in errors; time stamps are seconds since the license epoch. LicenseBuilder.LicenseBlockBuilder appends one block after the other, as the borrow of the builder enforces.
