# pib: the Reliable Connection transport, modelled and proved

pib is a software InfiniBand host channel adapter: a Linux driver that runs the InfiniBand
transport over UDP. This project models the Reliable Connection (RC) engine of that driver,
the data path under it and the two queues around it, and proves what they promise.

## What is modelled

* **Requester** (`SendQueue`, `RequesterClass`; case by case in `TurnOutcomes`, `ResponseOutcomes`,
  `CallOutcomes`): a send work request moves from the free list
  to submitted, sending and waiting and back to the free list. Posting, PSN assignment, sending,
  acknowledges, rewind on NAK and on timeout, completion, flush, and the counters of flow control.
* **Responder** (`ReceiveQueue`, `ResponderClass`; case by case in `ResponderOutcomes`, `Replay`): expected PSN, opcode order, reassembly
  offset, the ring of 16 RDMA READ/atomic slots, the acknowledge queue and its limit on RDMA READ
  responses in a row.
* **Both ends and the channel** (`Protocol` and the `Protocol...` modules, `AckProgress`,
  `AtomicResults`, `ReceiveEntries`, `RunMemory`, `LossFree`, `LossFreeRead`, `RetryRound`, `Recovery`,
  `RdRounds`, `RnrRound`): every packet ever sent stays in a log, and a step may deliver any logged packet
  at any time. That is loss, duplication and reordering at once.
  The only bound is packet lifetime: a delivered PSN lies within 2^23 of what the receiver
  compares it with. Both ends have the same path MTU and the same first PSN.
* **Data path** (`WorkRequest`, `Memory`, `ScatterGather`, `Transfer`, `PacketLength`): segmentation,
  the scatter/gather loop on top of the page walk, the length fields of a packet.
* **Queues around it** (`Scheduler`, `CompletionQueue`).

Each state machine appears twice. A value with functions on it (`Sq`, `Rq`, `Cq`) states what
every operation does and carries the invariants and the theorems about whole runs. A class with
the driver's loops and field updates is proved equal to those functions, call by call.

PSNs are unbounded integers here. The model looks at them only through `PsnDiff`, which cuts its
arguments to 32 bits and does the driver's shifts; `DiffSeesOnlyResidues` shows that nothing
but the low 24 bits can matter, and `DiffExact` says exactly when the answer is the true
difference. Kernel time is treated the same way.

History fields (`plan`, `retired`, `effects`, `records`, `inbox`, `polled` and the like) record
what happened. No operation reads them to decide anything, except that an entry of the
completion queue is numbered.

## Results in short

* Whatever the channel does, the responder's effects are a prefix of the requester's packet
  stream, a request completes with success only after the responder executed all of it, and
  every acknowledge names an executed PSN.
* Posted requests are never lost, duplicated or reordered on their way through the lists, and
  their PSN ranges tile.
* What can be done is done: the expected packet is executed exactly when the responder has what
  it needs, and an acknowledge retires exactly the requests it covers up to the first one that is
  an RDMA READ, an atomic or in error. A SEND or RDMA READ of any length, or an aligned
  atomic, posted to an idle connection and delivered without loss is retired with success.
* Loss is made good: when everything on its way in both directions is lost, a requester with SENDs
  and RDMA WRITEs in flight and something to send gets them all retired with success by itself if
  and only if its counter of packets sent in a row is at most 64.
  An RDMA READ or atomic alone in flight recovers from the loss of its request or of any reply, and
  SENDs that met no receive entry recover once entries are posted and the delay is over.
* A retransmitted RDMA READ or atomic is answered if and only if fewer than max_dest_rd_atomic others
  came after it and, for an RDMA READ, its range is readable and the queue has room: with the bytes
  from that packet on, or with the recorded result. That result is the value the memory operation
  returned the one time the atomic ran. On a FIFO channel a retransmission always finds its slot.
* Requests end in error as they should: a request out of retries, or marked by a fatal NAK, comes back
  with its own status after everything before it, and everything behind it comes back flushed.
* A message of any length lands byte for byte where the scatter list says. In every run the message
  of an executed SEND stands in the receive buffer whose turn it was, and that of an RDMA WRITE in
  its remote range, until a later effect of the run writes there. The conditions are on that one
  message: its buffer or range has room, in elements that are usable and lie in their regions, and
  no two of its bytes share a position. Conversely, a byte that changes belongs to a region that a key
  with the needed rights names, in the receive buffer or the remote range of an executed packet.

## Where the code falls short of what one would expect

Each of these is followed as the code has it. The exact condition or the for-all statement is in
the members named.

* `pib_post_send` does not reset its byte count between the requests of a chain, so a later
  request is recorded too long (`LengthsExactIff`, `SecondSendTooLong`).
* A scatter/gather element outside its region is skipped instead of refused, and the bytes of
  later elements take its place. Each element gives its own share if and only if every element
  needed lies in its region (`SharesIff`, `RightCopyIff`); with one skipped the copy still
  succeeds if and only if the rest of the list has enough bytes (`SkippedElementShifts`,
  `SecondTakesOver`).
* An empty copy fails unless some element starts strictly inside its region
  (`EmptyCopySucceedsIff`, `EmptyCopyRefused`), so an empty SEND into a buffer that starts with its
  region puts the responder in error (`EmptySendIff`, `EmptySendRefused`). The same holds for empty
  copies by remote key (`CopyWithRkey`).
* A queue pair with an acknowledge to send is not registered with the scheduler after 64 RDMA READ
  responses in a row, unless its requester half is due anyway (`ResponderWorkRegisteredIff`,
  `AcknowledgeLeftOut`). The limit on sending RDMA READ responses is one higher
  (`ResponderWorkIff`, `ReadResponseLeftOut`).
* `get_ready_to_send` reschedules before it clears the counters, so a sender that stopped at its
  limit is not registered by the post that frees it (`ReadyRegisteredIff`, `StoppedSenderLeftOut`).
* A requester whose counter of packets sent in a row is past 64 sends nothing, not even after a
  timeout. If those packets or their answers are lost, nothing in flight is ever retired until the
  caller posts again (`RecoversIff`, `NothingMore`); any SEND of more than 65 packets can stall so
  (`LongSendStalls`).
* Without a congestion packet an RDMA READ of more than 65 packets is left unfinished
  (`ReadAnsweredIff`, `UnclearedReadIff`).
* An RNR NAK stores the delay itself as the time to resume, so the wait is kept only if the
  clock stands at zero (`RnrDelayKeptIff`).
* A worker thread that computes its timeout after the wake-up time has come takes a full second,
  which only a pending completion shortens (`SleepsPastIff`).
* Fatal NAKs are queued and then flushed with the queue pair, so none is ever sent
  (`NoFatalNakIsSent`), although `driver/pib_rc.c` builds them as answers to the requester.
* An RDMA READ whose bytes cannot be fetched when its turn to be answered comes is never refused: with
  bytes left it stays in front of every later reply, and an empty one is dropped without a reply
  (`UnfetchableRead`).
* A NAK with a code the driver does not know retires requests like an ACK of its PSN
  (`NakCompletesIff`, `UnknownNakCompletes`).
* The last response of an RDMA READ retires it with success even with an error code on it
  (`ReadRetiredIff`).

## Model

| member | source | states |
|---|---|---|
| Psn.DiffIsSignExtension | driver/pib_rc.c:89-92 | the two shifts are the 24-bit sign extension of the 32-bit difference |
| Psn.DiffSeesOnlyResidues | driver/pib_rc.c:89-92 | the difference depends only on both PSNs modulo 2^24, so unmasked 32-bit values are safe |
| Psn.DiffExact | driver/pib_rc.c:89-92 | the result is the true difference of unbounded PSNs if and only if that difference is in [-2^23, 2^23) |
| Jiffies.TimeAfterExact | driver/pib_thread.c:284-287 | wrapped time comparison is the true one for times within half the counter range |
| OpCode.AcceptedLanguage | driver/pib_lib.c:455-493 | from the reset value, the order check accepts exactly concatenations of complete messages plus at most one unfinished one, SEND and RDMA WRITE never mixed |
| WorkRequest.RequestIsMessage | driver/pib_rc.c:177-263 | the opcodes the requester writes for packets 0 to n-1 form one complete message for every opcode and n |
| WorkRequest.ShiftsComputeCeiling | driver/pib_lib.c:496-526 | the shift arithmetic is the rounded-up quotient by the path MTU, and 1 for an empty message |
| WorkRequest.NumPacketsLimit | driver/pib_lib.c:496-526 | no message of at most 2^30 bytes needs 2^23 packets |
| WorkRequest.PacketFits | driver/pib_rc.c:340-347 | every packet but the last is full, the last ends exactly at the message length, only a sole packet can be empty |
| WorkRequest.JoinRebuilds | driver/pib_rc.c:340-360 | joining the payloads of packets 0 to k-1 gives the first k path MTUs of the message, and the whole message at the end |
| SendQueueInvariant.PostSendKeeps | driver/pib_qp.c:912-1126 | posting any chain, taken or refused at any request, keeps the invariant of the send queue |
| SendQueueInvariant.ScheduleKeeps | driver/pib_thread.c:349-511 | one scheduler turn, with its timeout rewind, enqueue, send or failure, keeps the invariant |
| SendQueueInvariant.ReceiveResponseKeeps | driver/pib_rc.c:1655-1803 | any response with any PSN and syndrome keeps the invariant |
| SendQueueRuns.RequestsConserved | driver/pib_qp.c:86-159 | in every run accepted = retired ++ waiting ++ sending ++ submitted in post order, counters equal lengths, in use plus free is constant, ERR and SQE have empty lists, and each retired request was reported exactly as its signalling asks |
| SendQueueRuns.HistoryGrows | driver/pib_qp.c:1261-1268 | a retired request stays retired with its status, and PSN assignments never change |
| SendQueueRuns.PsnsTile | driver/pib_thread.c:575-605 | in every run each PSN range in waiting ++ sending starts where the one before ends and the last ends at expected_psn; ack < all, sent < all in sending, and sent = ack for an RDMA READ |
| SendQueueRuns.ReadsAndFences | driver/pib_thread.c:551-578 | in every run nr_rd_atomic is the number of RDMA READs and atomics in flight, within max_rd_atomic, and no fenced request is in flight behind one |
| SendQueueRuns.TimeoutsBounded | driver/pib_thread.c:430-452 | since its retry count was last reset a request was rewound by timeout at most retry_cnt + 1 times, and none with a negative count is in waiting |
| SendQueueRuns.RnrRetriesBounded | driver/pib_rc.c:1783-1802 | in every run a request waiting for its acknowledge was refused for lack of a receive entry at most rnr_retry times, and the retries left are rnr_retry less the refusals; with rnr_retry 7 none is counted |
| TurnOutcomes.ErrorHeadFails | driver/pib_thread.c:465-490 | a turn that finds the oldest request in flight due and in error gives it back with its status, flushes all others in order and leaves the queue pair in ERR with empty lists |
| TurnOutcomes.GivesUp | driver/pib_rc.c:132-140 | a turn that finds the oldest request due with no retry left, the timeout of that turn counted, sends nothing and marks it: retries exceeded, or RNR retries exceeded if only those are used up |
| TurnOutcomes.TwoTurnsEndIt | driver/pib_thread.c:428-490 | a request out of retries is given back with that status by the next two turns that find it due, and everything else is flushed in order |
| TurnOutcomes.MarkedUntilOut | driver/pib_thread.c:465-490 | over any run of posts and turns without a response a request marked in error stays at the head and is the next one given back, with the status it was marked with |
| TurnOutcomes.PacketGoesIff | driver/pib_rc.c:105-304 | a turn with a request to send sends its next packet if and only if retries are left, the operation is supported, the length allowed and its bytes can be gathered; otherwise it marks the request; the entry, the lists and the counter of packets in a row afterwards |
| TurnOutcomes.TakenUpIff | driver/pib_thread.c:537-605 | with nothing left to send a turn takes up the oldest submitted request if and only if the queue pair is in RTS, its fence and the READ limit allow, and gives it the next PSNs; otherwise nothing changes |
| ResponseOutcomes.RnrNakRewinds | driver/pib_rc.c:1768-1802 | an RNR NAK puts everything in flight back to be sent from the first packet not acknowledged; the head loses an RNR retry if and only if it needs a receive entry, the delay is not zero and rnr_retry is below 7 |
| ResponseOutcomes.SequenceNakRewinds | driver/pib_rc.c:1700-1704 | a sequence NAK puts everything in flight back likewise and takes no retry from anyone |
| ResponseOutcomes.AckOutcome | driver/pib_rc.c:1843-1977 | an ACK that completes k requests retires exactly those with success; if the next one is in error, or an RDMA READ or atomic the ACK passes over, it ends the connection; otherwise its acknowledged packets are counted and all that wait get timer and retries anew |
| ResponseOutcomes.FatalNakEnds | driver/pib_rc.c:1706-1726 | a fatal NAK about a request, with all before it done, retires those with success, that one with the status of the code, and flushes everything behind it |
| ResponseOutcomes.ReadResponseOutcome | driver/pib_rc.c:1981-2073 | an RDMA READ response for a PSN in flight: marks a request of another kind, is ignored if it is not the next one of the oldest request, marks the request if its bytes cannot be placed, and else counts, or retires it |
| ResponseOutcomes.AtomicResponseOutcome | driver/pib_rc.c:2077-2153 | the same for an atomic acknowledge; one of the wrong size is ignored |
| ResponseOutcomes.StrayIgnored | driver/pib_rc.c:2277-2303 | a response for a PSN of no request in flight changes nothing but lets sending go on |
| ResponseOutcomes.ShortDropped | driver/pib_rc.c:1663-1665 | a response shorter than its header, or to a queue pair that does not receive, changes nothing |
| ResponseOutcomes.UnknownClassDropped | driver/pib_rc.c:1728-1730 | a code that is neither an ACK nor a NAK of either kind changes nothing but lets sending go on |
| CallOutcomes.ChainStopsAtRefusal | driver/pib_qp.c:934-1108 | a chain is taken up to the first request that is refused, by its number of elements, the entries left, the running byte count or a failing inline copy, and the result says why |
| CallOutcomes.ErrorFlushesPosts | driver/pib_qp.c:934-1108 | in an error state every request of a chain comes back flushed and nothing is queued |
| CallOutcomes.ModifyFlushes | driver/pib_qp.c:86-138 | a move to ERR gives back everything the queue pair holds, flushed, in order |
| CallOutcomes.DrainsFirst | driver/pib_qp.c:700-757 | a draining queue pair with requests in flight stays as it is when asked to send again |
| CallOutcomes.ModifyMoves | driver/pib_qp.c:700-757 | any other move among RTR, RTS and SQD goes through and keeps all requests; one to RTS with requests pending clears the counters of flow control |
| CallOutcomes.CompletionsExact | driver/pib_rc.c:1961-1977 | in every run the completion queue got, in the order the requests were given back, exactly one completion for each that failed, asked to be signalled or belongs to a queue pair that signals all |
| PostLengths.ChainRecords | driver/pib_qp.c:1001-1021 | a chain taken whole is recorded with the running byte count added to each request that is not an atomic |
| PostLengths.LengthsExactIff | driver/pib_qp.c:921-1021 | every request of a chain is recorded with its own length if and only if each one that is not an atomic follows only empty ones |
| PostLengths.SecondSendTooLong | driver/pib_qp.c:921-1021 | two one-byte SENDs in one chain: the second is recorded as two bytes long |
| ReceiveQueueInvariant.ReceiveRequestKeeps | driver/pib_rc.c:568-683 | any request packet in any state keeps: nr_rd_atomic counts READ and atomic entries, no fatal NAK is queued, the ring holds the latest records |
| ReceiveQueueInvariant.GenerateKeeps | driver/pib_rc.c:1417-1467 | sending an acknowledge keeps the same |
| ReceiveQueueInvariant.FreshReadServed | driver/pib_rc.c:1231-1273 | a new RDMA READ that passes the first limit check never fails the second |
| ResponderExecution.SizesAccepted | driver/pib_rc.c:703-753 | every payload size segmentation produces passes the responder's size check for its opcode |
| ResponderExecution.NextInOrder | driver/pib_lib.c:455-493 | the next packet of a message always passes the opcode order check |
| ResponderOutcomes.ExpectedOutcome | driver/pib_rc.c:568-683 | the expected packet of a requester is executed if the responder has what it needs, answered with an RNR NAK if a receive entry is missing, and otherwise puts the queue pair in error with nothing done |
| ResponderOutcomes.NoEntryRefused | driver/pib_rc.c:871-874 | any packet in its turn that needs a receive entry when there is none is not executed; an RNR NAK with its PSN and min_rnr_timer is last in the queue, new unless the last one was an RNR NAK already |
| ResponderOutcomes.OnlyInOrder | driver/pib_rc.c:629-683 | whatever packet arrives is executed only with the expected PSN and an opcode that follows the last one |
| ResponderOutcomes.OnlyMessagesPerformed | driver/pib_rc.c:629-683 | whatever packets arrive at a fresh responder, from whomever, the executed ones make up whole messages and at most one unfinished one |
| ResponderOutcomes.OutOfOrderRefused | driver/pib_rc.c:632-639 | a packet in its turn whose opcode does not follow puts the queue pair in error with nothing done |
| ResponderOutcomes.SendPacketOutcome | driver/pib_rc.c:703-868 | any SEND packet in its turn is executed if and only if its opcode allows its payload and the buffer takes it; its bytes follow those before it |
| ResponderOutcomes.WritePacketOutcome | driver/pib_rc.c:905-1069 | any RDMA WRITE packet in its turn is executed if and only if its opcode allows its payload, it keeps within the announced length and reaches it with the last one, and memory takes it; its bytes go behind those before it in the announced range |
| ResponderOutcomes.ReadPacketOutcome | driver/pib_rc.c:1189-1294 | any new RDMA READ is accepted if and only if its header is whole, its length allowed, its range readable and the queue has room; the reply for its whole range is then last in the queue |
| ResponderOutcomes.AtomicPacketOutcome | driver/pib_rc.c:1124-1185 | any new atomic is applied if and only if its header is whole, its address aligned, the access works and the queue has room; the reply with the result of that access is then last in the queue |
| ResponderOutcomes.AheadNaked | driver/pib_rc.c:584-589 | a packet ahead of its turn gets a sequence NAK with its PSN and nothing is done |
| ResponderOutcomes.BehindAcked | driver/pib_rc.c:623-629 | a SEND or RDMA WRITE packet already executed is acknowledged again and not executed |
| ResponderOutcomes.UnfetchableRead | driver/pib_rc.c:1448-1467 | an RDMA READ at the head whose bytes cannot be fetched sends nothing; with bytes left it stays at the head, an empty one is dropped without a reply |
| ResponderOutcomes.SilentIff | driver/pib_rc.c:1417-1467 | a working responder that finds its memory sends nothing if and only if its queue is empty, or an RDMA READ is next and more than 64 responses went out in a row; a congestion packet or sending of its own always ends that |
| Replay.DuplicateAnsweredIff | driver/pib_rc.c:591-621 | a retransmitted packet of an executed RDMA READ or atomic is answered if and only if fewer than max_dest_rd_atomic others were executed after it and, for an RDMA READ, its range is readable and the queue has room once the replies it replaces are gone; the answer, last in the queue, is the recorded result or the bytes from that packet on; otherwise the queue pair goes to error |
| Replay.ReplyIsTail | driver/pib_rc.c:1252-1266 | the reply to packet k of an RDMA READ covers its PSNs, addresses and bytes from that packet to its end |
| Replay.RetryServedIff | driver/pib_rc.c:1240-1294 | a retransmitted RDMA READ from whomever that finds a record is served if and only if it asks for exactly the rest of what is recorded, with a whole header, readable memory and room |
| Replay.KeepExact | driver/pib_rc.c:1347-1366 | among entries near enough to compare, a new RDMA READ reply replaces exactly those that overlap its PSN range or follow it |
| SlotSearch.SearchExact | driver/pib_rc.c:591-621 | a retransmitted packet of an executed RDMA READ or atomic finds its own record if and only if fewer than max_dest_rd_atomic others were executed after it; otherwise nothing is found |
| SlotSearch.PartialRetryValid | driver/pib_rc.c:1252-1266 | an RDMA READ resumed at any packet passes the slot's address, key and length check |
| AckTruth.ServeReadTrue | driver/pib_rc.c:1268-1294 | replacing overlapped entries and queueing the new one leaves queued RDMA READ entries true, ascending and disjoint |
| AckTruth.ReadResponseTrue | driver/pib_rc.c:1497-1567 | the next response of a queued RDMA READ carries exactly the bytes its PSN stands for |
| AckTruth.GenerateTrue | driver/pib_rc.c:1417-1467 | every response sent is true of what was executed, and what stays queued remains true |
| ProtocolRequests.ExpectedReceived | driver/pib_rc.c:629-683 | the packet with the expected PSN is executed in full as the next step of the stream, or nothing changes but the reply |
| ProtocolRequests.RequestReceived | driver/pib_rc.c:568-683 | any logged packet delivered at any time executes the next step or nothing |
| ProtocolResponses.ReceiveResponseCovered | driver/pib_rc.c:1655-1803 | a true response retires with success only requests the responder has finished |
| ProtocolResponses.MatchFindsOwner | driver/pib_rc.c:2277-2303 | the search returns entry i if and only if the PSN lies in the range of entry i, across wrap-around |
| ProtocolSafety.RunSafe | driver/pib_rc.c:538-560 | every legal run of both ends keeps the joint invariant |
| ProtocolTheorems.ExactlyOnceInOrder | driver/pib_rc.c:568-683 | in every run the responder's effects on memory and receive queue are a prefix of the requester's packet stream: none skipped, none twice |
| ProtocolTheorems.MessagesArriveIntact | driver/pib_rc.c:794-868 | in every run the receiver gets a prefix of the sent messages, whole, in order, byte for byte |
| ProtocolTheorems.SuccessMeansExecuted | driver/pib_rc.c:1843-1977 | in every run a request retired with success was executed in full, with everything posted before it |
| ProtocolTheorems.AcknowledgesAreBehind | driver/pib_rc.c:1298-1343 | in every run every ACK-coded acknowledge, queued or sent, names a PSN before the expected one, coalescing included |
| ProtocolTheorems.NoFatalNakIsSent | driver/pib_rc.c:2241-2249 | in every run only ACK, RNR NAK and PSN sequence error are ever sent |
| ProtocolTheorems.AcknowledgeQueueOrdered | driver/pib_rc.c:1347-1410 | in every run nr_rd_atomic counts the queued READ and atomic entries, and READ entries have ascending disjoint PSN ranges |
| ProtocolTheorems.DuplicateReadResponsesAgree | driver/pib_rc.c:1513-1567 | in every run two RDMA READ responses with one PSN carry the same remote range, whichever request or retry they answer, and it is the range of that PSN |
| ProtocolTheorems.AtomicsReplayTheirResult | driver/pib_rc.c:591-621 | in every run an atomic acknowledge carries the result of the one record there is for its PSN |
| AtomicResults.ResultsAreFromMemory | driver/pib_rc.c:1158-1184 | in every run each record of an atomic and each atomic acknowledge carries the value the memory operation returned to the delivery that took the responder past its PSN |
| AtomicResults.SuppliedOnce | driver/pib_rc.c:1170-1184 | in every run there is one such delivery for a PSN |
| ReceiveEntries.EntriesConserved | driver/pib_rc.c:839-868 | in every run the receive entries posted are those used up, one by each SEND and each RDMA WRITE with immediate data executed, and those left; a queue pair in error has none |
| ProtocolTheorems.RecordsAscend | driver/pib_rc.c:1170-1184 | in every run each RDMA READ or atomic was recorded once, under ascending PSNs |
| ProtocolTheorems.OwnerUnique | driver/pib_rc.c:2277-2303 | a PSN lies in the range of one request only |
| ProtocolFifo.RetransmissionsFindTheirSlot | driver/pib_rc.c:591-621 | on a FIFO lossy channel with max_rd_atomic at most max_dest_rd_atomic, every retransmitted executed RDMA READ or atomic finds its own slot |
| ProtocolProgress.ExecutedIff | driver/pib_rc.c:629-683 | the expected packet is executed if and only if the queue pair can receive, a needed receive entry is there, the READ limit leaves room, an atomic is aligned and the memory access succeeds |
| ProtocolProgress.InOrderMessageDelivered | driver/pib_rc.c:687-868 | a SEND of any length whose packets arrive in order is delivered whole and the last queued acknowledge names its last PSN |
| ProtocolProgress.ReadAnsweredIff | driver/pib_rc.c:1417-1573 | an RDMA READ at the head is answered in full by as many turns as it has packets if and only if leave to go on comes often enough that never more than 65 go out in a row; then there is one response per PSN, in order, with its opcode, address and length |
| ProtocolProgress.UnclearedReadIff | driver/pib_rc.c:1448-1456 | with no leave at all it is answered in full if and only if it has at most 65 packets |
| ProtocolProgress.SixtyFourInARow | driver/pib_rc.c:1567-1570 | answering 64 packets brings the counter to its limit |
| ProtocolProgress.AckCompletesIff | driver/pib_rc.c:1843-1977 | an ACK retires a request in flight with success if and only if it covers it and all before it and none of them is an RDMA READ, an atomic or marked in error |
| ProtocolProgress.NakCompletesIff | driver/pib_rc.c:1696-1735 | a NAK retires the owner of its PSN with success if and only if its code is none of the five known ones and an ACK for that PSN would |
| ProtocolProgress.UnknownNakCompletes | driver/pib_rc.c:1696-1735 | code 0x65 for the last PSN of a lone SEND reports the SEND as done |
| ProtocolProgress.ReadRetiredIff | driver/pib_rc.c:1655-1803 | of all responses, exactly the RDMA READ response for its last PSN, with every earlier one in and its bytes placed, retires an RDMA READ with success, and only the oldest request in flight; the syndrome may be an ACK or any NAK but a sequence error |
| ProtocolProgress.AtomicRetiredIff | driver/pib_rc.c:1655-1803 | of all responses, exactly an atomic acknowledge of the right size for its PSN, with its result placed, retires an atomic with success, and only the oldest request in flight |
| Memory.CopyRange | driver/pib_mr.c:606-634 | the byte loop moves exactly the given range in the given direction |
| Memory.CopyPages | driver/pib_mr.c:473-529 | the page walk is a flat copy over the region's bytes, in place, when the pages cover the range |
| Memory.CopyData | driver/pib_mr.c:327-378 | the scatter/gather loop returns the planned status and copies exactly the planned positions in order; if the list is empty, or its first key names no valid region with the rights asked for, it fails with a protection error and nothing is copied |
| ScatterGather.OnlyPermitted | driver/pib_mr.c:334-378 | for all lists, offsets and sizes every position a copy visits holds a byte of a valid region that grants the rights asked for, inside the element whose key names it |
| ScatterGather.SharesIff | driver/pib_mr.c:334-374 | for all lists, offsets and sizes each element the window reaches contributes its own share if and only if every element up to the end of the window has a usable key and lies in its region as far as it is needed |
| ScatterGather.SuccessIff | driver/pib_mr.c:334-377 | for all lists a copy of size > 0 succeeds if and only if what the elements contribute up to the first bad key adds up to its size, and it visits that many positions in any case |
| ScatterGather.FlatCopy | driver/pib_mr.c:327-378 | if every element up to the end of the window is usable and inside, and size > 0, the positions are bytes offset to offset + size of the concatenated buffers, and the copy succeeds if and only if that range fits; keys behind the window do not matter |
| ScatterGather.RightCopyIff | driver/pib_mr.c:327-378 | a copy succeeds with every element giving its own share if and only if every element up to the end of the window is usable and inside and the range fits |
| ScatterGather.TooLongFails | driver/pib_mr.c:327-378 | no copy past the total length succeeds, whatever is skipped |
| ScatterGather.TailCopySucceedsIff | driver/pib_mr.c:360-377 | a copy to the end of the list succeeds if and only if no element it needs is skipped |
| ScatterGather.SkippedElementShifts | driver/pib_mr.c:360-377 | for all lists, offsets and sizes: past a skipped element the copy goes on with the rest of the list for the bytes still left, and succeeds if and only if the rest supplies them |
| ScatterGather.SecondTakesOver | driver/pib_mr.c:360-377 | two elements, the first outside its region: success with the bytes of the second |
| ScatterGather.NeededPart | driver/pib_mr.c:352-362 | what is inside for a window is inside for every part of it |
| ScatterGather.EmptyCopySucceedsIff | driver/pib_mr.c:334-377 | an empty copy succeeds if and only if some element starts strictly inside its region and no key up to it is bad |
| ScatterGather.EmptyCopyRefused | driver/pib_mr.c:360-377 | one usable element that starts at the first byte of its region: an empty copy is refused |
| Memory.CopyWithRkey | driver/pib_mr.c:396-432 | all of a remotely named range is moved or nothing, with the exact condition for success and each error |
| Memory.ScatterThenGather | driver/pib_mr.c:606-634 | scattering to distinct positions and gathering them again gives the bytes back |
| Transfer.MessageLandsIntact | driver/pib_rc.c:794-845 | for every path MTU, length and pair of lists with room, segmenting and landing in PSN order puts exactly the message in the receive buffer, changes nothing else and reports the full length |
| Transfer.PacketCopies | driver/pib_rc.c:340-360 | each packet's copy succeeds at both ends and visits exactly its share of the buffer |
| LossFree.LossFreeSend | driver/pib_thread.c:349-511 | a SEND of any length posted to an idle connection, every packet and acknowledge delivered in turn, is retired with success, its message is delivered and the connection is idle again |
| LossFree.ConnectedIsIdle | driver/pib_qp.c:700-743 | two ends just configured become an idle connection |
| LossFreeRead.LossFreeReadCompletes | driver/pib_rc.c:1981-2073 | an RDMA READ of any length posted to an idle connection, its request, every response and every congestion packet delivered in turn, is retired with success and the connection is idle again |
| LossFreeRead.ResponseTaken | driver/pib_rc.c:2003-2057 | the next response of the only request in flight moves it on or retires it, and every 22nd in a row sends a congestion packet |
| RdRounds.LossFreeAtomic | driver/pib_rc.c:2077-2153 | an aligned atomic posted to an idle connection, with request and acknowledge delivered, is retired with success; the acknowledge carries what the memory operation returned and the connection is idle again |
| AckProgress.AcknowledgedMeansExecuted | driver/pib_rc.c:1843-1977 | in every run the packets of a request counted as acknowledged, or as answered if it is an RDMA READ, were executed by the responder, and a queue pair not in error has retired nothing but successes |
| RetryRound.SenderTurn | driver/pib_thread.c:428-490 | a turn below the limit sends the first packet not sent, or after a timeout the first not acknowledged, and moves its request on |
| RetryRound.AnyReplied | driver/pib_rc.c:568-683 | a responder with an empty queue answers any SEND or RDMA WRITE packet in flight with one acknowledge: an ACK if its turn has come or is past, a sequence NAK otherwise |
| RetryRound.AckTaken | driver/pib_rc.c:1843-1977 | the ACK of the packet sent last retires exactly the requests that end with it or before and leaves none waiting |
| Recovery.RecoversIff | driver/pib_thread.c:428-490 | in every reachable state where only SENDs and RDMA WRITEs free of error are in flight, over fewer than 2^23 PSNs, a turn has something to send and the responder's acknowledge queue is empty: with all packets sent so far lost and no call from outside, some continuation retires them all with success if and only if nr_contig_requests is at most 64 |
| Recovery.Progress | driver/pib_rc.c:1655-1803 | one round of sending, answering and taking the answer retires the oldest requests, moves the first one on by a packet or puts both ends in step; two ends in step stay so |
| Recovery.NothingMore | driver/pib_thread.c:473-477 | past the limit no continuation without a call from outside or an old packet ever sends a packet or retires a request |
| Recovery.LongSendStalls | driver/pib_thread.c:473-477 | any SEND of more than 65 packets posted to an idle connection stalls in that way after 65 turns if nothing is delivered |
| RdRounds.LostReplyRecovers | driver/pib_rc.c:591-621 | in every reachable state with an RDMA READ or aligned atomic alone in flight, its timer run out, a retry left and the responder idle, whatever of its request and replies was lost: a run that uses nothing sent before retires it with success, answered from the record or executed if it had not been |
| RnrRound.RnrNakRecovers | driver/pib_rc.c:1768-1802 | a packet meets no receive entry, with only SENDs and RDMA WRITEs free of error in flight: the RNR NAK is taken, and from any time at which its delay is over, with entries posted, every request in flight is retired with success, if the oldest has an RNR retry left |
| RunMemory.MessagesInMemory | driver/pib_rc.c:794-868 | in every run the message of an executed SEND or RDMA WRITE with room in its place stands there byte for byte from its last packet until a later effect of the run writes there; the place of a SEND is the receive buffer with as many before it as there are SENDs and RDMA WRITEs with immediate data before it |
| RunMemory.WritesFit | driver/pib_mr.c:473-529 | every effect writes as many bytes as it has positions, all of them in memory |
| RunMemory.OnlyAllowedChange | driver/pib_mr.c:396-463 | whatever was executed, a byte of memory that changed lies in the receive buffer a SEND went to, in an element whose key grants the rights, or in the range and region whose key an executed RDMA WRITE or atomic carried |
| RunMemory.DoneIsExecuted | driver/pib_rc.c:839-868 | in every run each request the responder is past has been executed, and a SEND among them is in the inbox in its turn |
| RunMemory.SuccessIsInMemory | driver/pib_rc.c:1843-1977 | in every run a SEND or RDMA WRITE retired with success has its message in place at the receiver unless a later effect wrote there |
| RunMemory.WriteWritesTo | driver/pib_rc.c:1022-1069 | packet by packet, an RDMA WRITE whose range lies in a region its key grants writes its message to that range in order |
| RunMemory.PlanUses | driver/pib_rc.c:1062-1069 | executing requests uses up one receive entry for each SEND and each RDMA WRITE with immediate data |
| RunMemory.EmptySendIff | driver/pib_rc.c:794-845 | an empty SEND in its turn is executed if and only if some element of its receive buffer starts strictly inside its region with no bad key up to it, and puts the responder in error otherwise |
| RunMemory.EmptySendRefused | driver/pib_rc.c:794-845 | an empty SEND to a buffer of one element that starts with its region puts the responder in error |
| PacketLength.SetPktlen | driver/pib_packet.h:85-88 | the field holds the value modulo 2^11 and no other byte changes |
| PacketLength.WithPadcnt | driver/pib_packet.h:115-119 | the pad count is replaced and every other bit kept |
| PacketLength.WithSolicited | driver/pib_packet.h:128-132 | the solicited bit is replaced and every other bit kept |
| PacketLength.Finish | driver/pib_rc.c:366-373 | length, pad and solicited fields of a finished packet; the rest of the packet is unchanged |
| PacketLength.RoundTripIff | driver/pib_thread.c:721-750 | the receiver recovers header size and data length if and only if the word count fits in 11 bits |
| PacketLength.SupportedPacketsArrive | driver/pib_thread.c:839-902 | every header combination and opcode with a payload up to 4096 bytes survives the trip |
| PacketLength.DeliveredAddsUp | driver/pib_thread.c:721-750 | for any received bytes, a delivered packet's headers, data, pad, CRC and footer add up to the datagram |
| Scheduler.RegisteredIff | driver/pib_thread.c:1144-1192 | a queue pair is registered for a time or an earlier one if and only if acknowledges are let in or its requester half is due by then |
| Scheduler.RequesterWorkRegistered | driver/pib_thread.c:1144-1192 | whatever the requester could do before the scheduling horizon is registered for that time or an earlier one |
| Scheduler.ResponderWorkRegisteredIff | driver/pib_thread.c:1147-1152 | an acknowledge that could be sent is registered if and only if fewer than 64 RDMA READ responses went out in a row or the requester half is due |
| Scheduler.ResponderWorkIff | driver/pib_rc.c:1417-1466 | what the responder can send: anything but an RDMA READ response past the limit |
| Scheduler.AcknowledgeLeftOut | driver/pib_thread.c:1147-1152 | at the limit an ACK that could be sent leaves the queue pair unregistered |
| Scheduler.ReadResponseLeftOut | driver/pib_thread.c:1147-1152 | at the limit an RDMA READ response that could be sent leaves the queue pair unregistered |
| Scheduler.ReadyRegisteredIff | driver/pib_qp.c:1291-1300 | what the requester can do after its counters are cleared is registered if and only if the counter did not hold it back before, or an acknowledge or retransmission is due |
| Scheduler.StoppedSenderLeftOut | driver/pib_qp.c:1291-1300 | a sender stopped at its limit is ready after a post and not registered |
| Scheduler.RnrDelayKeptIff | driver/pib_rc.c:1784-1795 | an RNR delay is waited out if and only if the clock stands at zero or sending is stopped anyway |
| Scheduler.DescentComparesExactly | driver/pib_thread.c:1207-1210 | the wrapped comparison of the descent is the true order by time and registration |
| Scheduler.WithoutKeeps | driver/pib_thread.c:1134-1138 | erasing a queue pair keeps the others in order and never makes the earliest time earlier |
| Scheduler.QpScheduler.Descend | driver/pib_thread.c:1199-1216 | whatever entries a tree makes it probe, the descent ends at the one place that keeps the order |
| Scheduler.QpScheduler.Register | driver/pib_thread.c:1192-1230 | adds exactly the queue pair, keeps order and marks, sets the wake-up time to the earliest and raises the flag if it has come |
| Scheduler.QpScheduler.Reschedule | driver/pib_thread.c:1118-1231 | the tree holds exactly the marked queue pairs, ordered by time and registration, and the wake-up time is not later than the earliest due time or now |
| Scheduler.QpScheduler.First | driver/pib_thread.c:1234-1253 | returns the least queue pair, and none if and only if none is marked |
| Scheduler.QpScheduler.WakesForWork | driver/pib_thread.c:1118-1231 | a rescheduled queue pair whose acknowledges are let in or whose requester half is due by t is queued, and the wake-up time is at most t |
| Scheduler.QpScheduler.Sleep | driver/pib_thread.c:283-291 | the sleep computed and the wake-up time left behind |
| Scheduler.SleepsPastIff | driver/pib_thread.c:283-291 | the thread sleeps past the earliest due time if and only if the wake-up time has already come and that time is within the second |
| CompletionQueue.RunKeeps | driver/pib_cq.c:207-400 | any mix of insert, poll, purge and arm keeps used + free = capacity, the order and numbering of completions, everything of queue pairs never purged, and one notification per arm |
| CompletionQueue.FifoUnlessPurged | driver/pib_cq.c:207-246 | without purges accepted is exactly polled followed by queued |
| CompletionQueue.OverflowIff | driver/pib_cq.c:358-365 | the queue is in error if and only if some insert met it full |
| CompletionQueue.ErrorIsFinal | driver/pib_cq.c:353-356 | once in error nothing is accepted, polled, armed or notified again |
| CompletionQueue.InsertOutcome | driver/pib_cq.c:345-400 | in every run an insert is accepted if and only if the queue works and is not full; a full one breaks it, with the code for each case |
| CompletionQueue.PollGivesOldest | driver/pib_cq.c:207-246 | in every run without purges a poll of a working queue returns the oldest completions not polled yet, as many as wanted or all there are |
| CompletionQueue.PollGivesQueued | driver/pib_cq.c:207-246 | with purges it returns the oldest of those left |
| CompletionQueue.PurgeRemoves | driver/pib_cq.c:292-312 | a purge leaves none of the queue pair and every other completion in its place |
| CompletionQueue.ArmTellsWaiting | driver/pib_cq.c:249-285 | arming reports missed events if and only if asked to and some completion is not polled yet |
| CompletionQueue.ArmedFires | driver/pib_cq.c:366-392 | an armed queue fires on the next insert it waits for, whatever inserts, polls and purges it does not wait for come between |
| CompletionQueue.SilentUntilArmed | driver/pib_cq.c:366-392 | once it has fired it stays silent in every run until it is armed again |
| CompletionQueue.PurgeKeeps | driver/pib_cq.c:292-312 | a purge returns the number removed and keeps the others' order and counts |
| CompletionQueue.Queue.InsertWc | driver/pib_cq.c:345-400 | new state and result of an insert |
| CompletionQueue.Queue.PollCq | driver/pib_cq.c:207-246 | new state and result of a poll; the array gets the oldest completions in order and nothing past them |
| CompletionQueue.Queue.RemoveQp | driver/pib_cq.c:292-312 | new state and count of a purge |
| CompletionQueue.Queue.RequestNotify | driver/pib_cq.c:249-285 | new state and result of arming |
| RequesterClass.Requester.PostSend | driver/pib_qp.c:912-1126 | the loop over a chain is the posting function, result and all, and in RTS sending is made ready |
| RequesterClass.Requester.PostWr | driver/pib_qp.c:934-1108 | one request of a chain: refused with its code, flushed at once, or appended to submitted |
| RequesterClass.Requester.Flush | driver/pib_qp.c:86-138 | the three flush loops complete waiting, sending and submitted in that order and empty them |
| RequesterClass.Requester.ProcessNewSendWr | driver/pib_thread.c:537-605 | takes the oldest submitted request exactly when fence and READ limit allow, and gives it the next PSN range |
| RequesterClass.Requester.RewindAll | driver/pib_thread.c:441-452 | the two rewind loops put waiting before sending in order and cancel what was sent |
| RequesterClass.Requester.Transmit | driver/pib_rc.c:105-304 | the packet sent and the entry's next list, or the status that stops it |
| RequesterClass.Requester.Schedule | driver/pib_thread.c:349-511 | one scheduler turn of the requester is the scheduling function, whose outcomes are those of the `TurnOutcomes` rows |
| RequesterClass.Requester.FailHead | driver/pib_thread.c:643-658 | the head completes in error, then everything else is flushed |
| RequesterClass.Requester.ReceiveAck | driver/pib_rc.c:1843-1977 | both loops together complete exactly the acknowledged prefix of waiting ++ sending |
| RequesterClass.Requester.MatchSendWqe | driver/pib_rc.c:2277-2303 | the two-list search returns the first entry whose range holds the PSN |
| RequesterClass.Requester.MarkError | driver/pib_rc.c:1810-1831 | exactly the owner of the PSN is marked |
| RequesterClass.Requester.ReceiveRead | driver/pib_rc.c:1981-2073 | an RDMA READ response advances or completes the head only if it is the next one due |
| RequesterClass.Requester.ReceiveAtomic | driver/pib_rc.c:2077-2153 | an atomic acknowledge completes the head only if it is for it |
| RequesterClass.Requester.RetrySend | driver/pib_rc.c:1768-1802 | rewind, and the RNR count and time of the new head |
| RequesterClass.Requester.ReceiveResponse | driver/pib_rc.c:1655-1803 | dispatch on syndrome and opcode is the response function, whose outcomes are those of the `ResponseOutcomes` rows |
| RequesterClass.Requester.PostponeTimeouts | driver/pib_rc.c:2323-2334 | waiting entries get a new deadline and their retry count back |
| RequesterClass.Requester.ModifyState | driver/pib_qp.c:700-757 | state change, flush on ERR, and sending made ready on RTS with requests pending |
| ResponderClass.Responder.PushAck | driver/pib_rc.c:1298-1343 | both coalescing rules, and the counter a new NAK clears |
| ResponderClass.Responder.RemoveOverlapped | driver/pib_rc.c:1347-1366 | the backward loop removes exactly the overlapping or later entries and counts the READ and atomic ones down |
| ResponderClass.Responder.FindSlot | driver/pib_rc.c:598-606 | the newest-first loop over the ring returns the first matching slot |
| ResponderClass.Responder.ReceiveSend | driver/pib_rc.c:687-901 | not ready, refused, or landed at the offset and acknowledged |
| ResponderClass.Responder.ReceiveWrite | driver/pib_rc.c:905-1120 | refused, not ready, or written at the offset and acknowledged |
| ResponderClass.Responder.ReceiveAtomicRequest | driver/pib_rc.c:1124-1185 | refused, or applied, recorded in the ring and acknowledged with the value the access returned (`AtomicPacketOutcome`, `ResultsAreFromMemory`) |
| ResponderClass.Responder.ReceiveNewRead | driver/pib_rc.c:1189-1294 | refused, or recorded in the ring and queued in place of what it overlaps |
| ResponderClass.Responder.ReceiveOld | driver/pib_rc.c:591-627 | duplicates: answered from the slot, fatal if there is none, or acknowledged again (`DuplicateAnsweredIff`, `BehindAcked`) |
| ResponderClass.Responder.ReceiveRequest | driver/pib_rc.c:568-683 | dispatch on PSN, opcode order and opcode is the request function |
| ResponderClass.Responder.Generate | driver/pib_rc.c:1417-1573 | the reply sent and the queue and counters left, with the limit on RDMA READ responses |

## Left out

- Sockets, kernel threads, timers, tracing, debugfs, user library and test programs: plumbing around the modelled core.
- Red/black tree internals: library code; the tree is its in-order sequence, probed in any shape.
- Management datagrams, the easy switch and pibnetd: field copying.
- Unreliable Datagram, shared receive queues, multicast and QP reset: other services and life-cycle steps.
- Local-only requests, fast registration and send-with-invalidate: not part of the RC packet protocol modelled here.
- Bytes landed by RDMA READ responses: the receiver strips a header that middle packets do not carry; RDMA READ results are stated over PSNs and remote ranges.
- Which atomic runs and what it computes: the update is a parameter; only when it runs and which result is replayed is modelled.
- Solicited events: a notification beside the protocol.
- Recovery with RDMA READs or atomics among other requests in flight, and recovery under a fair scheduler: an ACK past an unfinished RDMA READ ends the connection (`AckOutcome`), and the recovery results say what a run can do, not what every run does.
- ProtocolTheorems.ExactlyOnceInOrder: a copy that fails at a later element has already written the earlier ones (driver/pib_mr.c:364-369); the refused packet records no effect, so those bytes are not among the effects.
- Allocation failures of acknowledge entries and locking: each call is one step on one state.
- The outcome of a memory access inside the protocol steps: a parameter of the step, free in every run.
- 64-bit wrap-around of address plus length in region checks, and DMA regions: addresses are unbounded and every region is paged.
- The queue pair state shared by requester and responder: each half keeps its own copy and may fail at any step, which includes every run of the shared one.
- Repeated clock readings within one call: the clock is read once.
- Aliasing of packet buffer and registered memory: they are two arrays.
- RequesterClass.Requester.PostWr: inline requests longer than max_inline_data are sent from a buffer nothing was copied to, so their bytes are not modelled, though a failing copy of an inline request is; nor is the behaviour switch that takes an element of length zero as the largest length.
- RequesterClass.Requester.ModifyState: leaving ERR, which needs a reset, is not modelled, nor are the return codes of modify_qp and the drained event. In SQD the drained flag is set whenever waiting and sending are empty, which is the condition modelled.
