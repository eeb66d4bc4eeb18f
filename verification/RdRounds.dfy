/**
  RDMA READs and atomics whose request or replies were lost: the request is sent again, answered from
  the responder's record or for the first time, and retired.
 */
module RdRounds {
  import opened Psn
  import opened Jiffies
  import opened OpCode
  import opened WorkRequest
  import opened SendQueue
  import SQI = SendQueueInvariant
  import opened ReceiveQueue
  import opened ReceiveQueueInvariant
  import opened Protocol
  import opened ResponderExecution
  import opened SlotSearch
  import opened ProtocolRequests
  import opened ProtocolSafety
  import opened ProtocolProgress
  import opened ResponderOutcomes
  import opened AckProgress
  import Replay
  import RetryRound
  import LossFree
  import LossFreeRead
  import opened Recovery

  // ---------------------------------------------------------------------------
  // The requester

  /** `item`, an RDMA READ or atomic, is alone in flight; its timer has run out, and it may be tried again. */
  predicate Alone(q: Sq, item: Item, now: int) {
    && q.state == RTS && q.sending == [] && q.submitted == [] && |q.waiting| == 1 && q.nrContig <= MAX_CONTIG_REQUESTS
    && IsRdAtomic(item.wr.opcode) && item.wr.length <= MAX_PAYLOAD_LEN
    && var e := q.waiting[0];
       && ItemOf(e) == item && e.expected == item.End() && e.status == Success && e.retryCnt > 0 && e.rnrRetry >= 0
       && !TimeAfter(e.scheduleTime, now) && !TimeAfter(e.localAckTime, now)
  }

  /** The request from packet `j` on is out. */
  predicate Tried(q: Sq, item: Item, j: nat, now: int) {
    && q.state == RTS && q.sending == [] && q.submitted == [] && |q.waiting| == 1
    && LossFree.Carries(q.waiting[0], item, if item.wr.opcode == WrRead then j else 1, j, now)
  }

  /** A turn sends the request again, for all that is not in yet. */
  lemma SentAgain(q: Sq, item: Item, now: int)
    requires SQI.Inv(q) && Alone(q, item, now)
    ensures var (t, out) := Schedule(q, now, Success);
      var j := q.waiting[0].ack;
      && 0 <= j < item.all && ItemOk(q.attr.mtu, item) && (item.wr.opcode != WrRead ==> j == 0)
      && out == Some(PacketOf(q.attr.mtu, item, j)) && Tried(t, item, j, now)
      && t.plan == q.plan && t.retired == q.retired && t.attr == q.attr && t.nrContigReads == q.nrContigReads
      && Prepare(q, now).plan == q.plan && |Prepare(q, now).sending| == 1 && Prepare(q, now).sending[0].sent == j
  {
    LoneEntry(q);
    hide SQI.Inv, PacketOf, TimeAfter, FailHead, ItemOk;
    LossFree.NowIsNotLater(now);
    var e := q.waiting[0];
    var e' := e.(retryCnt := e.retryCnt - 1, timeouts := e.timeouts + 1, localAckTime := now + SCHED_TIMEOUT, sent := e.ack);
    var p := Prepare(q, now);
    assert p.waiting == [] && p.sending == [e'];
    var e1 := e'.(scheduleTime := now);
    assert p.sending[0 := e1] == [e1];
    assert SendStatus(q.attr, e1, Success) == Success && !RestartsContig(e1);
  }

  lemma LoneEntry(q: Sq)
    requires SQI.Inv(q) && |q.waiting| == 1
    ensures SQI.EntryOk(q.attr, q.waiting[0])
  {
    hide SQI.Counted, SQI.Conserved, SQI.RdCounted, SQI.Fenced, SQI.SubmittedOk, SQI.Planned, SQI.PlanTiled, SQI.EntryOk, SQI.WaitingOk;
  }

  // ---------------------------------------------------------------------------
  // Both ends

  /** Nothing is on its way, and the responder has nothing to say but can answer. */
  ghost predicate Lost(s: System, item: Item, now: int) {
    && Truthful(s) && Alone(s.sq, item, now) && RecvOk(s.rq.state) && s.rq.acks == [] && s.rq.attr.maxDest > 0
    && (IsAtomic(item.wr.opcode) ==> item.wr.raddr % 8 == 0)
  }

  /** The item is the last of the plan; the responder is just before it or just past it. */
  ghost predicate AtEdge(s: System, item: Item) {
    && s.sq.plan != [] && s.sq.plan[|s.sq.plan| - 1] == item && s.part == 0
    && (if s.rq.psn == item.base then s.done == |s.sq.plan| - 1 else s.rq.psn == item.End() && s.done == |s.sq.plan|)
  }

  lemma EdgeOf(s: System, item: Item, now: int)
    requires Lost(s, item, now)
    ensures AtEdge(s, item) && item.base + s.sq.waiting[0].ack <= s.rq.psn
  {
    hide Safe, TimeAfter;
    RetryRound.Sound(s);
    RetryRound.HeadReached(s);
    RetryRound.RangeOf(s.sq, 0);
    RetryRound.PlanOfFlight(s.sq, 0);
    assert Flight(s.sq) == [s.sq.waiting[0]];
    hide SQI.Inv, LocalInv, AckTruth.AcksTrue, AckTruth.ReadsAscend, IdealEffects, EffectsOf, IdealMessages, RecordsMatch, MidMessage, NumPackets;
    var plan, n := s.sq.plan, |s.sq.plan| - 1;
    assert plan[n] == item;
    assert AckProgress.Behind(Flight(s.sq)[0], s.rq.psn);
    if s.done < n {
      PlanOrdered(s.rq.attr.mtu, plan, s.rq.attr.origin, s.sq.expectedPsn, s.done, n);
      StartsAtBase(s.rq.attr.mtu, plan, s.rq.attr.origin, s.sq.expectedPsn, s.done);
      StartsAtBase(s.rq.attr.mtu, plan, s.rq.attr.origin, s.sq.expectedPsn, n);
    } else if s.done == n {
      StartsAtBase(s.rq.attr.mtu, plan, s.rq.attr.origin, s.sq.expectedPsn, n);
    }
  }

  /** The request for packet `j` on ends the log, and the responder is where it was. */
  ghost predicate AskedAgain(s: System, item: Item, j: nat, now: int) {
    && Truthful(s) && Tried(s.sq, item, j, now) && AtEdge(s, item) && RecvOk(s.rq.state) && s.rq.acks == [] && s.rq.attr.maxDest > 0
    && IsRdAtomic(item.wr.opcode) && item.wr.length <= MAX_PAYLOAD_LEN && ItemOk(s.rq.attr.mtu, item)
    && (IsAtomic(item.wr.opcode) ==> item.wr.raddr % 8 == 0 && j == 0)
    && j < item.all && item.base + j <= s.rq.psn
    && s.requests != []
    && var q := s.requests[|s.requests| - 1];
       q.packet == PacketOf(s.rq.attr.mtu, item, j) && q.item == |s.sq.plan| - 1 && q.k == j
  }

  lemma AskingAgain(s: System, item: Item, now: int)
    requires Lost(s, item, now)
    ensures var t, j := Transmitted(s, now, Success), s.sq.waiting[0].ack;
      && 0 <= j && AskedAgain(t, item, j, now)
      && t.rq == s.rq && t.responses == s.responses && |t.requests| == |s.requests| + 1
      && t.sq.retired == s.sq.retired && t.sq.plan == s.sq.plan && t.sq.nrContigReads == s.sq.nrContigReads
  {
    hide Truthful, Schedule, Prepare, SQI.Inv, PacketOf, Tried, ItemOk, RdItems, RecvOk, ResponderOk, Transmitted, AtEdge, TimeAfter;
    RetryRound.Sound(s);
    EdgeOf(s, item, now);
    SentAgain(s.sq, item, now);
    SenderTruthful(s, now);
    LossFree.TransmittedIs(s, now, PacketOf(s.sq.attr.mtu, item, s.sq.waiting[0].ack));
    var t := Transmitted(s, now, Success);
    MtuSame(s);
    SameEdge(s, t, item);
  }

  lemma SameEdge(s: System, t: System, item: Item)
    requires AtEdge(s, item) && t.sq.plan == s.sq.plan && t.done == s.done && t.part == s.part && t.rq == s.rq
    ensures AtEdge(t, item)
  {
  }

  lemma MtuSame(s: System)
    requires Truthful(s)
    ensures s.sq.attr.mtu == s.rq.attr.mtu
  {
    hide SQI.Inv, ResponderOk, AllGenuine, AllTrue, ProtocolResponses.Covered, Truth;
  }

  lemma SenderTruthful(s: System, now: int)
    requires Truthful(s)
    ensures Truthful(Transmitted(s, now, Success))
  {
    hide Safe, Truth, Schedule, Prepare, RdItems;
    TransmittedSafe(s, now, Success);
    ScheduleTruth(s.sq, now, Success, s.rq.psn);
  }

  // ---------------------------------------------------------------------------
  // The responder

  /** The reply to an RDMA READ or atomic from packet `j` on is queued alone. */
  ghost predicate ReplyQueued(r: Rq, item: Item, j: nat) {
    && |r.acks| == 1 && RecvOk(r.state) && r.psn == item.End()
    && if item.wr.opcode == WrRead then r.acks[0] == LossFreeRead.ReadEntry(r.attr.mtu, item, j, j) && r.nrContigReads == 0
       else r.acks[0].AtomicAck? && r.acks[0] == AtomicAck(item.base, item.base + 1, r.acks[0].result)
  }

  /** The result that is next to be sent. */
  function QueuedResult(r: Rq): int {
    if r.acks != [] && r.acks[0].AtomicAck? then r.acks[0].result else 0
  }

  /** A responder that waits for `item` executes it. */
  lemma FirstAnswer(r: Rq, item: Item, result: int)
    requires LocalInv(r) && RecvOk(r.state) && r.acks == [] && r.attr.maxDest > 0 && AttrOf(r.lastOp).ending
    requires r.psn == item.base && ItemOk(r.attr.mtu, item) && item.wr.length <= MAX_PAYLOAD_LEN && IsRdAtomic(item.wr.opcode)
    requires IsAtomic(item.wr.opcode) ==> item.wr.raddr % 8 == 0
    ensures SlotsOk(r)
    ensures var t := ReceiveRequest(r, PacketOf(r.attr.mtu, item, 0), Success, result);
      && ReplyQueued(t, item, 0) && t.receives == r.receives && t.attr == r.attr
      && (IsAtomic(item.wr.opcode) ==> QueuedResult(t) == result)
  {
    SlotsOkFromLocal(r);
    if item.wr.opcode == WrRead {
      LossFreeRead.SomeLeft(r.attr.mtu, item);
      LossFreeRead.ReadExpected(r, item, result);
      hide LocalInv, ReceiveRequest, NumPackets;
    } else {
      LossFreeRead.NoReplies(r);
      WhichHandler(r, PacketOf(r.attr.mtu, item, 0), Success, result);
      hide LocalInv, ReceiveRequest, SlotAt, NumPackets, Chunk;
      assert ReceiveAtomicRequest(r, PacketOf(r.attr.mtu, item, 0), Success, result).acks == [AtomicAck(item.base, item.base + 1, result)];
    }
  }

  /** A responder past `item` answers from its record. */
  lemma SecondAnswer(r: Rq, plan: seq<Item>, end: int, q: Sent, item: Item, j: nat)
    requires plan != [] && plan[|plan| - 1] == item && ResponderOk(r, plan, end, |plan|, 0) && Genuine(r.attr.mtu, plan, q)
    requires q.item == |plan| - 1 && q.k == j && j < item.all < TWO23 && r.psn == item.End()
    requires RecvOk(r.state) && r.acks == [] && r.attr.maxDest > 0 && IsRdAtomic(item.wr.opcode) && (IsAtomic(item.wr.opcode) ==> j == 0)
    ensures SlotsOk(r)
    ensures var t := ReceiveRequest(r, q.packet, Success, 0); ReplyQueued(t, item, j) && t.receives == r.receives && t.attr == r.attr
  {
    hide ResponderOk, ReceiveRequest, RdIndex;
    GenuineFacts(r.attr.mtu, plan, q);
    Replay.DuplicateAnsweredIff(r, plan, end, |plan|, 0, q, Success, 0);
    assert plan[|plan| - 1 + 1..|plan|] == [] && RdItems([]) == [];
    LossFreeRead.KeepNone(q.packet.psn, item.End());
    assert j * r.attr.mtu - j * r.attr.mtu == 0;
    KeepsAttr(r, q.packet, Success, 0);
    hide Genuine;
  }

  lemma KeepsAttr(r: Rq, packet: Request, mem: WcStatus, result: int)
    requires SlotsOk(r)
    ensures ReceiveRequest(r, packet, mem, result).attr == r.attr
  {
    hide ReceiveRequest, InOrder, PsnDiff;
    OnlyInOrder(r, packet, mem, result);
  }

  lemma AnswerAgain(s: System, item: Item, j: nat, now: int)
    requires AskedAgain(s, item, j, now)
    ensures s.requests != [] && SlotsOk(s.rq) && Close(s.requests[|s.requests| - 1].packet.psn, s.rq.psn)
    ensures var t := ReceiveRequest(s.rq, s.requests[|s.requests| - 1].packet, Success, 0);
      ReplyQueued(t, item, j) && t.receives == s.rq.receives && t.attr == s.rq.attr
  {
    hide Truthful, ReceiveRequest, Tried, ResponderOk, PacketOf, ItemOk, ReplyQueued, SQI.Inv;
    RetryRound.Sound(s);
    ItemSpan(s.rq.attr.mtu, item);
    var q := s.requests[|s.requests| - 1];
    RetryRound.PacketFacts(s.rq.attr.mtu, item, j);
    RetryRound.GenuineLast(s);
    if s.rq.psn == item.base {
      BetweenMessages(s.rq, s.sq.plan, s.sq.expectedPsn, s.done);
      FirstAnswer(s.rq, item, 0);
    } else {
      SecondAnswer(s.rq, s.sq.plan, s.sq.expectedPsn, q, item, j);
    }
  }

  lemma BetweenMessages(r: Rq, plan: seq<Item>, end: int, done: nat)
    requires ResponderOk(r, plan, end, done, 0)
    ensures LocalInv(r) && AttrOf(r.lastOp).ending
  {
    hide AckTruth.AcksTrue, AckTruth.ReadsAscend, LocalInv, PlanOk, IdealEffects, EffectsOf, IdealMessages, RecordsMatch, MidMessage;
  }

  lemma ItemSpan(mtu: Mtu, item: Item)
    requires ItemOk(mtu, item) && item.wr.length <= MAX_PAYLOAD_LEN
    ensures 1 <= item.all < TWO23
  {
    NumPacketsLimit(mtu, item.wr.length);
  }

  /** The reply is queued, and both ends agree on what was done. */
  ghost predicate Replying(s: System, item: Item, j: nat, now: int) {
    && Truthful(s) && Tried(s.sq, item, j, now) && ReplyQueued(s.rq, item, j) && IsRdAtomic(item.wr.opcode)
    && s.sq.plan != [] && s.sq.plan[|s.sq.plan| - 1] == item && s.done == |s.sq.plan| && s.part == 0
    && item.wr.length <= MAX_PAYLOAD_LEN && ItemOk(s.rq.attr.mtu, item) && j < item.all
  }

  lemma RequestArrives(s: System, item: Item, j: nat, now: int)
    requires AskedAgain(s, item, j, now)
    ensures s.requests != [] && SlotsOk(s.rq) && Close(s.requests[|s.requests| - 1].packet.psn, s.rq.psn)
    ensures var t := Received(s, |s.requests| - 1, Success, 0);
      && Replying(t, item, j, now) && t.sq == s.sq && t.requests == s.requests && t.responses == s.responses && t.rq.receives == s.rq.receives
  {
    hide Truthful, ReceiveRequest, Tried, PacketOf, ItemOk;
    AnswerAgain(s, item, j, now);
    StepTruthful(s, DeliverRequest(|s.requests| - 1, Success, 0));
    OneStep(item);
  }

  lemma OneStep(item: Item)
    requires IsRdAtomic(item.wr.opcode)
    ensures forall mtu: Mtu :: ItemOk(mtu, item) ==> StepsOf(item) == 1
  {
  }

  // ---------------------------------------------------------------------------
  // The replies

  lemma ReadResumes(s: System, item: Item, j: nat, now: int)
    requires Replying(s, item, j, now) && item.wr.opcode == WrRead
    ensures LossFreeRead.Reading(s, item, j, j, s.sq.nrContigReads, now)
  {
    hide Safe, ItemOk;
    assert [s.rq.acks[0]] == s.rq.acks;
  }

  /** The acknowledge the responder sends for an atomic. */
  function AtomicReply(item: Item, result: int): Response {
    Response(item.base, AtomicKind, SYND_ACK, AETH_SIZE + ATOMIC_ACK_ETH_SIZE, 0, 0, 0, result)
  }

  lemma AtomicOut(r: Rq, item: Item)
    requires ReplyQueued(r, item, 0) && item.wr.opcode != WrRead
    ensures Generate(r, true) == (r.(acks := [], nrRdAtomic := r.nrRdAtomic - 1), Some(AtomicReply(item, QueuedResult(r))))
  {
    assert r.acks[1..] == [];
  }

  /** The PSN of a lone atomic is its own. */
  lemma AtomicOwns(q: Sq, item: Item, now: int)
    requires SQI.Inv(q) && Tried(q, item, 0, now) && IsAtomic(item.wr.opcode)
    ensures InWindow(q, item.base) && Flight(q) == [q.waiting[0]]
    ensures var f := Flight(q.(nrContig := 0)); f == Flight(q) && Match(f, item.base) == 0 && PsnDiff(f[0].base, item.base) == 0
  {
    hide SQI.Inv, Match, PsnDiff;
    LoneEntry(q);
    assert Flight(q) == [q.waiting[0]];
    FlowAside(q);
    HeadOwns(q.(nrContig := 0), item.base);
  }

  lemma AtomicIn(q: Sq, item: Item, result: int, now: int)
    requires SQI.Inv(q) && Tried(q, item, 0, now) && IsAtomic(item.wr.opcode)
    ensures InWindow(q, item.base)
    ensures var t := ReceiveResponse(q, AtomicReply(item, result), now, 0, Success);
      && t.plan == q.plan && t.attr == q.attr && t.state == RTS && Flight(t) == [] && t.submitted == []
      && t.retired == q.retired + [Retired(item.wr, Success)]
  {
    hide SQI.Inv, InWindow, Match, PsnDiff, CompleteHead;
    AtomicOwns(q, item, now);
    var q0 := q.(nrContig := 0);
    assert SyndromeClass(SYND_ACK) == SYND_ACK;
    LossFreeRead.LastTaken(q0, q.waiting[0], now);
    assert q0.(waiting := [q.waiting[0]]) == q0;
  }

  /** The reply was sent and taken, the atomic is retired, and nothing is left. */
  ghost predicate AtomicOver(s: System, t: System, item: Item) {
    && t.sq.plan == s.sq.plan && Flight(t.sq) == [] && t.sq.submitted == [] && t.sq.state == RTS
    && t.sq.retired == s.sq.retired + [Retired(item.wr, Success)]
    && Truthful(t) && RecvOk(t.rq.state) && t.rq.acks == [] && t.done == s.done && t.part == s.part && t.rq.receives == s.rq.receives
    && t.responses == s.responses + [AtomicReply(item, QueuedResult(s.rq))]
  }

  lemma AtomicEnds(s: System, item: Item, now: int)
    requires Replying(s, item, 0, now) && IsAtomic(item.wr.opcode)
    ensures Legal(s, LossFreeRead.TwoSteps(|s.responses|, now))
    ensures AtomicOver(s, Run(s, LossFreeRead.TwoSteps(|s.responses|, now)), item)
  {
    hide Truthful, Tried, Generate, ReceiveResponse, InWindow, Legal, Run, SQI.Inv, ItemOk, LossFreeRead.TwoSteps, ResponderOk;
    RetryRound.Sound(s);
    AtomicOut(s.rq, item);
    var s1 := Protocol.Answered(s, true);
    RetryRound.AnsweredTruthful(s);
    RetryRound.Sound(s1);
    AtomicIn(s.sq, item, QueuedResult(s.rq), now);
    StepTruthful(s1, DeliverResponse(|s.responses|, now, 0, Success));
    LossFreeRead.TwoStepsRun(s, now);
  }

  // ---------------------------------------------------------------------------
  // The whole

  lemma {:induction false} ResponsesUnaided(number: nat, c: int, m: nat, now: int, from: nat)
    requires from <= number
    ensures forall requests :: AllUnaided(LossFreeRead.Responses(number, c, m, now), requests, from)
    decreases m
  {
    if m > 0 {
      ResponsesUnaided(number + 1, LossFreeRead.NextCount(c), m - 1, now, from);
      forall requests ensures AllUnaided(LossFreeRead.Responses(number, c, m, now), requests, from) {
        UnaidedJoin(LossFreeRead.ResponseActions(number, c, now), LossFreeRead.Responses(number + 1, LossFreeRead.NextCount(c), m - 1, now),
                    requests, from, requests, from);
      }
    }
  }

  function AskActions(request: nat, now: int): seq<Action> {
    [RunSender(now, Success), DeliverRequest(request, Success, 0)]
  }

  /** After the request arrived again, `rest` retires it. */
  lemma RecoversWith(s: System, item: Item, now: int, rest: seq<Action>)
    requires |Flight(s.sq)| == 1 && Flight(s.sq)[0].wr == item.wr && Legal(s, AskActions(|s.requests|, now))
    requires var t := Run(s, AskActions(|s.requests|, now));
      && t.sq.retired == s.sq.retired && Legal(t, rest) && AllUnaided(rest, |s.requests|, |s.responses|)
      && Flight(Run(t, rest).sq) == [] && Run(t, rest).sq.retired == t.sq.retired + [Retired(item.wr, Success)]
    ensures Recovers(s, AskActions(|s.requests|, now) + rest)
  {
    hide Legal, Run;
    LossFree.RunJoin(s, AskActions(|s.requests|, now), rest);
    UnaidedJoin(AskActions(|s.requests|, now), rest, |s.requests|, |s.responses|, |s.requests|, |s.responses|);
    assert Records(Flight(s.sq), Success) == [Retired(item.wr, Success)];
  }

  /** Both steps of asking again, as functions. */
  lemma AskedAndArrived(s: System, item: Item, now: int)
    requires Lost(s, item, now)
    ensures Legal(s, AskActions(|s.requests|, now)) && 0 <= s.sq.waiting[0].ack
    ensures var t := Run(s, AskActions(|s.requests|, now));
      && Replying(t, item, s.sq.waiting[0].ack, now) && t.sq.retired == s.sq.retired && t.responses == s.responses
      && t.sq.nrContigReads == s.sq.nrContigReads
  {
    hide Truthful, Transmitted, Received, Legal, Run, AskedAgain, Replying, Alone, AskActions, SQI.Inv, ResponderOk;
    RetryRound.Sound(s);
    AloneFlight(s.sq, item, now);
    AskingAgain(s, item, now);
    var s1 := Transmitted(s, now, Success);
    RequestArrives(s1, item, s.sq.waiting[0].ack, now);
    AskRuns(s, now);
  }

  lemma AskRuns(s: System, now: int)
    requires SlotsOk(s.rq)
    requires var t := Transmitted(s, now, Success);
      |t.requests| == |s.requests| + 1 && SlotsOk(t.rq) && Close(t.requests[|s.requests|].packet.psn, t.rq.psn)
    ensures Legal(s, AskActions(|s.requests|, now))
    ensures Run(s, AskActions(|s.requests|, now)) == Received(Transmitted(s, now, Success), |s.requests|, Success, 0)
  {
    hide Legal, Run, Transmitted, Received;
    LossFreeRead.RequestRuns(s, now);
  }

  lemma ReadCase(s: System, item: Item, now: int) returns (acts: seq<Action>)
    requires Lost(s, item, now) && item.wr.opcode == WrRead
    ensures Recovers(s, acts)
  {
    hide Truthful, Legal, Run, Alone, Replying, Recovers, AllUnaided, AskActions, LossFreeRead.Reading, LossFreeRead.Responses;
    AskedAndArrived(s, item, now);
    AloneFlight(s.sq, item, now);
    var u, j := Run(s, AskActions(|s.requests|, now)), s.sq.waiting[0].ack;
    var c := u.sq.nrContigReads;
    ReadResumes(u, item, j, now);
    LossFreeRead.ReadingBound(u, item, j, j, c, now);
    LossFreeRead.ResponsesEnd(u, item, j, j, c, now);
    var rest := LossFreeRead.Responses(|u.responses|, c, item.all - j, now);
    ResponsesUnaided(|u.responses|, c, item.all - j, now, |s.responses|);
    IdleFlight(Run(u, rest));
    RecoversWith(s, item, now, rest);
    acts := AskActions(|s.requests|, now) + rest;
  }

  lemma IdleFlight(s: System)
    requires LossFree.Idle(s)
    ensures Flight(s.sq) == []
  {
    hide Safe;
  }

  lemma AtomicCase(s: System, item: Item, now: int) returns (acts: seq<Action>)
    requires Lost(s, item, now) && item.wr.opcode != WrRead
    ensures Recovers(s, acts)
  {
    hide Truthful, Legal, Run, Alone, Replying, Recovers, AllUnaided, AskActions, LossFreeRead.TwoSteps;
    AskedAndArrived(s, item, now);
    AloneFlight(s.sq, item, now);
    var u := Run(s, AskActions(|s.requests|, now));
    AtomicFromStart(u, item, s.sq.waiting[0].ack, now);
    AtomicEnds(u, item, now);
    TwoUnaided(|u.responses|, now, |s.requests|);
    var rest := LossFreeRead.TwoSteps(|u.responses|, now);
    RecoversWith(s, item, now, rest);
    acts := AskActions(|s.requests|, now) + rest;
  }

  /**
    An RDMA READ or atomic alone in flight, its request or any of its replies lost, is retired with
    success: when its timer runs out it is asked for again, from the first packet not in, and the
    responder answers from its record or executes it if it had not.  Nothing sent before is needed.
   */
  lemma LostReplyRecovers(s: System, actions: seq<Action>, item: Item, now: int) returns (acts: seq<Action>)
    requires Start(s) && Legal(s, actions)
    requires var t := Run(s, actions);
      && Alone(t.sq, item, now) && RecvOk(t.rq.state) && t.rq.acks == [] && t.rq.attr.maxDest > 0
      && (IsAtomic(item.wr.opcode) ==> item.wr.raddr % 8 == 0)
    ensures Recovers(Run(s, actions), acts)
  {
    hide Truthful, Legal, Run, Alone, Recovers, IsAtomic;
    StartTruthful(s);
    RunTruthful(s, actions);
    if item.wr.opcode == WrRead {
      acts := ReadCase(Run(s, actions), item, now);
    } else {
      acts := AtomicCase(Run(s, actions), item, now);
    }
  }

  lemma AloneFlight(q: Sq, item: Item, now: int)
    requires Alone(q, item, now)
    ensures |Flight(q)| == 1 && Flight(q)[0].wr == item.wr && IsRdAtomic(item.wr.opcode) && q.waiting != []
  {
    hide TimeAfter;
    assert ItemOf(Flight(q)[0]).wr == item.wr;
  }

  lemma AtomicFromStart(s: System, item: Item, j: nat, now: int)
    requires Replying(s, item, j, now) && item.wr.opcode != WrRead
    ensures j == 0 && IsAtomic(item.wr.opcode)
  {
    hide Truthful, Tried;
  }

  lemma TwoUnaided(number: nat, now: int, requests: nat)
    ensures AllUnaided(LossFreeRead.TwoSteps(number, now), requests, number)
  {
  }

  // ---------------------------------------------------------------------------
  // An atomic without loss

  predicate AtomicPostable(q: Sq, wr: Wr) {
    && IsAtomic(wr.opcode) && wr.raddr % 8 == 0 && 1 <= wr.numSge <= q.attr.maxSge && q.free > 0 && q.attr.maxRdAtomic > 0
  }

  lemma PostLoadsAtomic(q: Sq, wr: Wr)
    requires q.state == RTS && Flight(q) == [] && q.submitted == [] && AtomicPostable(q, wr)
    ensures var (t, result) := PostSend(q, [wr]);
      && result == Posted && LossFree.Loaded(t, wr.(length := 8))
      && t.plan == q.plan && t.retired == q.retired && t.attr == q.attr && t.expectedPsn == q.expectedPsn
  {
    var (q1, carry, r) := PostOne(q, wr, 0);
    assert [wr][1..] == [];
    assert PostChain(q1, [], carry) == (q1, Posted);
    assert PostChain(q, [wr], 0) == (q1, Posted);
  }

  lemma OneOfEight(mtu: Mtu)
    ensures NumPackets(mtu, 8) == 1
  {
  }

  /** The scheduler takes the atomic up and sends its request. */
  lemma AtomicAsked(q: Sq, w: Wr, now: int)
    requires SQI.Inv(q) && LossFree.Loaded(q, w) && IsAtomic(w.opcode) && w.length == 8 && q.attr.maxRdAtomic > 0
    ensures var item := LossFree.ItemFor(q, w);
      var (t, out) := Schedule(q, now, Success);
      && ItemOk(q.attr.mtu, item) && item.all == 1 && out == Some(PacketOf(q.attr.mtu, item, 0)) && Tried(t, item, 0, now)
      && t.plan == q.plan + [item] && t.retired == q.retired && t.attr == q.attr
      && Prepare(q, now).plan == t.plan && |Prepare(q, now).sending| == 1 && Prepare(q, now).sending[0].sent == 0
  {
    hide PacketOf, TimeAfter, FailHead, NumPackets;
    OneOfEight(q.attr.mtu);
    LossFree.NowIsNotLater(now);
    LossFree.NoReads(q);
    var q1 := Enqueue(q, now);
    assert Prepare(q, now) == q1 && HeadReady(q1, now);
    var e := q1.sending[0];
    assert e.(scheduleTime := now) == e && q1.sending[0 := e] == q1.sending;
    assert SendStatus(q1.attr, e, Success) == Success && !RestartsContig(e);
    assert Schedule(q, now, Success) == Transmit(q1, now, Success);
  }

  /** The atomic `item` has just been asked for, and the responder waits for it. */
  ghost predicate AtomicRequested(s: System, item: Item, now: int) {
    && Safe(s) && s.sq.plan != [] && s.sq.plan[|s.sq.plan| - 1] == item && s.done == |s.sq.plan| - 1 && s.part == 0
    && Tried(s.sq, item, 0, now) && IsAtomic(item.wr.opcode) && item.wr.raddr % 8 == 0 && item.wr.length == 8
    && RecvOk(s.rq.state) && s.rq.acks == [] && s.rq.attr.maxDest > 0 && LossFree.JustSent(s, item, 0)
  }

  lemma AtomicTurn(s: System, w: Wr, now: int)
    requires Safe(s) && LossFree.Loaded(s.sq, w) && s.done == |s.sq.plan| && s.part == 0
    requires IsAtomic(w.opcode) && w.length == 8 && w.raddr % 8 == 0 && s.sq.attr.maxRdAtomic > 0
    requires RecvOk(s.rq.state) && s.rq.acks == [] && s.rq.attr.maxDest > 0
    ensures var item, t := LossFree.ItemFor(s.sq, w), Transmitted(s, now, Success);
      && AtomicRequested(t, item, now) && t.rq == s.rq && t.sq.retired == s.sq.retired && t.sq.plan == s.sq.plan + [item]
      && t.responses == s.responses && |t.requests| == |s.requests| + 1
  {
    hide Safe, LossFree.Loaded, Tried, PacketOf, Schedule, Prepare, ItemOk, RdItems, RecvOk, NumPackets, SQI.Inv, Transmitted, ResponderOk;
    LossFree.SafeParts(s);
    AtomicAsked(s.sq, w, now);
    TransmittedSafe(s, now, Success);
    LossFree.TransmittedIs(s, now, PacketOf(s.sq.attr.mtu, LossFree.ItemFor(s.sq, w), 0));
  }

  /** It arrives, and its result is queued. */
  ghost predicate AtomicReplying(s: System, item: Item, now: int, result: int) {
    && Safe(s) && Tried(s.sq, item, 0, now) && ReplyQueued(s.rq, item, 0) && IsAtomic(item.wr.opcode) && QueuedResult(s.rq) == result
    && s.done == |s.sq.plan| && s.part == 0
  }

  lemma AtomicArrives(s: System, item: Item, now: int, result: int)
    requires AtomicRequested(s, item, now)
    ensures s.requests != [] && SlotsOk(s.rq) && Close(s.requests[|s.requests| - 1].packet.psn, s.rq.psn)
    ensures var t := Received(s, |s.requests| - 1, Success, result);
      AtomicReplying(t, item, now, result) && t.sq == s.sq && t.responses == s.responses && t.rq.receives == s.rq.receives
  {
    hide Safe, PacketOf, ItemOk, RecvOk, ReceiveRequest, ResponderOk, Tried, SQI.Inv;
    LossFree.SafeParts(s);
    AtomicNext(s, item, now);
    FirstAnswer(s.rq, item, result);
    ReceivedSafe(s, |s.requests| - 1, Success, result);
    OneStep(item);
  }

  lemma AtomicNext(s: System, item: Item, now: int)
    requires AtomicRequested(s, item, now)
    ensures LocalInv(s.rq) && s.rq.psn == item.base && ItemOk(s.rq.attr.mtu, item) && AttrOf(s.rq.lastOp).ending && item.all == 1
    ensures Close(item.base, s.rq.psn) && PacketOf(s.rq.attr.mtu, item, 0).psn == item.base && s.sq.attr.mtu == s.rq.attr.mtu
  {
    hide SQI.Inv, AllGenuine, AllTrue, ProtocolResponses.Covered, AckTruth.AcksTrue, AckTruth.ReadsAscend, LocalInv, EffectsOf, IdealEffects, IdealMessages, RecordsMatch, MidMessage, NumPackets, Chunk;
    LossFree.SafeParts(s);
    StartsAtBase(s.rq.attr.mtu, s.sq.plan, s.sq.attr.origin, s.sq.expectedPsn, s.done);
  }

  lemma AtomicFinishes(s: System, item: Item, now: int, result: int)
    requires AtomicReplying(s, item, now, result)
    ensures Legal(s, LossFreeRead.TwoSteps(|s.responses|, now))
    ensures var t := Run(s, LossFreeRead.TwoSteps(|s.responses|, now));
      && LossFree.Idle(t) && t.sq.retired == s.sq.retired + [Retired(item.wr, Success)] && t.rq.receives == s.rq.receives
      && t.responses == s.responses + [AtomicReply(item, result)]
  {
    hide Safe, Tried, Generate, ReceiveResponse, InWindow, Legal, Run, SQI.Inv, LossFreeRead.TwoSteps, ResponderOk;
    LossFree.SafeParts(s);
    AtomicOut(s.rq, item);
    var s1 := Protocol.Answered(s, true);
    AnsweredSafe(s, true);
    LossFree.SafeParts(s1);
    AtomicIn(s.sq, item, result, now);
    RespondedSafe(s1, |s.responses|, now, 0, Success);
    LossFreeRead.TwoStepsRun(s, now);
  }

  function AtomicTransfer(s: System, wr: Wr, now: int, result: int): seq<Action> {
    [Post([wr])] + ([RunSender(now, Success), DeliverRequest(|s.requests|, Success, result)] + LossFreeRead.TwoSteps(|s.responses|, now))
  }

  lemma AtomicAskRuns(s: System, now: int, result: int)
    requires SlotsOk(s.rq)
    requires var t := Transmitted(s, now, Success);
      |t.requests| == |s.requests| + 1 && SlotsOk(t.rq) && Close(t.requests[|s.requests|].packet.psn, t.rq.psn)
    ensures var acts := [RunSender(now, Success), DeliverRequest(|s.requests|, Success, result)];
      Legal(s, acts) && Run(s, acts) == Received(Transmitted(s, now, Success), |s.requests|, Success, result)
  {
    hide Legal, Run, Transmitted, ReceiveRequest;
    var a, b := RunSender(now, Success), DeliverRequest(|s.requests|, Success, result);
    LossFree.RunOne(s, a);
    LossFree.RunThen(s, [a], b);
    assert [a] + [b] == [a, b];
  }

  /**
    An aligned atomic posted to an idle connection, with its request and its acknowledge delivered, is retired
    with success; the acknowledge carries the value the memory operation returned, and the connection is idle again.
   */
  lemma LossFreeAtomic(s: System, wr: Wr, now: int, result: int)
    requires LossFree.Idle(s) && AtomicPostable(s.sq, wr) && s.rq.attr.maxDest > 0
    ensures Legal(s, AtomicTransfer(s, wr, now, result))
    ensures var t := Run(s, AtomicTransfer(s, wr, now, result));
      && LossFree.Idle(t) && t.sq.retired == s.sq.retired + [Retired(wr.(length := 8), Success)]
      && |t.responses| == |s.responses| + 1 && t.responses[|s.responses|].kind == AtomicKind && t.responses[|s.responses|].result == result
  {
    hide Safe, LossFree.Loaded, PostSend, Transmitted, Received, Legal, Run, NumPackets, RecvOk, AtomicRequested, SQI.Inv, ResponderOk, LossFreeRead.TwoSteps;
    var w, a := wr.(length := 8), Post([wr]);
    LossFree.SafeParts(s);
    PostLoadsAtomic(s.sq, wr);
    PostSafe(s, [wr]);
    LossFree.RunOne(s, a);
    var s1 := s.(sq := PostSend(s.sq, [wr]).0);
    AtomicTurn(s1, w, now);
    var item, s2 := LossFree.ItemFor(s1.sq, w), Transmitted(s1, now, Success);
    AtomicArrives(s2, item, now, result);
    AtomicAskRuns(s1, now, result);
    var s3 := Received(s2, |s.requests|, Success, result);
    AtomicFinishes(s3, item, now, result);
    var turns, rest := [RunSender(now, Success), DeliverRequest(|s.requests|, Success, result)], LossFreeRead.TwoSteps(|s.responses|, now);
    LossFree.RunJoin(s1, turns, rest);
    LossFree.RunJoin(s, [a], turns + rest);
  }
}
