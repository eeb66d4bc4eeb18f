/**
  A run without loss, for an RDMA READ: the request is delivered, every response it asks for comes
  back, the congestion packets keep the responder going, and the request is retired with success.
 */
module LossFreeRead {
  import opened Psn
  import opened Jiffies
  import opened OpCode
  import opened WorkRequest
  import opened SendQueue
  import SQI = SendQueueInvariant
  import opened ReceiveQueue
  import opened ReceiveQueueInvariant
  import opened Protocol
  import opened ResponderExecution
  import AckTruth
  import opened ProtocolRequests
  import opened ProtocolSafety
  import opened ProtocolProgress
  import opened LossFree

  // ---------------------------------------------------------------------------
  // The request

  predicate WholeRead(item: Item) {
    item.wr.opcode == WrRead && item.wr.length <= MAX_PAYLOAD_LEN
  }

  /** The READ alone is in flight with `j` responses taken. */
  predicate Awaiting(q: Sq, item: Item, j: nat, now: int) {
    && q.state == RTS && q.sending == [] && q.submitted == []
    && |q.waiting| == 1 && Carries(q.waiting[0], item, j, j, now)
  }

  /** The scheduler takes the READ up and sends its request. */
  lemma RequestOut(q: Sq, w: Wr, now: int)
    requires SQI.Inv(q) && Loaded(q, w) && WholeRead(ItemFor(q, w)) && q.attr.maxRdAtomic > 0
    ensures var item := ItemFor(q, w);
      var (t, out) := Schedule(q, now, Success);
      && ItemOk(q.attr.mtu, item) && out == Some(PacketOf(q.attr.mtu, item, 0)) && Awaiting(t, item, 0, now)
      && t.plan == q.plan + [item] && t.retired == q.retired && t.attr == q.attr && t.nrContigReads == q.nrContigReads
      && Prepare(q, now).plan == t.plan && |Prepare(q, now).sending| == 1 && Prepare(q, now).sending[0].sent == 0
  {
    hide PacketOf, TimeAfter, FailHead, NumPackets;
    NowIsNotLater(now);
    NoReads(q);
    var q1 := Enqueue(q, now);
    assert Prepare(q, now) == q1 && HeadReady(q1, now);
    var e := q1.sending[0];
    assert e.(scheduleTime := now) == e && q1.sending[0 := e] == q1.sending;
    assert SendStatus(q1.attr, e, Success) == Success && !RestartsContig(e);
    assert Schedule(q, now, Success) == Transmit(q1, now, Success);
  }

  /** The entry the responder queues for the READ from packet `k` on, with the packets before `j` answered. */
  function ReadEntry(mtu: Mtu, item: Item, k: nat, j: nat): Ack {
    ReadAck(item.base + k, item.End(), Add64(item.wr.raddr, k * mtu), item.wr.rkey, item.wr.length - k * mtu, (j - k) * mtu)
  }

  lemma KeepNone(psn: int, expected: int)
    ensures Keep([], psn, expected) == [] && CountReplies([]) == 0
  {
  }

  /** The responder takes the READ. */
  lemma ReadTaken(r: Rq, item: Item)
    requires LocalInv(r) && RecvOk(r.state) && r.acks == [] && r.attr.maxDest > 0
    requires r.psn == item.base && ItemOk(r.attr.mtu, item) && WholeRead(item)
    ensures SlotsOk(r)
    ensures var t := ReceiveNewRead(r, PacketOf(r.attr.mtu, item, 0), Success);
      && RecvOk(t.state) && t.psn == item.End() && t.acks == [ReadEntry(r.attr.mtu, item, 0, 0)] && t.nrContigReads == 0 && t.receives == r.receives
  {
    SlotsOkFromLocal(r);
    NoReplies(r);
    hide LocalInv, SlotAt, NumPackets;
    var packet := PacketOf(r.attr.mtu, item, 0);
    assert packet.dmalen == item.wr.length && packet.vaddr == Add64(item.wr.raddr, 0);
    KeepNone(packet.psn, item.End());
  }

  lemma SomeLeft(mtu: Mtu, item: Item)
    requires ItemOk(mtu, item)
    ensures item.all >= 1
  {
    hide NumPackets;
  }

  lemma NoReplies(r: Rq)
    requires LocalInv(r) && r.acks == []
    ensures r.nrRdAtomic == 0
  {
  }

  // ---------------------------------------------------------------------------
  // The responses

  /** The tail of a message from packet `k` has the packets that are left. */
  lemma TailPackets(mtu: Mtu, item: Item, k: nat)
    requires ItemOk(mtu, item) && k < item.all
    ensures item.wr.length >= k * mtu && NumPackets(mtu, item.wr.length - k * mtu) == item.all - k
  {
    PacketFits(mtu, item.wr.length, k);
    NumPacketsBounds(mtu, item.wr.length);
    var n := NumPackets(mtu, item.wr.length - k * mtu);
    NumPacketsBounds(mtu, item.wr.length - k * mtu);
    hide NumPackets, PayloadSize;
    assert (n + k) * mtu == n * mtu + k * mtu && (n + k - 1) * mtu == (n - 1) * mtu + k * mtu;
    if n + k < item.all {
      MulMono(n + k, item.all - 1, mtu);
    } else if item.all < n + k {
      MulMono(item.all, n + k - 1, mtu);
    }
  }

  /** One response goes out. */
  lemma ResponseOut(r: Rq, item: Item, k: nat, j: nat)
    requires RecvOk(r.state) && r.acks == [ReadEntry(r.attr.mtu, item, k, j)] && r.nrContigReads <= MAX_CONTIG_READ_ACKS
    requires ItemOk(r.attr.mtu, item) && WholeRead(item) && k <= j < item.all
    ensures var (t, out) := Generate(r, true);
      && out.Some? && out.value.psn == item.base + j && out.value.kind != AckKind && out.value.kind != AtomicKind
      && out.value.syndrome == SYND_ACK && out.value.size >= AETH_SIZE
      && t == r.(acks := if j + 1 < item.all then [ReadEntry(r.attr.mtu, item, k, j + 1)] else [],
                 nrRdAtomic := if j + 1 < item.all then r.nrRdAtomic else r.nrRdAtomic - 1, nrContigReads := r.nrContigReads + 1)
  {
    hide NumPackets, AnswerOf, ReadResponse, Add64;
    var mtu, a, n, i := r.attr.mtu, ReadEntry(r.attr.mtu, item, k, k), item.all - k, j - k;
    TailPackets(mtu, item, k);
    assert a.offset == 0 && a.(offset := i * mtu) == ReadEntry(mtu, item, k, j);
    var rsp := ReadResponse(mtu, a.(offset := i * mtu));
    OneAnswer(mtu, a, n, i);
    AnswerLength(mtu, a, n, i, rsp);
    AnswerPsn(mtu, a, n, i, rsp);
    ResponseShape(mtu, a.(offset := i * mtu));
    assert r.acks[1..] == [] && forall x :: r.acks[0 := x] == [x];
  }

  lemma AnswerLength(mtu: Mtu, a: Ack, n: nat, j: nat, r: Response)
    requires a.ReadAck? && 0 <= a.size && AnswerOf(mtu, a, n, j, r) && j < n == NumPackets(mtu, a.size)
    ensures r.length >= 0 && (r.kind == ReadMiddleKind ==> r.length == mtu)
  {
    PacketFits(mtu, a.size, j);
    hide NumPackets, Add64;
  }

  lemma ResponseShape(mtu: Mtu, a: Ack)
    requires a.ReadAck?
    ensures var r := ReadResponse(mtu, a);
      r.syndrome == SYND_ACK && r.size == (if r.kind == ReadMiddleKind then 0 else AETH_SIZE) + r.length
  {
    hide PsnDiff, Add64;
  }

  /** The requester takes response `j`; every so often a congestion packet goes back. */
  lemma ResponseTaken(q: Sq, item: Item, j: nat, r: Response, now: int)
    requires SQI.Inv(q) && Awaiting(q, item, j, now) && ItemOk(q.attr.mtu, item) && WholeRead(item) && j < item.all
    requires r.psn == item.base + j && r.kind != AckKind && r.kind != AtomicKind && r.syndrome == SYND_ACK && r.size >= AETH_SIZE
    ensures InWindow(q, r.psn)
    ensures var t := ReceiveResponse(q, r, now, 0, Success);
      && t.plan == q.plan && t.attr == q.attr
      && (if j + 1 < item.all then Awaiting(t, item, j + 1, now) && t.retired == q.retired
          else t.state == RTS && Flight(t) == [] && t.submitted == [] && t.retired == q.retired + [Retired(item.wr, Success)])
      && (if q.nrContigReads + 1 <= MAX_CONTIG_READ_ACKS / 3 then t.nrContigReads == q.nrContigReads + 1
          else t.nrContigReads == 0 && t.cnps == q.cnps + 1)
  {
    hide SQI.Inv, InWindow, Match, PsnDiff, ItemOk, ReceiveRead, CompleteHead, ReceiveResponse;
    NearRead(q, item, j, now);
    FlowAside(q);
    var q0 := q.(nrContig := 0);
    HeadOwns(q0, r.psn);
    assert Flight(q0)[0] == q.waiting[0];
    ReadResponseTaken(q, r, now);
    OneResponse(q0, r.psn, now);
    LastTaken(q0, Advanced(q0, now), now);
  }

  lemma ReadResponseTaken(q: Sq, r: Response, now: int)
    requires RecvOk(q.state) && r.size >= AETH_SIZE && r.syndrome == SYND_ACK && r.kind != AckKind && r.kind != AtomicKind
    ensures ReceiveResponse(q, r, now, 0, Success) == ReceiveRead(q.(nrContig := 0), r.psn, now, Success)
  {
    hide ReceiveRead;
    assert SyndromeClass(SYND_ACK) == SYND_ACK;
  }

  /** The lone READ with one more response taken. */
  function Advanced(q: Sq, now: int): Swqe
    requires q.waiting != []
  {
    var e := q.waiting[0];
    e.(localAckTime := now + q.attr.ackTimeout, sent := e.sent + 1, ack := e.ack + 1)
  }

  lemma OneResponse(q: Sq, psn: int, now: int)
    requires |q.waiting| == 1 && q.sending == [] && q.waiting[0].wr.opcode == WrRead && q.waiting[0].sent == q.waiting[0].ack
    requires Match(Flight(q), psn) == 0 && PsnDiff(q.waiting[0].base + q.waiting[0].ack, psn) == 0
    ensures ReceiveRead(q, psn, now, Success)
      == CountRead(if Advanced(q, now).sent < q.waiting[0].all then q.(waiting := [Advanced(q, now)])
                   else CompleteHead(q.(waiting := [Advanced(q, now)]), now))
  {
    hide Match, PsnDiff, CompleteHead, CountRead;
    assert Flight(q) == [q.waiting[0]];
    assert SetFlight(q, 0, Advanced(q, now)) == q.(waiting := [Advanced(q, now)]);
  }

  lemma NearRead(q: Sq, item: Item, j: nat, now: int)
    requires Awaiting(q, item, j, now) && ItemOk(q.attr.mtu, item) && WholeRead(item) && j < item.all
    ensures InWindow(q, item.base + j)
  {
    NumPacketsLimit(q.attr.mtu, item.wr.length);
    hide NumPackets;
  }

  lemma LastTaken(q: Sq, e: Swqe, now: int)
    requires q.sending == []
    ensures var t := CompleteHead(q.(waiting := [e]), now);
      && t.state == q.state && t.plan == q.plan && t.attr == q.attr && t.submitted == q.submitted
      && Flight(t) == [] && t.retired == q.retired + [Retired(e.wr, Success)] && t.cnps == q.cnps && t.nrContigReads == q.nrContigReads
  {
    hide Reports;
    assert Flight(q.(waiting := [e]))[..1] == [e];
  }

  // ---------------------------------------------------------------------------
  // Both ends

  /** Responses a requester takes before it sends a congestion packet. */
  const CNP_STEP := MAX_CONTIG_READ_ACKS / 3

  /**
    The READ is the last item of the plan and is being answered from packet `k` on; both ends have dealt with
    the packets before `j`, the requester with `c` responses in a row and the responder with no more.
   */
  ghost predicate Reading(s: System, item: Item, k: nat, j: nat, c: int, now: int) {
    && Safe(s) && s.sq.plan != [] && s.sq.plan[|s.sq.plan| - 1] == item && s.done == |s.sq.plan| && s.part == 0
    && Awaiting(s.sq, item, j, now) && s.sq.nrContigReads == c
    && RecvOk(s.rq.state) && s.rq.acks == [ReadEntry(s.rq.attr.mtu, item, k, j)]
    && s.rq.nrContigReads <= c && s.rq.nrContigReads <= CNP_STEP
    && WholeRead(item) && k <= j < item.all
  }

  lemma ReadingOk(s: System, item: Item, k: nat, j: nat, c: int, now: int)
    requires Reading(s, item, k, j, c, now)
    ensures SQI.Inv(s.sq) && SlotsOk(s.rq) && s.sq.attr.mtu == s.rq.attr.mtu && ItemOk(s.sq.attr.mtu, item)
  {
    hide SQI.Inv, AllGenuine, AllTrue, ProtocolResponses.Covered, Executed, LocalInv;
    SafeParts(s);
  }

  /** The READ after one more response, before any congestion packet. */
  ghost predicate OneMoreAnswered(s: System, t: System, item: Item, k: nat, j: nat, c: int, now: int) {
    && Safe(t) && t.sq.plan == s.sq.plan && t.done == |s.sq.plan| && t.part == 0
    && t.requests == s.requests && |t.responses| == |s.responses| + 1 && t.sq.attr == s.sq.attr
    && RecvOk(t.rq.state) && t.rq.nrContigReads == s.rq.nrContigReads + 1 && t.rq.receives == s.rq.receives
    && (if c + 1 <= CNP_STEP then t.sq.nrContigReads == c + 1 else t.sq.nrContigReads == 0 && t.sq.cnps > 0)
    && (if j + 1 < item.all
        then Awaiting(t.sq, item, j + 1, now) && t.rq.acks == [ReadEntry(t.rq.attr.mtu, item, k, j + 1)] && t.sq.retired == s.sq.retired
        else t.sq.state == RTS && Flight(t.sq) == [] && t.sq.submitted == [] && t.rq.acks == []
             && t.sq.retired == s.sq.retired + [Retired(item.wr, Success)])
  }

  function TwoSteps(number: nat, now: int): seq<Action> {
    [RunResponder(true), DeliverResponse(number, now, 0, Success)]
  }

  lemma TwoStepsRun(s: System, now: int)
    requires var s1 := Protocol.Answered(s, true);
      && SlotsOk(s.rq) && SlotsOk(s1.rq) && |s1.responses| == |s.responses| + 1
      && InWindow(s1.sq, s1.responses[|s.responses|].psn)
    ensures Legal(s, TwoSteps(|s.responses|, now))
    ensures Run(s, TwoSteps(|s.responses|, now)) == Responded(Protocol.Answered(s, true), now)
  {
    hide InWindow, Generate, ReceiveResponse, Legal, Run;
    var a, b := RunResponder(true), DeliverResponse(|s.responses|, now, 0, Success);
    RunOne(s, a);
    RunThen(s, [a], b);
    assert [a] + [b] == TwoSteps(|s.responses|, now);
  }

  /** A response is sent and taken. */
  lemma ResponseRound(s: System, item: Item, k: nat, j: nat, c: int, now: int)
    requires Reading(s, item, k, j, c, now)
    ensures Legal(s, TwoSteps(|s.responses|, now))
    ensures OneMoreAnswered(s, Run(s, TwoSteps(|s.responses|, now)), item, k, j, c, now)
  {
    hide Safe, Awaiting, Generate, ReceiveResponse, InWindow, Legal, Run, SQI.Inv, ItemOk, RecvOk, TwoSteps;
    ReadingOk(s, item, k, j, c, now);
    ResponseOut(s.rq, item, k, j);
    var s1 := Protocol.Answered(s, true);
    var r := s1.responses[|s.responses|];
    AnsweredSafe(s, true);
    SafeParts(s1);
    ResponseTaken(s.sq, item, j, r, now);
    RespondedSafe(s1, |s.responses|, now, 0, Success);
    TwoStepsRun(s, now);
  }

  lemma AnswerPsn(mtu: Mtu, a: Ack, n: nat, j: nat, r: Response)
    requires a.ReadAck? && a.size >= 0 && AnswerOf(mtu, a, n, j, r)
    ensures r.psn == a.psn + j && r.kind != AckKind && r.kind != AtomicKind
  {
  }

  /** A response and, if the requester sent one, the congestion packet. */
  function ResponseActions(number: nat, c: int, now: int): seq<Action> {
    TwoSteps(number, now) + if c + 1 <= CNP_STEP then [] else [DeliverCnp]
  }

  function NextCount(c: int): int {
    if c + 1 <= CNP_STEP then c + 1 else 0
  }

  /** Where a connection stands after one more response. */
  ghost predicate ReadReaches(s: System, t: System, item: Item, k: nat, j: nat, c: int, now: int) {
    && t.sq.plan == s.sq.plan && t.requests == s.requests && |t.responses| == |s.responses| + 1 && t.rq.receives == s.rq.receives
    && (if j < item.all then Reading(t, item, k, j, c, now) && t.sq.retired == s.sq.retired
        else Idle(t) && t.sq.retired == s.sq.retired + [Retired(item.wr, Success)])
  }

  lemma FullRound(s: System, item: Item, k: nat, j: nat, c: int, now: int)
    requires Reading(s, item, k, j, c, now)
    ensures Legal(s, ResponseActions(|s.responses|, c, now))
    ensures ReadReaches(s, Run(s, ResponseActions(|s.responses|, c, now)), item, k, j + 1, NextCount(c), now)
  {
    hide Reading, OneMoreAnswered, ReadReaches, Legal, Run, TwoSteps, ReceiveCnp, Safe;
    ResponseRound(s, item, k, j, c, now);
    var t := Run(s, TwoSteps(|s.responses|, now));
    Reached(s, t, item, k, j, c, now);
    if c + 1 <= CNP_STEP {
      assert TwoSteps(|s.responses|, now) + [] == TwoSteps(|s.responses|, now);
    } else {
      CnpReady(s, t, item, k, j, c, now);
      RunThen(s, TwoSteps(|s.responses|, now), DeliverCnp);
    }
  }

  lemma CnpReady(s: System, t: System, item: Item, k: nat, j: nat, c: int, now: int)
    requires OneMoreAnswered(s, t, item, k, j, c, now) && c + 1 > CNP_STEP
    ensures Enabled(t, DeliverCnp)
  {
    hide Safe, Awaiting, RecvOk;
    SafeParts(t);
    hide SQI.Inv, ResponderOk;
  }

  lemma Reached(s: System, t: System, item: Item, k: nat, j: nat, c: int, now: int)
    requires Reading(s, item, k, j, c, now) && OneMoreAnswered(s, t, item, k, j, c, now)
    ensures ReadReaches(s, if c + 1 <= CNP_STEP then t else t.(rq := ReceiveCnp(t.rq)), item, k, j + 1, NextCount(c), now)
  {
    hide Safe, Awaiting;
    ResponderEventSafe(t, ReceiveCnp(t.rq));
  }

  /** All the responses that are left. */
  function Responses(number: nat, c: int, m: nat, now: int): seq<Action>
    decreases m
  {
    if m == 0 then [] else ResponseActions(number, c, now) + Responses(number + 1, NextCount(c), m - 1, now)
  }

  /** `acts` retires the READ with success and leaves the connection idle. */
  ghost predicate ReadFinishes(s: System, acts: seq<Action>, item: Item) {
    && Legal(s, acts)
    && var t := Run(s, acts);
       Idle(t) && t.sq.retired == s.sq.retired + [Retired(item.wr, Success)] && t.sq.plan == s.sq.plan && t.rq.receives == s.rq.receives
  }

  lemma {:induction false} ResponsesEnd(s: System, item: Item, k: nat, j: nat, c: int, now: int)
    requires Reading(s, item, k, j, c, now)
    ensures ReadFinishes(s, Responses(|s.responses|, c, item.all - j, now), item)
    decreases item.all - j
  {
    hide Reading, Idle, Legal, Run, ResponseActions, NextCount;
    assert j < item.all by { ReadingBound(s, item, k, j, c, now); }
    FullRound(s, item, k, j, c, now);
    var first := ResponseActions(|s.responses|, c, now);
    var t := Run(s, first);
    if j + 1 == item.all {
      assert first + [] == first;
    } else {
      ResponsesEnd(t, item, k, j + 1, NextCount(c), now);
      RunJoin(s, first, Responses(|s.responses| + 1, NextCount(c), item.all - j - 1, now));
    }
  }

  lemma ReadingBound(s: System, item: Item, k: nat, j: nat, c: int, now: int)
    requires Reading(s, item, k, j, c, now)
    ensures j < item.all
  {
  }

  // ---------------------------------------------------------------------------
  // From the post to the end

  predicate ReadPostable(q: Sq, wr: Wr) {
    wr.opcode == WrRead && 1 <= wr.numSge <= q.attr.maxSge && |wr.data| <= MAX_PAYLOAD_LEN && q.free > 0 && q.attr.maxRdAtomic > 0
  }

  lemma PostLoadsRead(q: Sq, wr: Wr)
    requires q.state == RTS && Flight(q) == [] && q.submitted == [] && ReadPostable(q, wr)
    ensures var (t, result) := PostSend(q, [wr]);
      && result == Posted && Loaded(t, wr.(length := |wr.data|)) && t.nrContigReads == 0
      && t.plan == q.plan && t.retired == q.retired && t.attr == q.attr && t.expectedPsn == q.expectedPsn
  {
    var (q1, carry, r) := PostOne(q, wr, 0);
    assert [wr][1..] == [];
    assert PostChain(q1, [], carry) == (q1, Posted);
    assert PostChain(q, [wr], 0) == (q1, Posted);
  }

  /** The request of the READ `item` has just gone out, and the responder waits for it. */
  ghost predicate Requested(s: System, item: Item, now: int) {
    && Safe(s) && s.sq.plan != [] && s.sq.plan[|s.sq.plan| - 1] == item && s.done == |s.sq.plan| - 1 && s.part == 0
    && Awaiting(s.sq, item, 0, now) && s.sq.nrContigReads == 0 && WholeRead(item)
    && RecvOk(s.rq.state) && s.rq.acks == [] && s.rq.attr.maxDest > 0 && JustSent(s, item, 0)
  }

  lemma RequestTurn(s: System, w: Wr, now: int)
    requires Safe(s) && Loaded(s.sq, w) && s.sq.nrContigReads == 0 && s.done == |s.sq.plan| && s.part == 0
    requires WholeRead(ItemFor(s.sq, w)) && s.sq.attr.maxRdAtomic > 0
    requires RecvOk(s.rq.state) && s.rq.acks == [] && s.rq.attr.maxDest > 0
    ensures var item, t := ItemFor(s.sq, w), Transmitted(s, now, Success);
      && Requested(t, item, now)
      && t.rq == s.rq && t.sq.retired == s.sq.retired && t.sq.plan == s.sq.plan + [item]
      && t.responses == s.responses && |t.requests| == |s.requests| + 1
  {
    hide Safe, Loaded, Awaiting, PacketOf, Schedule, Prepare, ItemOk, RdItems, RecvOk, NumPackets, SQI.Inv, Transmitted, ResponderOk;
    SafeParts(s);
    RequestOut(s.sq, w, now);
    TransmittedSafe(s, now, Success);
    TransmittedIs(s, now, PacketOf(s.sq.attr.mtu, ItemFor(s.sq, w), 0));
  }

  /** The request arrives. */
  lemma RequestArrives(s: System, item: Item, now: int)
    requires Requested(s, item, now)
    ensures s.requests != [] && SlotsOk(s.rq) && Close(s.requests[|s.requests| - 1].packet.psn, s.rq.psn)
    ensures var t := Received(s, |s.requests| - 1, Success, 0);
      && Reading(t, item, 0, 0, 0, now) && t.sq == s.sq && t.requests == s.requests && t.responses == s.responses && t.rq.receives == s.rq.receives
  {
    hide Safe, PacketOf, ItemOk, RecvOk, ReceiveRequest, ResponderOk, Awaiting;
    SafeParts(s);
    var packet := PacketOf(s.rq.attr.mtu, item, 0);
    AtReadTurn(s, item, now);
    ReadExpected(s.rq, item, 0);
    ReceivedSafe(s, |s.requests| - 1, Success, 0);
  }

  /** The responder is between messages and expects the READ. */
  lemma AtReadTurn(s: System, item: Item, now: int)
    requires Requested(s, item, now)
    ensures LocalInv(s.rq) && s.rq.psn == item.base && ItemOk(s.rq.attr.mtu, item) && AttrOf(s.rq.lastOp).ending && item.all >= 1
    ensures Close(item.base, s.rq.psn) && PacketOf(s.rq.attr.mtu, item, 0).psn == item.base
  {
    hide SQI.Inv, AllGenuine, AllTrue, ProtocolResponses.Covered, AckTruth.AcksTrue, AckTruth.ReadsAscend, LocalInv, EffectsOf, IdealEffects, IdealMessages, RecordsMatch, MidMessage, NumPackets, Chunk;
    SafeParts(s);
    StartsAtBase(s.rq.attr.mtu, s.sq.plan, s.sq.attr.origin, s.sq.expectedPsn, s.done);
  }

  lemma ReadExpected(r: Rq, item: Item, result: int)
    requires LocalInv(r) && RecvOk(r.state) && r.acks == [] && r.attr.maxDest > 0 && AttrOf(r.lastOp).ending
    requires r.psn == item.base && ItemOk(r.attr.mtu, item) && WholeRead(item) && item.all >= 1
    ensures SlotsOk(r)
    ensures var t := ReceiveRequest(r, PacketOf(r.attr.mtu, item, 0), Success, result);
      && RecvOk(t.state) && t.psn == item.End() && t.attr == r.attr
      && t.acks == [ReadEntry(r.attr.mtu, item, 0, 0)] && t.nrContigReads == 0 && t.receives == r.receives
  {
    SlotsOkFromLocal(r);
    ReadTaken(r, item);
    DiffExact(item.base, r.psn);
    hide LocalInv, PsnDiff, ReceiveNewRead, ReceiveSend, ReceiveWrite, ReceiveAtomicRequest, ReceiveOld, PushAck, ItemOk;
  }

  /** The whole of a loss-free RDMA READ. */
  function ReadTransfer(s: System, wr: Wr, now: int): seq<Action> {
    [Post([wr])] + ([RunSender(now, Success), DeliverRequest(|s.requests|, Success, 0)]
                    + Responses(|s.responses|, 0, NumPackets(s.sq.attr.mtu, |wr.data|), now))
  }

  lemma RequestRuns(s: System, now: int)
    requires SlotsOk(s.rq)
    requires var t := Transmitted(s, now, Success);
      |t.requests| == |s.requests| + 1 && SlotsOk(t.rq) && Close(t.requests[|s.requests|].packet.psn, t.rq.psn)
    ensures var acts := [RunSender(now, Success), DeliverRequest(|s.requests|, Success, 0)];
      Legal(s, acts) && Run(s, acts) == Received(Transmitted(s, now, Success), |s.requests|, Success, 0)
  {
    hide Legal, Run, Transmitted, ReceiveRequest;
    var a, b := RunSender(now, Success), DeliverRequest(|s.requests|, Success, 0);
    RunOne(s, a);
    RunThen(s, [a], b);
    assert [a] + [b] == [a, b];
  }

  /**
    An RDMA READ of any length posted to an idle connection, with its request, every response and
    every congestion packet delivered in turn, is retired with success, and the connection is idle again.
   */
  lemma LossFreeReadCompletes(s: System, wr: Wr, now: int)
    requires Idle(s) && ReadPostable(s.sq, wr) && s.rq.attr.maxDest > 0
    ensures Legal(s, ReadTransfer(s, wr, now))
    ensures var t := Run(s, ReadTransfer(s, wr, now));
      && Idle(t) && t.sq.retired == s.sq.retired + [Retired(wr.(length := |wr.data|), Success)]
      && t.rq.receives == s.rq.receives
  {
    hide Safe, Loaded, PostSend, Transmitted, Received, Legal, Run, Responses, NumPackets, RecvOk, Reading, Requested, SQI.Inv, ResponderOk;
    var w, a := wr.(length := |wr.data|), Post([wr]);
    SafeParts(s);
    PostLoadsRead(s.sq, wr);
    PostSafe(s, [wr]);
    RunOne(s, a);
    var s1 := s.(sq := PostSend(s.sq, [wr]).0);
    RequestTurn(s1, w, now);
    var item, s2 := ItemFor(s1.sq, w), Transmitted(s1, now, Success);
    RequestArrives(s2, item, now);
    RequestRuns(s1, now);
    var s3 := Received(s2, |s.requests|, Success, 0);
    ResponsesEnd(s3, item, 0, 0, 0, now);
    var turns, rest := [RunSender(now, Success), DeliverRequest(|s.requests|, Success, 0)], Responses(|s.responses|, 0, item.all, now);
    RunJoin(s1, turns, rest);
    RunJoin(s, [a], turns + rest);
  }
}
