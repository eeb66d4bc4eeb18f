/**
  A run without loss: a SEND posted to an idle connection is cut into packets, each is delivered,
  executed and acknowledged in turn, and the request is retired with success.
 */
module LossFree {
  import opened Psn
  import opened Jiffies
  import opened WorkRequest
  import opened SendQueue
  import SQI = SendQueueInvariant
  import opened ReceiveQueue
  import opened ReceiveQueueInvariant
  import opened Protocol
  import opened ResponderExecution
  import opened ProtocolRequests
  import opened ProtocolSafety
  import opened ProtocolProgress

  // ---------------------------------------------------------------------------
  // The requester's side

  /** Nothing is queued but the fresh entry of `w`. */
  predicate Loaded(q: Sq, w: Wr) {
    q.state == RTS && q.waiting == [] && q.sending == [] && q.submitted == [FreshEntry(w)] && q.nrContig == 0
  }

  /** `e` carries `item`, with `sent` packets out and `ack` acknowledged. */
  predicate Carries(e: Swqe, item: Item, sent: nat, ack: nat, now: int) {
    && ItemOf(e) == item && e.expected == item.End() && e.sent == sent && e.ack == ack
    && e.status == Success && e.retryCnt >= 0 && e.rnrRetry >= 0 && e.scheduleTime == now
  }

  /** The first `k` packets of `item` are acknowledged and the next is to be sent. */
  predicate ToSend(q: Sq, item: Item, k: nat, now: int) {
    && q.state == RTS && q.waiting == [] && q.submitted == [] && q.nrContig == 0
    && |q.sending| == 1 && Carries(q.sending[0], item, k, k, now)
  }

  /** Packet `k` of `item` is out; it is the only one not acknowledged. */
  predicate Out(q: Sq, item: Item, k: nat, now: int) {
    && q.state == RTS && q.submitted == []
    && |Flight(q)| == 1 && Carries(Flight(q)[0], item, k + 1, k, now)
    && (if k + 1 < item.all then q.waiting == [] else q.sending == [])
  }

  predicate Whole(item: Item) {
    IsSend(item.wr.opcode) && item.wr.length == |item.wr.data| <= MAX_PAYLOAD_LEN
  }

  lemma NowIsNotLater(now: int)
    ensures !TimeAfter(now, now)
  {
  }

  lemma SendOk(mtu: Mtu, attr: Attr, e: Swqe, item: Item, k: nat, now: int)
    requires Carries(e, item, k, k, now) && Whole(item) && ItemOk(mtu, item) && k < item.all && attr.mtu == mtu
    ensures SendStatus(attr, e, Success) == Success && !RestartsContig(e)
  {
    PacketFits(mtu, item.wr.length, k);
    hide NumPackets, PayloadSize;
  }

  /** One more packet of the request at the head. */
  lemma NextPacket(q: Sq, item: Item, k: nat, now: int)
    requires ToSend(q, item, k, now) && Whole(item) && ItemOk(q.attr.mtu, item) && k < item.all
    ensures var (t, out) := Schedule(q, now, Success);
      && out == Some(PacketOf(q.attr.mtu, item, k)) && Out(t, item, k, now)
      && t.plan == q.plan && t.retired == q.retired && t.attr == q.attr && Prepare(q, now) == q
  {
    hide PacketOf, SendStatus, RestartsContig, TimeAfter, FailHead, ItemOk;
    NowIsNotLater(now);
    SendOk(q.attr.mtu, q.attr, q.sending[0].(scheduleTime := now), item, k, now);
    assert q.sending[0 := q.sending[0].(scheduleTime := now)] == q.sending;
  }

  function ItemFor(q: Sq, w: Wr): Item {
    Item(w, q.expectedPsn, NumPackets(q.attr.mtu, w.length))
  }

  /** The scheduler takes the fresh entry, gives it its PSN range and sends its first packet. */
  lemma FirstPacket(q: Sq, w: Wr, now: int)
    requires SQI.Inv(q) && Loaded(q, w) && Whole(ItemFor(q, w))
    ensures var item := ItemFor(q, w);
      var (t, out) := Schedule(q, now, Success);
      && ItemOk(q.attr.mtu, item)
      && out == Some(PacketOf(q.attr.mtu, item, 0)) && Out(t, item, 0, now)
      && t.plan == q.plan + [item] && t.retired == q.retired && t.attr == q.attr
      && Prepare(q, now).plan == t.plan && |Prepare(q, now).sending| == 1 && Prepare(q, now).sending[0].sent == 0
  {
    hide PacketOf, SendStatus, RestartsContig, TimeAfter, FailHead, NumPackets, Transmit;
    var item := ItemFor(q, w);
    NoReads(q);
    var q1 := Enqueue(q, now);
    assert Prepare(q, now) == q1;
    assert ToSend(q1, item, 0, now);
    NextPacket(q1, item, 0, now);
    assert Schedule(q, now, Success) == Schedule(q1, now, Success);
  }

  lemma NoReads(q: Sq)
    requires SQI.Inv(q) && Flight(q) == []
    ensures q.nrRdAtomic == 0
  {
    hide SQI.Counted, SQI.Conserved, SQI.FlightOk, SQI.SubmittedOk, SQI.Fenced, SQI.Planned, SQI.PlanTiled;
  }

  /** The acknowledge the responder sends for packet `k` of `item`. */
  function AckFor(item: Item, k: nat): Response {
    Response(item.base + k, AckKind, SYND_ACK, AETH_SIZE, 0, 0, 0, 0)
  }

  lemma NearItem(q: Sq, item: Item, k: nat, now: int)
    requires Out(q, item, k, now) && Whole(item) && ItemOk(q.attr.mtu, item) && k < item.all
    ensures InWindow(q, item.base + k)
    ensures PsnDiff(item.base + k, Flight(q)[0].base) == k
  {
    NumPacketsLimit(q.attr.mtu, item.wr.length);
    DiffExact(item.base + k, item.base);
    hide NumPackets, PsnDiff;
  }

  /** The acknowledge moves the request on, and the last one retires it. */
  lemma AckArrives(q: Sq, item: Item, k: nat, now: int)
    requires Out(q, item, k, now) && Whole(item) && ItemOk(q.attr.mtu, item) && k < item.all
    ensures var t := ReceiveResponse(q, AckFor(item, k), now, 0, Success);
      && t.plan == q.plan && t.attr == q.attr
      && (if k + 1 < item.all then ToSend(t, item, k + 1, now) && t.retired == q.retired
          else t.state == RTS && Flight(t) == [] && t.submitted == [] && t.retired == q.retired + [Retired(item.wr, Success)])
  {
    hide PsnDiff, InWindow, ItemOk, ReceiveAck, JudgeAck, Retry, MarkError, ReceiveRead, ReceiveAtomic;
    var q0 := q.(nrContig := 0);
    assert Flight(q0) == Flight(q) && SyndromeClass(SYND_ACK) == SYND_ACK;
    JudgedNext(q, item, k, now);
    assert ReceiveResponse(q, AckFor(item, k), now, 0, Success) == ReceiveAck(q0, item.base + k, now);
    AckOfOne(q0, item.base + k, now, k + 1 == item.all);
  }

  lemma JudgedNext(q: Sq, item: Item, k: nat, now: int)
    requires Out(q, item, k, now) && Whole(item) && ItemOk(q.attr.mtu, item) && k < item.all
    ensures var (verdict, e) := JudgeAck(Flight(q)[0], item.base + k);
      if k + 1 < item.all then verdict == Progressed && Carries(e, item, k + 1, k + 1, now) else verdict == Completed
  {
    NearItem(q, item, k, now);
    hide PsnDiff, InWindow, ItemOk;
  }

  /** receive_ACK_response with one request in flight. */
  lemma AckOfOne(q: Sq, psn: int, now: int, last: bool)
    requires |Flight(q)| == 1 && JudgeAck(Flight(q)[0], psn).0 == (if last then Completed else Progressed)
    requires !last ==> q.waiting == []
    ensures var t := ReceiveAck(q, psn, now);
      && t.plan == q.plan && t.attr == q.attr && t.state == q.state && t.submitted == q.submitted && t.nrContig == q.nrContig
      && (if last then Flight(t) == [] && t.retired == q.retired + [Retired(Flight(q)[0].wr, Success)]
          else t.waiting == [] && t.sending == [JudgeAck(Flight(q)[0], psn).1] && t.retired == q.retired)
  {
    hide JudgeAck, FailHead, CompleteRun, AckRun;
    var flight := Flight(q);
    RunOfOne(flight, psn);
    OneOrNone(q);
    if !last {
      assert q.sending == flight && flight[0 := JudgeAck(flight[0], psn).1] == [JudgeAck(flight[0], psn).1];
    }
  }

  lemma OneOrNone(q: Sq)
    requires |Flight(q)| == 1
    ensures var t := CompleteRun(q, 1);
      && t.plan == q.plan && t.attr == q.attr && t.state == q.state && t.submitted == q.submitted && t.nrContig == q.nrContig
      && t.waiting == [] && t.sending == [] && t.retired == q.retired + [Retired(Flight(q)[0].wr, Success)]
    ensures var t := CompleteRun(q, 0);
      && t.plan == q.plan && t.attr == q.attr && t.state == q.state && t.submitted == q.submitted && t.nrContig == q.nrContig
      && t.waiting == q.waiting && t.sending == q.sending && t.retired == q.retired
  {
    hide Reports, Mask24, Records;
    OneRecord(Flight(q)[0]);
    assert Flight(q)[..1] == [Flight(q)[0]] && Flight(q)[..0] == [];
  }

  lemma RunOfOne(q: seq<Swqe>, psn: int)
    requires |q| == 1
    ensures AckRun(q, psn) == if JudgeAck(q[0], psn).0 == Completed then 1 else 0
  {
    hide JudgeAck;
    assert q[1..] == [] && AckRun([], psn) == 0;
  }

  lemma OneRecord(e: Swqe)
    ensures Records([e], Success) == [Retired(e.wr, Success)] && Records([], Success) == []
  {
  }

  // ---------------------------------------------------------------------------
  // Both ends

  /** Nothing is on its way and the responder has executed all that was sent. */
  ghost predicate Idle(s: System) {
    && Safe(s)
    && s.sq.state == RTS && Flight(s.sq) == [] && s.sq.submitted == []
    && RecvOk(s.rq.state) && s.rq.acks == []
    && s.done == |s.sq.plan| && s.part == 0
  }

  /** The responder has executed `part` packets of the last item of the plan, and has a receive entry for it. */
  ghost predicate Waits(s: System, item: Item, part: nat) {
    && Safe(s) && s.sq.plan != [] && s.sq.plan[|s.sq.plan| - 1] == item
    && s.done == |s.sq.plan| - 1 && s.part == part
    && RecvOk(s.rq.state) && s.rq.acks == [] && s.rq.receives > 0
  }

  /** The log ends with packet `k` of the last item. */
  ghost predicate JustSent(s: System, item: Item, k: nat) {
    && s.requests != []
    && var q := s.requests[|s.requests| - 1];
       q.packet == PacketOf(s.sq.attr.mtu, item, k) && q.item == |s.sq.plan| - 1 && q.k == k
  }

  lemma SafeParts(s: System)
    requires Safe(s)
    ensures SQI.Inv(s.sq) && s.sq.attr.mtu == s.rq.attr.mtu
    ensures ResponderOk(s.rq, s.sq.plan, s.sq.expectedPsn, s.done, s.part) && SlotsOk(s.rq)
  {
    hide SQI.Inv, AllGenuine, AllTrue, ProtocolResponses.Covered;
    PoisedSlots(s.rq, s.sq.plan, s.sq.expectedPsn, s.done, s.part);
  }

  lemma LastItemOk(s: System, item: Item, part: nat)
    requires Waits(s, item, part)
    ensures ItemOk(s.sq.attr.mtu, item)
  {
    hide SQI.Inv, AllGenuine, AllTrue, ProtocolResponses.Covered, Executed, LocalInv;
    SafeParts(s);
  }

  lemma WholeDeliverable(mtu: Mtu, item: Item)
    requires Whole(item) && ItemOk(mtu, item)
    ensures Deliverable(mtu, item)
  {
    hide NumPackets, PayloadSize;
    forall k | 0 <= k < item.all ensures GatherOk(mtu, item.wr, item.all, k) {
      PacketFits(mtu, item.wr.length, k);
    }
  }

  /** The scheduler sends packet `k`. */
  lemma SenderTurn(s: System, item: Item, k: nat, now: int)
    requires Waits(s, item, k) && ToSend(s.sq, item, k, now) && Whole(item) && k < item.all
    ensures var t := Transmitted(s, now, Success);
      && Waits(t, item, k) && Out(t.sq, item, k, now) && JustSent(t, item, k)
      && t.rq == s.rq && t.sq.retired == s.sq.retired && t.sq.plan == s.sq.plan && t.responses == s.responses && |t.requests| == |s.requests| + 1
  {
    hide Safe, ToSend, Out, PacketOf, Schedule, Prepare, Whole, ItemOk, RdItems, RecvOk;
    LastItemOk(s, item, k);
    NextPacket(s.sq, item, k, now);
    TransmittedSafe(s, now, Success);
    SendingOne(s.sq, item, k, now);
  }

  lemma SendingOne(q: Sq, item: Item, k: nat, now: int)
    requires ToSend(q, item, k, now)
    ensures |q.sending| == 1 && q.sending[0].sent == k
  {
  }

  /** The responder executes packet `k` and queues one acknowledge for it. */
  ghost predicate Executes(s: System, t: System, item: Item, k: nat) {
    && Safe(t) && t.sq == s.sq && t.requests == s.requests && t.responses == s.responses
    && RecvOk(t.rq.state) && t.rq.acks == [NormalAck(item.base + k, item.base + k + 1, SYND_ACK)]
    && (t.done, t.part) == NextPosition(s.sq.plan, s.done, k)
    && t.rq.receives == (if k + 1 < item.all then s.rq.receives else s.rq.receives - 1)
  }

  lemma ResponderTurn(s: System, item: Item, k: nat)
    requires Waits(s, item, k) && JustSent(s, item, k) && Whole(item) && k < item.all
    ensures s.requests != [] && SlotsOk(s.rq) && Close(s.requests[|s.requests| - 1].packet.psn, s.rq.psn)
    ensures Executes(s, Received(s, |s.requests| - 1, Success, 0), item, k)
  {
    hide Safe, PacketOf, Whole, ItemOk, RecvOk, ReceiveRequest, ResponderOk, Acknowledges, Deliverable;
    LastItemOk(s, item, k);
    WholeDeliverable(s.sq.attr.mtu, item);
    SafeParts(s);
    var packet := PacketOf(s.rq.attr.mtu, item, k);
    SendIsGenuine(s.rq, s.sq.plan, s.sq.expectedPsn, s.done, k, Sent(packet, s.done, k, 0));
    ReceivedSafe(s, |s.requests| - 1, Success, 0);
    OneArrives(s.rq, ReceiveRequest(s.rq, packet, Success, 0), s.sq.plan, s.sq.expectedPsn, s.done, k);
  }

  /** The responder sends the acknowledge. */
  lemma AnswerTurn(s: System, item: Item, k: nat)
    requires Safe(s) && RecvOk(s.rq.state) && s.rq.acks == [NormalAck(item.base + k, item.base + k + 1, SYND_ACK)]
    ensures var t := Protocol.Answered(s, true);
      && Safe(t) && t.sq == s.sq && t.requests == s.requests && t.responses == s.responses + [AckFor(item, k)]
      && t.rq == s.rq.(acks := []) && t.done == s.done && t.part == s.part
  {
    hide Safe;
    AnsweredSafe(s, true);
    assert s.rq.acks[1..] == [];
  }

  // ---------------------------------------------------------------------------
  // Runs

  lemma RunOne(s: System, a: Action)
    requires Enabled(s, a)
    ensures Legal(s, [a]) && Run(s, [a]) == Step(s, a)
  {
    hide Enabled, Step;
    assert [a][1..] == [];
    assert Legal(Step(s, a), []);
  }

  lemma {:induction false} RunJoin(s: System, a: seq<Action>, b: seq<Action>)
    requires Legal(s, a) && Legal(Run(s, a), b)
    ensures Legal(s, a + b) && Run(s, a + b) == Run(Run(s, a), b)
    decreases |a|
  {
    hide Enabled, Step;
    if a == [] {
      assert a + b == b;
    } else {
      RunJoin(Step(s, a[0]), a[1..], b);
      assert (a + b)[0] == a[0] && (a + b)[1..] == a[1..] + b;
    }
  }

  /** One step after a run. */
  lemma RunThen(s: System, a: seq<Action>, x: Action)
    requires Legal(s, a) && Enabled(Run(s, a), x)
    ensures Legal(s, a + [x]) && Run(s, a + [x]) == Step(Run(s, a), x)
  {
    hide Enabled, Step, Legal, Run;
    RunOne(Run(s, a), x);
    RunJoin(s, a, [x]);
  }

  function RestOfRound(request: nat, response: nat, now: int): seq<Action> {
    [DeliverRequest(request, Success, 0), RunResponder(true), DeliverResponse(response, now, 0, Success)]
  }

  function Responded(s: System, now: int): System
    requires s.responses != []
  {
    s.(sq := ReceiveResponse(s.sq, s.responses[|s.responses| - 1], now, 0, Success))
  }

  /** The three steps, as functions. */
  lemma RestOfRoundRuns(s: System, now: int)
    requires s.requests != [] && SlotsOk(s.rq) && Close(s.requests[|s.requests| - 1].packet.psn, s.rq.psn)
    requires var s1 := Received(s, |s.requests| - 1, Success, 0);
      SlotsOk(s1.rq) && s1.responses == s.responses
    requires var s2 := Protocol.Answered(Received(s, |s.requests| - 1, Success, 0), true);
      && SlotsOk(s2.rq) && |s2.responses| == |s.responses| + 1
      && InWindow(s2.sq, s2.responses[|s.responses|].psn)
    ensures var acts := RestOfRound(|s.requests| - 1, |s.responses|, now);
      && Legal(s, acts)
      && Run(s, acts) == Responded(Protocol.Answered(Received(s, |s.requests| - 1, Success, 0), true), now)
  {
    hide InWindow, ReceiveRequest, Generate, ReceiveResponse, Legal, Run;
    var a, b, c := DeliverRequest(|s.requests| - 1, Success, 0), RunResponder(true), DeliverResponse(|s.responses|, now, 0, Success);
    RunOne(s, a);
    RunThen(s, [a], b);
    RunThen(s, [a] + [b], c);
    assert [a] + [b] + [c] == RestOfRound(|s.requests| - 1, |s.responses|, now);
  }

  /** Where a connection stands once the first `k` packets of the last item are acknowledged. */
  ghost predicate Reaches(s: System, t: System, item: Item, k: nat, now: int) {
    && t.sq.plan == s.sq.plan && t.requests == s.requests && |t.responses| == |s.responses| + 1
    && (if k < item.all then Waits(t, item, k) && ToSend(t.sq, item, k, now) && t.sq.retired == s.sq.retired && t.rq.receives == s.rq.receives
        else Idle(t) && t.sq.retired == s.sq.retired + [Retired(item.wr, Success)] && t.rq.receives == s.rq.receives - 1)
  }

  /** Packet `k` is delivered, executed and acknowledged. */
  lemma UpToAnswer(s: System, item: Item, k: nat)
    requires Waits(s, item, k) && JustSent(s, item, k) && Whole(item) && k < item.all
    ensures s.requests != [] && SlotsOk(s.rq) && Close(s.requests[|s.requests| - 1].packet.psn, s.rq.psn)
    ensures var s1 := Received(s, |s.requests| - 1, Success, 0);
      var s2 := Protocol.Answered(s1, true);
      && SlotsOk(s1.rq) && s1.responses == s.responses && SlotsOk(s2.rq) && Safe(s2)
      && s2.sq == s.sq && s2.requests == s.requests && s2.responses == s.responses + [AckFor(item, k)]
      && RecvOk(s2.rq.state) && s2.rq.acks == [] && (s2.done, s2.part) == NextPosition(s.sq.plan, s.done, k)
      && s2.rq.receives == (if k + 1 < item.all then s.rq.receives else s.rq.receives - 1)
  {
    hide Safe, Waits, JustSent, Whole, Received, Protocol.Answered, NextPosition, AckFor;
    ResponderTurn(s, item, k);
    var s1 := Received(s, |s.requests| - 1, Success, 0);
    AnswerTurn(s1, item, k);
    SafeParts(s1);
    SafeParts(Protocol.Answered(s1, true));
  }

  /** The acknowledge is delivered too. */
  lemma RoundEnds(s: System, item: Item, k: nat, now: int)
    requires Waits(s, item, k) && Out(s.sq, item, k, now) && JustSent(s, item, k) && Whole(item) && k < item.all
    ensures s.requests != []
    ensures var acts := RestOfRound(|s.requests| - 1, |s.responses|, now);
      Legal(s, acts) && Reaches(s, Run(s, acts), item, k + 1, now)
  {
    hide Safe, Received, Protocol.Answered, Legal, Run, ToSend, Out, ReceiveResponse, InWindow, JustSent, RestOfRound, RecvOk, Whole;
    LastItemOk(s, item, k);
    UpToAnswer(s, item, k);
    var s2 := Protocol.Answered(Received(s, |s.requests| - 1, Success, 0), true);
    NearItem(s2.sq, item, k, now);
    RestOfRoundRuns(s, now);
    AckArrives(s2.sq, item, k, now);
    RespondedSafe(s2, |s.responses|, now, 0, Success);
    SendSteps(item);
    hide ItemOk;
  }

  lemma SendSteps(item: Item)
    requires Whole(item)
    ensures StepsOf(item) == item.all
  {
  }

  /** Send, deliver, acknowledge, deliver: `m` times, starting from the given places in the logs. */
  function Rounds(request: nat, response: nat, m: nat, now: int): seq<Action>
    decreases m
  {
    if m == 0 then []
    else [RunSender(now, Success)] + RestOfRound(request, response, now) + Rounds(request + 1, response + 1, m - 1, now)
  }

  /** The sender's turn as a run. */
  lemma SenderRuns(s: System, now: int)
    requires Safe(s)
    ensures Legal(s, [RunSender(now, Success)]) && Run(s, [RunSender(now, Success)]) == Transmitted(s, now, Success)
  {
    hide Safe, Transmitted, Legal, Run;
    SafeParts(s);
    RunOne(s, RunSender(now, Success));
  }

  /** `acts` retires `item` with success and leaves the connection idle. */
  ghost predicate Finishes(s: System, acts: seq<Action>, item: Item) {
    && Legal(s, acts)
    && var t := Run(s, acts);
       && Idle(t) && t.sq.plan == s.sq.plan
       && t.sq.retired == s.sq.retired + [Retired(item.wr, Success)] && t.rq.receives == s.rq.receives - 1
  }

  lemma FinishesAfter(s: System, first: seq<Action>, acts: seq<Action>, item: Item)
    requires Legal(s, first)
    requires var t := Run(s, first);
      && t.sq.plan == s.sq.plan && t.sq.retired == s.sq.retired && t.rq.receives == s.rq.receives
      && Finishes(t, acts, item)
    ensures Finishes(s, first + acts, item)
  {
    hide Legal, Run, Idle;
    RunJoin(s, first, acts);
  }

  /** The remaining rounds once packet `k` is out. */
  lemma {:induction false} RoundsEnd(s: System, item: Item, k: nat, now: int)
    requires Waits(s, item, k) && Out(s.sq, item, k, now) && JustSent(s, item, k) && Whole(item) && k < item.all
    ensures s.requests != []
    ensures Finishes(s, RestOfRound(|s.requests| - 1, |s.responses|, now)
                        + Rounds(|s.requests|, |s.responses| + 1, item.all - k - 1, now), item)
    decreases item.all - k
  {
    hide Waits, Out, JustSent, Whole, ToSend, Idle, Legal, Run, RestOfRound, Rounds, Transmitted;
    RoundEnds(s, item, k, now);
    var first := RestOfRound(|s.requests| - 1, |s.responses|, now);
    var t := Run(s, first);
    RoundsStep(|s.requests|, |s.responses| + 1, item.all - k - 1, now);
    if k + 1 == item.all {
      assert first + [] == first;
    } else {
      hide Finishes;
      SenderTurn(t, item, k + 1, now);
      RoundsEnd(Transmitted(t, now, Success), item, k + 1, now);
      var rest := RestOfRound(|s.requests|, |s.responses| + 1, now) + Rounds(|s.requests| + 1, |s.responses| + 2, item.all - k - 2, now);
      TurnThen(t, item, k + 1, now, rest);
      FinishesAfter(s, first, [RunSender(now, Success)] + rest, item);
    }
  }

  lemma TurnThen(s: System, item: Item, k: nat, now: int, rest: seq<Action>)
    requires Waits(s, item, k) && ToSend(s.sq, item, k, now) && Whole(item) && k < item.all
    requires Finishes(Transmitted(s, now, Success), rest, item)
    ensures Finishes(s, [RunSender(now, Success)] + rest, item)
  {
    hide Waits, Whole, ToSend, Out, JustSent, Legal, Run, Transmitted, Finishes;
    SafeFromWaits(s, item, k);
    SenderRuns(s, now);
    SenderTurn(s, item, k, now);
    FinishesAfter(s, [RunSender(now, Success)], rest, item);
  }

  lemma RoundsStep(request: nat, response: nat, m: nat, now: int)
    ensures m == 0 ==> Rounds(request, response, m, now) == []
    ensures m > 0 ==>
      Rounds(request, response, m, now)
      == [RunSender(now, Success)] + (RestOfRound(request, response, now) + Rounds(request + 1, response + 1, m - 1, now))
  {
    hide RestOfRound;
  }

  lemma SafeFromWaits(s: System, item: Item, part: nat)
    requires Waits(s, item, part)
    ensures Safe(s)
  {
  }

  /** The scheduler's first turn with the new request. */
  lemma FirstTurn(s: System, w: Wr, now: int)
    requires Safe(s) && Loaded(s.sq, w) && s.done == |s.sq.plan| && s.part == 0
    requires RecvOk(s.rq.state) && s.rq.acks == [] && s.rq.receives > 0 && Whole(ItemFor(s.sq, w))
    ensures var item, t := ItemFor(s.sq, w), Transmitted(s, now, Success);
      && Waits(t, item, 0) && Out(t.sq, item, 0, now) && JustSent(t, item, 0) && item.all >= 1
      && t.rq == s.rq && t.sq.retired == s.sq.retired && t.sq.plan == s.sq.plan + [item]
      && t.responses == s.responses && |t.requests| == |s.requests| + 1
  {
    hide Safe, Loaded, Out, PacketOf, Schedule, Prepare, Whole, ItemOk, RdItems, RecvOk, NumPackets, SQI.Inv, Transmitted, ResponderOk;
    SafeParts(s);
    FirstPacket(s.sq, w, now);
    TransmittedSafe(s, now, Success);
    TransmittedIs(s, now, PacketOf(s.sq.attr.mtu, ItemFor(s.sq, w), 0));
    SomePackets(s.sq, w);
  }

  lemma SomePackets(q: Sq, w: Wr)
    ensures ItemFor(q, w).all >= 1
  {
  }

  /** The system after a packet went out. */
  lemma TransmittedIs(s: System, now: int, packet: Request)
    requires Schedule(s.sq, now, Success).1 == Some(packet) && Prepare(s.sq, now).sending != []
    ensures var t, ready := Transmitted(s, now, Success), Prepare(s.sq, now);
      && t == s.(sq := Schedule(s.sq, now, Success).0, requests := t.requests)
      && t.requests == s.requests + [Sent(packet, |ready.plan| - |ready.sending|, ready.sending[0].sent, |RdItems(t.sq.plan)|)]
  {
    hide Schedule, Prepare, RdItems;
  }

  /** `wr` can be posted to `q`. */
  predicate Postable(q: Sq, wr: Wr) {
    && IsSend(wr.opcode) && 1 <= wr.numSge <= q.attr.maxSge && |wr.data| <= MAX_PAYLOAD_LEN
    && q.free > 0 && !InlineFault(q.attr, wr, |wr.data|)
  }

  lemma PostLoads(q: Sq, wr: Wr)
    requires q.state == RTS && Flight(q) == [] && q.submitted == [] && Postable(q, wr)
    ensures var (t, result) := PostSend(q, [wr]);
      && result == Posted && Loaded(t, wr.(length := |wr.data|))
      && t.plan == q.plan && t.retired == q.retired && t.attr == q.attr && t.expectedPsn == q.expectedPsn
  {
    var (q1, carry, r) := PostOne(q, wr, 0);
    assert [wr][1..] == [];
    assert PostChain(q1, [], carry) == (q1, Posted);
    assert PostChain(q, [wr], 0) == (q1, Posted);
  }

  /** The whole of a loss-free transfer: the post, then a round for each packet. */
  function Transfer(s: System, wr: Wr, now: int): seq<Action> {
    [Post([wr])] + Rounds(|s.requests|, |s.responses|, NumPackets(s.sq.attr.mtu, |wr.data|), now)
  }

  /**
    A SEND of any length posted to an idle connection, with every packet and acknowledge delivered
    in turn, is retired with success; the receiver has the message, and the connection is idle again.
   */
  lemma LossFreeSend(s: System, wr: Wr, now: int)
    requires Idle(s) && s.rq.receives > 0 && Postable(s.sq, wr)
    ensures Legal(s, Transfer(s, wr, now))
    ensures var t := Run(s, Transfer(s, wr, now));
      && Idle(t)
      && t.sq.retired == s.sq.retired + [Retired(wr.(length := |wr.data|), Success)]
      && t.rq.inbox == s.rq.inbox + [wr.data] && t.rq.receives == s.rq.receives - 1
  {
    hide Safe, Loaded, Out, Waits, JustSent, PostSend, Transmitted, Legal, Run, RestOfRound, Rounds, NumPackets, RecvOk;
    var w := wr.(length := |wr.data|);
    var a := Post([wr]);
    SafeParts(s);
    PostLoads(s.sq, wr);
    PostSafe(s, [wr]);
    RunOne(s, a);
    var s1 := s.(sq := PostSend(s.sq, [wr]).0);
    FirstTurn(s1, w, now);
    SenderRuns(s1, now);
    var u := Transmitted(s1, now, Success);
    var item := ItemFor(s1.sq, w);
    RoundsEnd(u, item, 0, now);
    RoundsStep(|s.requests|, |s.responses|, item.all, now);
    var turn := [RunSender(now, Success)];
    var rest := RestOfRound(|s.requests|, |s.responses|, now) + Rounds(|s.requests| + 1, |s.responses| + 1, item.all - 1, now);
    RunJoin(s1, turn, rest);
    RunJoin(s, [a], turn + rest);
    Delivered(s, Run(s, Transfer(s, wr, now)), item);
  }

  /** Idle ends agree: the receiver has every message of the plan. */
  lemma Delivered(s: System, t: System, item: Item)
    requires Idle(s) && Idle(t) && t.sq.plan == s.sq.plan + [item] && Whole(item)
    ensures t.rq.inbox == s.rq.inbox + [item.wr.data]
  {
    hide SQI.Inv, AllGenuine, AllTrue, ProtocolResponses.Covered, LocalInv, PlanOk, IdealEffects, EffectsOf, IdealMessages, RecordsMatch;
    SafeParts(s);
    SafeParts(t);
    assert s.sq.plan[..|s.sq.plan|] == s.sq.plan && t.sq.plan[..|t.sq.plan|] == t.sq.plan;
    IdealLast(s.rq.attr.mtu, s.sq.plan, item);
    assert item.wr.data[..|item.wr.data|] == item.wr.data;
  }

  /** Two ends just configured become an idle connection. */
  lemma ConnectedIsIdle(s: System)
    requires Start(s)
    ensures var actions := [ModifySender(RTR), ModifySender(RTS), AddReceive];
      Legal(s, actions) && Idle(Run(s, actions)) && Run(s, actions).rq.receives == 1
  {
    hide Safe;
    StartSafe(s);
    var a, b, c := ModifySender(RTR), ModifySender(RTS), AddReceive;
    RunOne(s, a);
    RunThen(s, [a], b);
    RunThen(s, [a] + [b], c);
    assert [a] + [b] + [c] == [a, b, c];
    RunSafe(s, [a, b, c]);
  }
}
