/**
  A SEND that finds no receive entry: the responder answers with an RNR NAK, the requester goes back to
  the first packet not acknowledged, and once there are receive entries everything in flight is retired.
 */
module RnrRound {
  import opened Psn
  import opened Jiffies
  import opened WorkRequest
  import opened SendQueue
  import SQI = SendQueueInvariant
  import opened ReceiveQueue
  import opened Protocol
  import opened ProtocolRequests
  import opened ProtocolProgress
  import opened ResponderOutcomes
  import opened ResponseOutcomes
  import opened AckProgress
  import opened RetryRound
  import LossFree
  import opened Recovery

  /** The packet on its way is the one the responder expects, and needs a receive entry that is not there. */
  ghost predicate Starved(s: System, i: nat, k: nat, now: int) {
    && Working(s, now) && OnItsWay(s, i, k)
    && Flight(s.sq)[i].base + k == s.rq.psn && LacksEntry(s.rq, ItemOf(Flight(s.sq)[i]), k)
  }

  /** The RNR NAK for `psn` as it is queued and as it is sent. */
  function NakCode(r: Rq): int {
    0x20 + r.attr.rnrTimer % 0x20
  }

  /** The packet arrives and is answered with an RNR NAK. */
  lemma NakQueued(s: System, i: nat, k: nat, now: int)
    requires Starved(s, i, k, now)
    ensures SlotsOk(s.rq) && Close(s.requests[|s.requests| - 1].packet.psn, s.rq.psn)
    ensures var t := Received(s, |s.requests| - 1, Success, 0);
      && Truthful(t) && t.sq == s.sq && t.requests == s.requests && t.responses == s.responses
      && RecvOk(t.rq.state) && t.rq.psn == s.rq.psn && t.rq.acks == [NormalAck(s.rq.psn, s.rq.psn + 1, NakCode(s.rq))]
  {
    hide Truthful, AllSendable, Narrow, JustOut, ReceiveRequest, PacketOf, SQI.Inv, ResponderOk, Genuine, InWindow;
    Sound(s);
    LogNotEmpty(s, i, k);
    GenuineLast(s);
    var q := s.requests[|s.requests| - 1];
    SameNumber(s.rq.attr.mtu, s.sq.plan, q, Flight(s.sq)[i], k);
    NotServed(s.rq, s.sq.plan[q.item], q.k);
    ExpectedOutcome(s.rq, s.sq.plan, s.sq.expectedPsn, s.done, s.part, q, Success, 0);
    StepTruthful(s, DeliverRequest(|s.requests| - 1, Success, 0));
  }

  lemma SameNumber(mtu: Mtu, plan: seq<Item>, q: Sent, e: Swqe, k: nat)
    requires Genuine(mtu, plan, q) && plan[q.item] == ItemOf(e) && q.packet.psn == e.base + k
    ensures q.k == k
  {
    hide PacketOf, GatherOk;
    GenuineFacts(mtu, plan, q);
  }

  lemma NotServed(r: Rq, item: Item, k: nat)
    requires LacksEntry(r, item, k)
    ensures !Serves(r, item, k, Success)
  {
  }

  /** Where the requester stands once it has the NAK: everything is to be sent again from `later` on. */
  lemma NakTaken(q: Sq, r: Response, now: int, delay: nat, later: int)
    requires SQI.Inv(q) && q.state in {RTS, SQD} && Flight(q) != [] && Narrow(q) && AllSendable(Flight(q), later)
    requires r.kind == AckKind && r.size == AETH_SIZE && 0x20 <= r.syndrome < 0x40
    requires !TimeAfter(delay, later) && (q.attr.rnrRetry < 7 ==> Flight(q)[0].rnrRetry > 0)
    ensures var t := ReceiveResponse(q, r, now, delay, Success);
      && t.waiting == [] && t.nrContig == 0 && t.state == q.state && t.retired == q.retired
      && AllSendable(Flight(t), later) && Narrow(t)
      && |Flight(t)| == |Flight(q)| && forall j :: 0 <= j < |Flight(q)| ==> Flight(t)[j].wr == Flight(q)[j].wr
  {
    hide ReceiveResponse, SQI.Inv, TimeAfter;
    RnrNakRewinds(q, r, now, delay, Success);
    var t := ReceiveResponse(q, r, now, delay, Success);
    assert Flight(t) == t.sending;
    forall j | 0 <= j < |Flight(q)| ensures Sendable(t.sending[j], later) && t.sending[j].wr == Flight(q)[j].wr {
      assert Sendable(Flight(q)[j], later);
    }
  }

  function NakActions(request: nat, response: nat, now: int, delay: nat): seq<Action> {
    [DeliverRequest(request, Success, 0), RunResponder(true), DeliverResponse(response, now, delay, Success)]
  }

  function NakDelivered(s: System, now: int, delay: nat): System
    requires s.responses != []
  {
    s.(sq := ReceiveResponse(s.sq, s.responses[|s.responses| - 1], now, delay, Success))
  }

  lemma NakRuns(s: System, now: int, delay: nat)
    requires s.requests != [] && SlotsOk(s.rq) && Close(s.requests[|s.requests| - 1].packet.psn, s.rq.psn)
    requires var s1 := Received(s, |s.requests| - 1, Success, 0);
      SlotsOk(s1.rq) && s1.responses == s.responses
    requires var s2 := Protocol.Answered(Received(s, |s.requests| - 1, Success, 0), true);
      SlotsOk(s2.rq) && |s2.responses| == |s.responses| + 1 && InWindow(s2.sq, s2.responses[|s.responses|].psn)
    ensures var acts := NakActions(|s.requests| - 1, |s.responses|, now, delay);
      Legal(s, acts) && Run(s, acts) == NakDelivered(Protocol.Answered(Received(s, |s.requests| - 1, Success, 0), true), now, delay)
  {
    hide InWindow, ReceiveRequest, Generate, ReceiveResponse, Legal, Run;
    var a, b, c := DeliverRequest(|s.requests| - 1, Success, 0), RunResponder(true), DeliverResponse(|s.responses|, now, delay, Success);
    LossFree.RunOne(s, a);
    LossFree.RunThen(s, [a], b);
    LossFree.RunThen(s, [a] + [b], c);
    assert [a] + [b] + [c] == NakActions(|s.requests| - 1, |s.responses|, now, delay);
  }

  /** The NAK is sent. */
  lemma NakSent(s: System, i: nat, k: nat, now: int)
    requires Starved(s, i, k, now)
    ensures s.requests != [] && SlotsOk(s.rq) && Close(s.requests[|s.requests| - 1].packet.psn, s.rq.psn)
    ensures var s1 := Received(s, |s.requests| - 1, Success, 0);
      var s2 := Protocol.Answered(s1, true);
      && SlotsOk(s1.rq) && s1.responses == s.responses && SlotsOk(s2.rq) && Truthful(s2) && s2.sq == s.sq && s2.requests == s.requests
      && RecvOk(s2.rq.state) && s2.rq.acks == [] && InWindow(s2.sq, s.rq.psn)
      && s2.responses == s.responses + [Response(s.rq.psn, AckKind, NakCode(s.rq), AETH_SIZE, 0, 0, 0, 0)]
  {
    hide Truthful, AllSendable, Narrow, JustOut, SQI.Inv, ResponderOk, InWindow, Received, Generate;
    NakQueued(s, i, k, now);
    OutPsn(s, i, k, now);
    var s1 := Received(s, |s.requests| - 1, Success, 0);
    Sound(s1);
    AnsweredTruthful(s1);
    GenerateLone(s1.rq);
    Sound(Protocol.Answered(s1, true));
  }

  /** The requester is back at the first packet not acknowledged. */
  ghost predicate BackAgain(s: System, t: System, later: int) {
    && Working(t, later) && t.sq.waiting == [] && t.sq.nrContig == 0 && t.sq.retired == s.sq.retired
    && |t.requests| == |s.requests| && |t.responses| == |s.responses| + 1
    && |Flight(t.sq)| == |Flight(s.sq)| && forall j :: 0 <= j < |Flight(s.sq)| ==> Flight(t.sq)[j].wr == Flight(s.sq)[j].wr
  }

  lemma GoesBack(s: System, i: nat, k: nat, now: int, delay: nat, later: int)
    requires Starved(s, i, k, now) && AllSendable(Flight(s.sq), later)
    requires !TimeAfter(delay, later) && (s.sq.attr.rnrRetry < 7 ==> Flight(s.sq)[0].rnrRetry > 0)
    ensures s.requests != []
    ensures var acts := NakActions(|s.requests| - 1, |s.responses|, now, delay);
      Legal(s, acts) && BackAgain(s, Run(s, acts), later)
  {
    hide Truthful, AllSendable, Narrow, JustOut, SQI.Inv, ResponderOk, InWindow, Received, Protocol.Answered, ReceiveResponse, Legal, Run, NakActions, TimeAfter;
    NakSent(s, i, k, now);
    NakRuns(s, now, delay);
    LogNotEmpty(s, i, k);
    Sound(s);
    var s2 := Protocol.Answered(Received(s, |s.requests| - 1, Success, 0), true);
    NakTaken(s.sq, s2.responses[|s.responses|], now, delay, later);
    StepTruthful(s2, DeliverResponse(|s.responses|, now, delay, Success));
  }

  /** Without what was sent before the last packet, `acts` retires everything in flight with success. */
  ghost predicate RetiresAll(s: System, acts: seq<Action>) {
    && s.requests != [] && Legal(s, acts) && AllUnaided(acts, |s.requests| - 1, |s.responses|)
    && Flight(Run(s, acts).sq) == [] && Run(s, acts).sq.retired == s.sq.retired + Records(Flight(s.sq), Success)
  }

  /** Back, and then the rest. */
  lemma BackThenRest(s: System, first: seq<Action>, rest: seq<Action>, later: int)
    requires s.requests != [] && Legal(s, first) && AllUnaided(first, |s.requests| - 1, |s.responses|)
    requires BackAgain(s, Run(s, first), later) && Recovers(Run(s, first), rest)
    ensures RetiresAll(s, first + rest)
  {
    hide Legal, Run, BackAgain, AllUnaided, Records, Working, Flight;
    var t := Run(s, first);
    BackFacts(s, t, later);
    LossFree.RunJoin(s, first, rest);
    UnaidedJoin(first, rest, |s.requests| - 1, |s.responses|, |t.requests|, |t.responses|);
  }

  /**
    A packet that needs a receive entry arrives when there is none, with only SENDs and RDMA WRITEs free of
    error in flight.  The requester takes the RNR NAK, and from any later time at which the delay is over,
    with receive entries posted, every request in flight is retired with success, provided the oldest one
    has an RNR retry left.
   */
  lemma RnrNakRecovers(s: System, i: nat, k: nat, now: int, delay: nat, later: int) returns (acts: seq<Action>)
    requires Starved(s, i, k, now) && AllSendable(Flight(s.sq), later)
    requires !TimeAfter(delay, later) && (s.sq.attr.rnrRetry < 7 ==> Flight(s.sq)[0].rnrRetry > 0)
    ensures RetiresAll(s, acts)
  {
    hide Legal, Run, Starved, AllSendable, NakActions, BackAgain, AllUnaided, TimeAfter, Recovers, RetiresAll, Working;
    GoesBack(s, i, k, now, delay, later);
    var first := NakActions(|s.requests| - 1, |s.responses|, now, delay);
    BackFacts(s, Run(s, first), later);
    var rest := Resume(Run(s, first), later, false);
    NakUnaided(|s.requests| - 1, |s.responses|, now, delay);
    BackThenRest(s, first, rest, later);
    acts := first + rest;
  }

  lemma BackFacts(s: System, t: System, later: int)
    requires BackAgain(s, t, later)
    ensures Working(t, later) && t.sq.waiting == [] && t.sq.nrContig == 0 && t.sq.retired == s.sq.retired
    ensures |t.requests| == |s.requests| && |t.responses| == |s.responses| + 1
    ensures Records(Flight(t.sq), Success) == Records(Flight(s.sq), Success)
  {
    hide Working;
  }

  lemma NakUnaided(request: nat, response: nat, now: int, delay: nat)
    ensures AllUnaided(NakActions(request, response, now, delay), request, response)
  {
  }
}
