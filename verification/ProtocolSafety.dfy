/**
  Safety of whole runs of the two parties over a channel that loses, repeats and reorders.
 */
module ProtocolSafety {
  import opened Psn
  import opened OpCode
  import opened WorkRequest
  import opened SendQueue
  import SQI = SendQueueInvariant
  import SendQueueRuns
  import opened ReceiveQueue
  import opened ReceiveQueueInvariant
  import opened Protocol
  import opened ResponderExecution
  import opened AckTruth
  import opened ProtocolRequests
  import opened ProtocolResponses

  ghost predicate AllGenuine(mtu: Mtu, plan: seq<Item>, requests: seq<Sent>) {
    forall i :: 0 <= i < |requests| ==> Genuine(mtu, plan, requests[i])
  }

  ghost predicate AllTrue(p: Past, responses: seq<Response>) {
    forall i :: 0 <= i < |responses| ==> ResponseTrue(p, responses[i])
  }

  ghost predicate Safe(s: System) {
    && SQI.Inv(s.sq)
    && s.sq.attr.mtu == s.rq.attr.mtu && s.sq.attr.origin == s.rq.attr.origin
    && ResponderOk(s.rq, s.sq.plan, s.sq.expectedPsn, s.done, s.part)
    && AllGenuine(s.rq.attr.mtu, s.sq.plan, s.requests)
    && s.done <= |s.sq.plan|
    && AllTrue(PastOf(s.rq, s.sq.plan, s.done), s.responses)
    && Covered(s.sq, s.rq.psn)
  }

  // ---------------------------------------------------------------------------
  // Steps of the requester

  lemma PlanFromInv(s: Sq)
    requires SQI.Inv(s)
    ensures PlanOk(s.attr.mtu, s.plan, s.attr.origin, s.expectedPsn)
  {
    hide SQI.Counted, SQI.Conserved, SQI.FlightOk, SQI.SubmittedOk, SQI.RdCounted, SQI.Fenced, SQI.Planned;
  }

  lemma GenuineGrowsAll(mtu: Mtu, plan: seq<Item>, plan': seq<Item>, requests: seq<Sent>)
    requires AllGenuine(mtu, plan, requests) && plan <= plan'
    ensures AllGenuine(mtu, plan', requests)
  {
    hide Genuine;
    forall i | 0 <= i < |requests| ensures Genuine(mtu, plan', requests[i]) {
      GenuineGrows(mtu, plan, plan', requests[i]);
    }
  }

  /** The requester may extend its plan and retire requests whose range was executed. */
  lemma SenderSafe(s: System, sq: Sq, requests: seq<Sent>)
    requires Safe(s) && SQI.Inv(sq) && sq.attr == s.sq.attr && s.sq.plan <= sq.plan
    requires AllGenuine(s.rq.attr.mtu, sq.plan, requests) && Covered(sq, s.rq.psn)
    ensures Safe(s.(sq := sq, requests := requests))
  {
    hide SQI.Inv, AllGenuine, Covered, AllTrue, Executed, AcksTrue, ReadsAscend, LocalInv, PlanOk;
    PlanFromInv(sq);
    ExecutedGrows(s.rq, s.sq.plan, sq.plan, s.done, s.part);
    assert sq.plan[..s.done] == s.sq.plan[..s.done];
  }

  lemma QuietSenderSafe(s: System, sq: Sq)
    requires Safe(s) && SQI.Inv(sq) && sq.attr == s.sq.attr && SucceededUpTo(s.sq, sq, 0)
    ensures Safe(s.(sq := sq))
  {
    hide SQI.Inv, ResponderOk, AllTrue, SucceededUpTo;
    CoveredStep(s.sq, sq, 0, s.rq.psn);
    assert s.sq.plan <= sq.plan by { SucceededPlan(s.sq, sq, 0); }
    hide AllGenuine, Covered;
    GenuineGrowsAll(s.rq.attr.mtu, s.sq.plan, sq.plan, s.requests);
    SenderSafe(s, sq, s.requests);
  }

  lemma SucceededPlan(s: Sq, t: Sq, k: nat)
    requires SucceededUpTo(s, t, k)
    ensures s.plan <= t.plan
  {
  }

  lemma HeadOfPlan(s: Sq)
    requires SQI.Inv(s) && s.sending != []
    ensures 0 <= |s.plan| - |s.sending| < |s.plan|
    ensures s.plan[|s.plan| - |s.sending|] == ItemOf(s.sending[0])
  {
    hide SQI.Counted, SQI.Conserved, SQI.FlightOk, SQI.SubmittedOk, SQI.RdCounted, SQI.Fenced, SQI.PlanTiled;
    assert Flight(s)[|s.waiting|] == s.sending[0];
  }

  /** What the requester sends is the packet its plan has at that place. */
  lemma SentIsGenuine(s: Sq, now: int, mem: WcStatus, stamp: nat)
    requires SQI.Inv(s) && Schedule(s, now, mem).1.Some?
    ensures var ready := Prepare(s, now); ready.sending != []
    ensures var (t, out) := Schedule(s, now, mem);
      var ready := Prepare(s, now);
      && t.plan == ready.plan
      && Genuine(s.attr.mtu, t.plan, Sent(out.value, |ready.plan| - |ready.sending|, ready.sending[0].sent, stamp))
  {
    hide SQI.Inv, Prepare, PacketOf, FailHead;
    SQI.PrepareKeeps(s, now);
    SendQueueRuns.PrepareExtends(s, now);
    var ready := Prepare(s, now);
    assert HeadReady(ready, now);
    HeadOfPlan(ready);
    SQI.HeadSound(ready);
    hide GatherOk, PayloadSize, RestartsContig, NumPackets;
  }

  lemma TransmittedSafe(s: System, now: int, mem: WcStatus)
    requires Safe(s)
    ensures Safe(Transmitted(s, now, mem))
  {
    hide Schedule, SQI.Inv, ResponderOk, AllTrue, Covered, Genuine, Prepare, SucceededUpTo, RdItems;
    var (sq, out) := Schedule(s.sq, now, mem);
    SQI.ScheduleKeeps(s.sq, now, mem);
    SendQueueRuns.ScheduleExtends(s.sq, now, mem);
    ScheduleNoSuccess(s.sq, now, mem);
    QuietSenderSafe(s, sq);
    if out.Some? {
      SentIsGenuine(s.sq, now, mem, |RdItems(sq.plan)|);
      SenderSafe(s.(sq := sq), sq, Transmitted(s, now, mem).requests);
    }
  }

  // ---------------------------------------------------------------------------
  // Steps of the responder

  lemma TrueLaterAll(p: Past, q: Past, responses: seq<Response>)
    requires AllTrue(p, responses) && Later(p, q)
    ensures AllTrue(q, responses)
  {
    hide ResponseTrue;
    forall i | 0 <= i < |responses| ensures ResponseTrue(q, responses[i]) {
      ResponseTrueLater(p, q, responses[i]);
    }
  }

  lemma ReceivedSafe(s: System, index: nat, mem: WcStatus, result: int)
    requires Safe(s) && index < |s.requests| && Close(s.requests[index].packet.psn, s.rq.psn)
    ensures SlotsOk(s.rq) && Safe(Received(s, index, mem, result))
  {
    hide SQI.Inv, Genuine, AllTrue, Covered;
    var q := s.requests[index];
    var plan := s.sq.plan;
    RequestReceived(s.rq, plan, s.sq.expectedPsn, s.done, s.part, q, mem, result);
    ReceiveRequestKeeps(s.rq, q.packet, mem, result);
    hide AllGenuine, ReceiveRequest, Executed, AcksTrue, ReadsAscend, LocalInv, PlanOk;
    var t := Received(s, index, mem, result);
    TrueLaterAll(PastOf(s.rq, plan, s.done), PastOf(t.rq, plan, t.done), s.responses);
    CoveredLater(s.sq, s.rq.psn, t.rq.psn);
  }

  lemma CoveredLater(s: Sq, psn: int, psn': int)
    requires Covered(s, psn) && psn <= psn'
    ensures Covered(s, psn')
  {
  }

  lemma AnsweredSafe(s: System, memOk: bool)
    requires Safe(s)
    ensures Safe(Answered(s, memOk))
  {
    hide SQI.Inv, AllGenuine, Covered;
    var past := PastOf(s.rq, s.sq.plan, s.done);
    var (rq, out) := Generate(s.rq, memOk);
    GenerateTrue(past, s.rq, memOk);
    GenerateKeeps(s.rq, memOk);
    GenerateFields(s.rq, memOk);
    hide Generate, AcksTrue, ReadsAscend, LocalInv, PlanOk, ResponseTrue;
    RepliesOnly(s.rq, rq, s.sq.plan, s.sq.expectedPsn, s.done, s.part);
    hide Executed;
    var t := Answered(s, memOk);
    assert PastOf(rq, s.sq.plan, s.done) == past;
    assert AllTrue(past, t.responses);
  }

  lemma GenerateFields(r: Rq, memOk: bool)
    ensures OnlyReplies(r, Generate(r, memOk).0)
  {
    hide ReadResponse;
  }

  /** The responder's own error, new receive entries, or leave to go on with RDMA READ responses. */
  lemma ResponderEventSafe(s: System, rq: Rq)
    requires Safe(s) && (rq == s.rq.(receives := rq.receives, nrContigReads := rq.nrContigReads) || rq == Fatal(s.rq))
    ensures Safe(s.(rq := rq))
  {
    hide SQI.Inv, AllGenuine, Covered, AllTrue, PlanOk, RingOk;
    if rq == Fatal(s.rq) {
      FatalFromLocal(s.rq);
      FatalReceived(s.rq, s.sq.plan, s.sq.expectedPsn, s.done, s.part);
    } else {
      SideFields(s.rq, rq);
      RepliesOnly(s.rq, rq, s.sq.plan, s.sq.expectedPsn, s.done, s.part);
    }
    hide Executed, AcksTrue, ReadsAscend, LocalInv;
    assert PastOf(rq, s.sq.plan, s.done) == PastOf(s.rq, s.sq.plan, s.done);
  }

  lemma RespondedSafe(s: System, number: nat, now: int, rnrDelay: nat, mem: WcStatus)
    requires Safe(s) && number < |s.responses| && InWindow(s.sq, s.responses[number].psn)
    ensures Safe(s.(sq := ReceiveResponse(s.sq, s.responses[number], now, rnrDelay, mem)))
  {
    hide SQI.Inv, ResponderOk, AllGenuine, Covered, InWindow;
    var r := s.responses[number];
    var sq := ReceiveResponse(s.sq, r, now, rnrDelay, mem);
    SQI.ReceiveResponseKeeps(s.sq, r, now, rnrDelay, mem);
    SendQueueRuns.ReceiveResponseExtends(s.sq, r, now, rnrDelay, mem);
    ReceiveResponseCovered(s.sq, PastOf(s.rq, s.sq.plan, s.done), r, now, rnrDelay, mem);
    hide AllTrue, ReceiveResponse;
    GenuineGrowsAll(s.rq.attr.mtu, s.sq.plan, sq.plan, s.requests);
    SenderSafe(s, sq, s.requests);
  }

  // ---------------------------------------------------------------------------
  // Runs

  lemma StartResponder(r: Rq, origin: int)
    requires r == Rq(r.attr, RTR, origin, RESET_OPCODE, 0, 0, 0, 0, 0, 0,
                     seq(MAX_RD_ATOM, _ => EMPTY_SLOT), [], 0, 0, [], [], [], [])
    requires r.attr.origin == origin
    ensures ResponderOk(r, [], origin, 0, 0)
  {
    var none: seq<Item> := [];
    assert none[..0] == none;
    hide EffectsOf;
  }

  lemma StartSafe(s: System)
    requires Start(s)
    ensures Safe(s)
  {
    hide SQI.Inv, ResponderOk;
    SendQueueRuns.FreshInv(s.sq.attr);
    assert s.sq == SendQueueRuns.Fresh(s.sq.attr);
    StartResponder(s.rq, s.rq.attr.origin);
  }

  lemma PostSafe(s: System, wrs: seq<Wr>)
    requires Safe(s)
    ensures Safe(s.(sq := PostSend(s.sq, wrs).0))
  {
    hide SQI.Inv, ResponderOk, AllGenuine, AllTrue, Covered, SucceededUpTo, PostSend;
    SQI.PostSendKeeps(s.sq, wrs);
    SendQueueRuns.PostSendExtends(s.sq, wrs);
    PostSendNoSuccess(s.sq, wrs);
    QuietSenderSafe(s, PostSend(s.sq, wrs).0);
  }

  lemma ModifySafe(s: System, target: QpState)
    requires Safe(s)
    ensures Safe(s.(sq := Modify(s.sq, target)))
  {
    hide SQI.Inv, ResponderOk, AllGenuine, AllTrue, Covered, SucceededUpTo, Modify;
    SQI.ModifyKeeps(s.sq, target);
    SendQueueRuns.ApplyExtends(s.sq, SendQueueRuns.DoModify(target));
    ModifyNoSuccess(s.sq, target);
    QuietSenderSafe(s, Modify(s.sq, target));
  }

  lemma StepSafe(s: System, a: Action)
    requires Safe(s) && Enabled(s, a)
    ensures Safe(Step(s, a))
  {
    hide Safe, PostSend, Modify, Transmitted, Received, Answered, ReceiveResponse, Fatal, InWindow;
    match a
    case Post(wrs) => PostSafe(s, wrs);
    case ModifySender(target) => ModifySafe(s, target);
    case RunSender(now, mem) => TransmittedSafe(s, now, mem);
    case DeliverRequest(index, mem, result) => ReceivedSafe(s, index, mem, result);
    case AddReceive => ResponderEventSafe(s, PostReceive(s.rq));
    case RunResponder(memOk) => AnsweredSafe(s, memOk);
    case DeliverCnp => ResponderEventSafe(s, ReceiveCnp(s.rq));
    case PeerSends => ResponderEventSafe(s, ReadyToSend(s.rq));
    case FailResponder => ResponderEventSafe(s, Fatal(s.rq));
    case DeliverResponse(number, now, rnrDelay, mem) => RespondedSafe(s, number, now, rnrDelay, mem);
  }

  lemma {:induction false} RunSafe(s: System, actions: seq<Action>)
    requires Safe(s) && Legal(s, actions)
    ensures Safe(Run(s, actions))
    decreases |actions|
  {
    hide Safe, Step, Enabled;
    if actions != [] {
      StepSafe(s, actions[0]);
      RunSafe(Step(s, actions[0]), actions[1..]);
    }
  }
}
