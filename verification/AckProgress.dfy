/**
  The packets a requester counts as acknowledged have been executed, and while it works nothing
  it gave back has failed.
 */
module AckProgress {
  import opened Psn
  import Jiffies
  import opened WorkRequest
  import opened SendQueue
  import SQI = SendQueueInvariant
  import opened ReceiveQueue
  import opened ReceiveQueueInvariant
  import opened Protocol
  import opened ResponderExecution
  import opened ProtocolRequests
  import opened AckTruth
  import opened ProtocolResponses
  import opened ProtocolSafety
  import SendQueueRuns

  /** The acknowledged packets of a request lie before `psn`. */
  predicate Behind(e: Swqe, psn: int) {
    e.ack <= 0 || e.base + e.ack <= psn
  }

  ghost predicate AllBehind(q: seq<Swqe>, psn: int) {
    forall i :: 0 <= i < |q| ==> Behind(q[i], psn)
  }

  /** A queue pair out of error has retired nothing but successes. */
  ghost predicate Clean(s: Sq) {
    s.state !in {ERR, SQE} ==> forall i :: 0 <= i < |s.retired| ==> s.retired[i].status == Success
  }

  ghost predicate Truth(s: Sq, psn: int) {
    AllBehind(Flight(s), psn) && Clean(s) && s.nrContigReads >= 0
  }

  lemma TruthLater(s: Sq, psn: int, later: int)
    requires Truth(s, psn) && psn <= later
    ensures Truth(s, later)
  {
  }

  /** The two lists carry the same requests with the same packets acknowledged. */
  ghost predicate SameAcks(a: seq<Swqe>, b: seq<Swqe>) {
    |b| == |a| && forall i :: 0 <= i < |a| ==> b[i].wr == a[i].wr && b[i].base == a[i].base && b[i].ack == a[i].ack
  }

  lemma SameAcksTruth(s: Sq, t: Sq, psn: int)
    requires Truth(s, psn) && SameAcks(Flight(s), Flight(t)) && t.retired == s.retired && t.state == s.state
    requires t.nrContigReads == s.nrContigReads
    ensures Truth(t, psn)
  {
  }

  lemma FailedTruth(s: Sq, status: WcStatus, psn: int)
    requires Flight(s) != []
    ensures Truth(FailHead(s, status), psn)
  {
    hide Records, Reports, DropFlight;
  }

  // ---------------------------------------------------------------------------
  // Operations of the requester

  lemma {:induction false} PostChainTruth(s: Sq, wrs: seq<Wr>, carry: nat, psn: int)
    requires Truth(s, psn)
    ensures Truth(PostChain(s, wrs, carry).0, psn)
    decreases |wrs|
  {
    hide InlineFault, RecordedLength, Reports;
    if wrs != [] {
      var (s', carry', r) := PostOne(s, wrs[0], carry);
      assert Flight(s') == Flight(s) && s'.state == s.state;
      PostChainTruth(s', wrs[1..], carry', psn);
    }
  }

  lemma PostSendTruth(s: Sq, wrs: seq<Wr>, psn: int)
    requires Truth(s, psn)
    ensures Truth(PostSend(s, wrs).0, psn)
  {
    hide PostChain;
    PostChainTruth(s, wrs, 0, psn);
  }

  lemma ModifyTruth(s: Sq, target: QpState, psn: int)
    requires Truth(s, psn)
    ensures Truth(Modify(s, target), psn)
  {
    hide Records, Reports;
  }

  lemma RewindAcks(s: Sq)
    ensures SameAcks(Flight(s), Flight(Rewind(s)))
  {
  }

  lemma PrepareTruth(s: Sq, now: int, psn: int)
    requires Truth(s, psn)
    ensures Truth(Prepare(s, now), psn)
  {
    hide NumPackets;
    var s1 := if TimedOut(s, now) then TimeoutRewind(s, now) else s;
    if TimedOut(s, now) {
      var e := s.waiting[0];
      var e' := e.(retryCnt := e.retryCnt - 1, timeouts := e.timeouts + 1, localAckTime := now + Jiffies.SCHED_TIMEOUT);
      RewindAcks(s.(waiting := s.waiting[0 := e']));
      SameAcksTruth(s, s1, psn);
    }
    if s1.sending == [] && CanEnqueue(s1) {
      var t := Enqueue(s1, now);
      assert Flight(t) == Flight(s1) + t.sending && t.sending[0].ack == 0;
    }
  }

  lemma TransmitTruth(s: Sq, now: int, mem: WcStatus, psn: int)
    requires Truth(s, psn) && s.sending != []
    ensures Truth(Transmit(s, now, mem).0, psn)
  {
    hide SendStatus, RestartsContig, PacketOf;
    assert SameAcks(Flight(s), Flight(Transmit(s, now, mem).0));
  }

  lemma ScheduleTruth(s: Sq, now: int, mem: WcStatus, psn: int)
    requires Truth(s, psn)
    ensures Truth(Schedule(s, now, mem).0, psn)
  {
    hide Prepare, Transmit, FailHead;
    PrepareTruth(s, now, psn);
    var s1 := Prepare(s, now);
    if HeadReady(s1, now) {
      var s2 := s1.(sending := s1.sending[0 := s1.sending[0].(scheduleTime := now)]);
      SameAcksTruth(s1, s2, psn);
      FailedTruth(s2, s2.sending[0].status, psn);
      TransmitTruth(s2, now, mem, psn);
    }
  }

  lemma SetStatusTruth(s: Sq, i: nat, e: Swqe, psn: int)
    requires Truth(s, psn) && i < |Flight(s)| && Behind(e, psn)
    ensures Truth(SetFlight(s, i, e), psn)
  {
    assert Flight(SetFlight(s, i, e)) == Flight(s)[i := e];
  }

  lemma CompleteRunTruth(s: Sq, k: nat, psn: int)
    requires Truth(s, psn) && k <= |Flight(s)|
    ensures Truth(CompleteRun(s, k), psn) && Flight(CompleteRun(s, k)) == Flight(s)[k..]
  {
    hide Reports;
    SendQueueRuns.CompleteRunFlight(s, k);
    SQI.DropFlightTail(s, k);
  }

  lemma PostponeTruth(s: Sq, now: int, psn: int)
    requires Truth(s, psn)
    ensures Truth(Postpone(s, now), psn)
  {
    assert SameAcks(Flight(s), Flight(Postpone(s, now)));
  }

  /** An acknowledge for an executed packet marks executed packets only. */
  lemma JudgedBehind(s: Sq, i: nat, psn: int, limit: int)
    requires i < |Flight(s)| && Behind(Flight(s)[i], limit) && InWindow(s, psn) && psn < limit
    ensures Behind(JudgeAck(Flight(s)[i], psn).1, limit)
  {
    DiffExact(psn, Flight(s)[i].base);
    hide PsnDiff;
  }

  lemma ReceiveAckTruth(s: Sq, psn: int, now: int, limit: int)
    requires Truth(s, limit) && InWindow(s, psn) && psn < limit
    ensures Truth(ReceiveAck(s, psn, now), limit)
  {
    hide Truth, InWindow, AckRun, JudgeAck, CompleteRun, FailHead, Postpone, SetFlight, Behind, Flight;
    var q := Flight(s);
    var k := AckRun(q, psn);
    CompleteRunTruth(s, k, limit);
    var s1 := CompleteRun(s, k);
    PostponeTruth(s1, now, limit);
    if k < |q| {
      BehindAt(s, k, limit);
      JudgedBehind(s, k, psn, limit);
      var e := JudgeAck(q[k], psn).1;
      SetStatusTruth(s1, 0, e, limit);
      PostponeTruth(SetFlight(s1, 0, e), now, limit);
      SetNonEmpty(s1, e);
      FailedTruth(SetFlight(s1, 0, e), e.status, limit);
    }
  }

  lemma BehindAt(s: Sq, i: nat, psn: int)
    requires Truth(s, psn) && i < |Flight(s)|
    ensures Behind(Flight(s)[i], psn)
  {
  }

  lemma SetNonEmpty(s: Sq, e: Swqe)
    requires Flight(s) != []
    ensures Flight(SetFlight(s, 0, e)) != []
  {
  }

  lemma CompleteHeadTruth(s: Sq, now: int, psn: int)
    requires Truth(s, psn) && Flight(s) != []
    ensures Truth(CompleteHead(s, now), psn)
  {
    hide CompleteRun, Postpone;
    CompleteRunTruth(s, 1, psn);
    PostponeTruth(CompleteRun(s, 1).(nrRdAtomic := s.nrRdAtomic - 1), now, psn);
  }

  lemma ReceiveReadTruth(s: Sq, psn: int, now: int, mem: WcStatus, limit: int)
    requires SQI.Inv(s) && Truth(s, limit) && InWindow(s, psn) && psn < limit
    ensures Truth(ReceiveRead(s, psn, now, mem), limit)
  {
    hide Match, PsnDiff, CompleteHead, SetFlight, SQI.Inv, InWindow;
    var q := Flight(s);
    var i := Match(q, psn);
    if i < |q| {
      var e := q[i];
      SetStatusTruth(s, i, e.(status := BadRespErr), limit);
      if e.wr.opcode == WrRead && i == 0 && PsnDiff(e.base + e.ack, psn) == 0 {
        HeadExact(s, psn);
        SetStatusTruth(s, 0, e.(status := mem), limit);
        var e' := e.(localAckTime := now + s.attr.ackTimeout, sent := e.sent + 1, ack := e.ack + 1);
        SetStatusTruth(s, 0, e', limit);
        SetNonEmpty(s, e');
        CompleteHeadTruth(SetFlight(s, 0, e'), now, limit);
      }
    }
  }

  lemma HeadExact(s: Sq, psn: int)
    requires SQI.Inv(s) && InWindow(s, psn) && Flight(s) != []
    ensures var e := Flight(s)[0]; PsnDiff(e.base + e.ack, psn) == 0 ==> e.base + e.ack == psn
  {
    hide SQI.Conserved, SQI.RdCounted, SQI.Fenced, SQI.Planned, SQI.PlanTiled, SQI.SubmittedOk, SQI.Counted, ItemOk;
    var e := Flight(s)[0];
    assert if s.waiting != [] then e == s.waiting[0] else e == s.sending[0];
    InsideExact(s, psn, e.base + e.ack);
  }

  lemma ReceiveAtomicTruth(s: Sq, psn: int, size: int, now: int, mem: WcStatus, limit: int)
    requires Truth(s, limit)
    ensures Truth(ReceiveAtomic(s, psn, size, now, mem), limit)
  {
    hide Match, PsnDiff, CompleteHead, SetFlight;
    var q := Flight(s);
    var i := Match(q, psn);
    if i < |q| {
      SetStatusTruth(s, i, q[i].(status := BadRespErr), limit);
      SetStatusTruth(s, 0, q[0].(status := mem), limit);
      CompleteHeadTruth(s, now, limit);
    }
  }

  lemma RetryTruth(s: Sq, rnr: nat, psn: int)
    requires Truth(s, psn)
    ensures Truth(Retry(s, rnr), psn)
  {
    hide Rewind;
    RewindAcks(s);
    RewindSame(s);
    SameAcksTruth(s, Rewind(s), psn);
    assert SameAcks(Flight(Rewind(s)), Flight(Retry(s, rnr)));
  }

  lemma RewindSame(s: Sq)
    ensures Rewind(s).retired == s.retired && Rewind(s).state == s.state && Rewind(s).nrContigReads == s.nrContigReads
  {
  }

  lemma ReceiveResponseTruth(s: Sq, p: Past, r: Response, now: int, rnrDelay: nat, mem: WcStatus)
    requires SQI.Inv(s) && Truth(s, p.psn) && InWindow(s, r.psn) && ResponseTrue(p, r)
    ensures Truth(ReceiveResponse(s, r, now, rnrDelay, mem), p.psn)
  {
    hide Retry, ResponseTrue, SyndromeClass, ReceiveAck, ReceiveRead, ReceiveAtomic, SQI.Inv;
    var s0 := s.(nrContig := 0);
    assert Flight(s0) == Flight(s);
    SQI.SideFieldsKeep(s, s.psn, 0);
    assert s.(psn := s.psn, nrContig := 0) == s0;
    TrueDispatch(p, r);
    RetryTruth(s0, rnrDelay, p.psn);
    RetryTruth(s0, 0, p.psn);
    ReceiveAtomicTruth(s0, r.psn, r.size - AETH_SIZE, now, mem, p.psn);
    if r.psn < p.psn {
      ReceiveAckTruth(s0, r.psn, now, p.psn);
      ReceiveReadTruth(s0, r.psn, now, mem, p.psn);
    }
  }

  // ---------------------------------------------------------------------------
  // Runs

  ghost predicate Truthful(s: System) {
    Safe(s) && Truth(s.sq, s.rq.psn)
  }

  /** The responder's PSN never goes back. */
  lemma PsnGrows(s: System, index: nat, mem: WcStatus, result: int)
    requires Safe(s) && index < |s.requests| && Close(s.requests[index].packet.psn, s.rq.psn) && SlotsOk(s.rq)
    ensures s.rq.psn <= ReceiveRequest(s.rq, s.requests[index].packet, mem, result).psn
  {
    hide SQI.Inv, AllTrue, Covered, Genuine, Executed, AcksTrue, ReadsAscend, LocalInv, PlanOk, ReceiveRequest;
    RequestReceived(s.rq, s.sq.plan, s.sq.expectedPsn, s.done, s.part, s.requests[index], mem, result);
    hide AllGenuine;
  }

  lemma TrueAt(s: System, number: nat)
    requires Safe(s) && number < |s.responses|
    ensures s.done <= |s.sq.plan| && ResponseTrue(PastOf(s.rq, s.sq.plan, s.done), s.responses[number])
    ensures PastOf(s.rq, s.sq.plan, s.done).psn == s.rq.psn
  {
    hide SQI.Inv, AllGenuine, Covered, Executed, AcksTrue, ReadsAscend, LocalInv, PlanOk;
  }

  lemma InvOf(s: System)
    requires Safe(s)
    ensures SQI.Inv(s.sq)
  {
    hide SQI.Inv, AllGenuine, AllTrue, Covered, ResponderOk;
  }

  lemma GenerateSamePsn(r: Rq, memOk: bool)
    ensures Generate(r, memOk).0.psn == r.psn
  {
  }

  lemma StepTruthful(s: System, a: Action)
    requires Truthful(s) && Enabled(s, a)
    ensures Truthful(Step(s, a))
  {
    hide Safe, Truth, PostSend, Modify, Schedule, ReceiveRequest, Generate, ReceiveResponse, InWindow, Prepare, RdItems;
    StepSafe(s, a);
    var psn := s.rq.psn;
    match a
    case Post(wrs) => PostSendTruth(s.sq, wrs, psn);
    case ModifySender(target) => ModifyTruth(s.sq, target, psn);
    case RunSender(now, mem) => ScheduleTruth(s.sq, now, mem, psn);
    case DeliverRequest(index, mem, result) =>
      PsnGrows(s, index, mem, result);
      TruthLater(s.sq, psn, ReceiveRequest(s.rq, s.requests[index].packet, mem, result).psn);
    case RunResponder(memOk) => GenerateSamePsn(s.rq, memOk);
    case DeliverResponse(number, now, rnrDelay, mem) =>
      TrueAt(s, number);
      InvOf(s);
      ReceiveResponseTruth(s.sq, PastOf(s.rq, s.sq.plan, s.done), s.responses[number], now, rnrDelay, mem);
    case _ =>
  }

  lemma {:induction false} RunTruthful(s: System, actions: seq<Action>)
    requires Truthful(s) && Legal(s, actions)
    ensures Truthful(Run(s, actions))
    decreases |actions|
  {
    hide Truthful, Step, Enabled;
    if actions != [] {
      StepTruthful(s, actions[0]);
      RunTruthful(Step(s, actions[0]), actions[1..]);
    }
  }

  lemma StartTruthful(s: System)
    requires Start(s)
    ensures Truthful(s)
  {
    hide Safe;
    StartSafe(s);
  }

  /**
    In every run the packets of a request counted as acknowledged, or as answered if it is an RDMA READ,
    are packets the responder has executed, and a queue pair that is not in error has retired every request so far
    with success.
   */
  lemma AcknowledgedMeansExecuted(s: System, actions: seq<Action>)
    requires Start(s) && Legal(s, actions)
    ensures var t := Run(s, actions);
      && (forall i :: 0 <= i < |Flight(t.sq)| && Flight(t.sq)[i].ack > 0 ==>
            Flight(t.sq)[i].base + Flight(t.sq)[i].ack <= t.rq.psn)
      && (t.sq.state !in {ERR, SQE} ==> forall i :: 0 <= i < |t.sq.retired| ==> t.sq.retired[i].status == Success)
  {
    hide Safe, Run, Legal;
    StartTruthful(s);
    RunTruthful(s, actions);
    var q := Flight(Run(s, actions).sq);
    assert forall i :: 0 <= i < |q| ==> Behind(q[i], Run(s, actions).rq.psn);
  }
}
