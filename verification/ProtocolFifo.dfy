/**
  Runs over a channel that may lose requests but neither repeats nor reorders them.  There,
  if the requester keeps no more RDMA READs and atomics in flight than the responder has
  agreed to remember, every retransmitted one still finds its record.
 */
module ProtocolFifo {
  import opened Psn
  import opened OpCode
  import opened WorkRequest
  import opened SendQueue
  import SQI = SendQueueInvariant
  import SendQueueRuns
  import opened ReceiveQueue
  import opened ReceiveQueueInvariant
  import opened Protocol
  import opened ResponderExecution
  import opened SlotSearch
  import opened AckTruth
  import opened ProtocolRequests
  import opened ProtocolResponses
  import opened ProtocolSafety

  /** Requests are delivered in the order of sending, each at most once. */
  predicate InFifoOrder(s: System, a: Action) {
    match a
    case DeliverRequest(index, _, _) => s.next <= index
    case _ => true
  }

  ghost predicate FifoLegal(s: System, actions: seq<Action>)
    decreases |actions|
  {
    actions == [] || (Enabled(s, actions[0]) && InFifoOrder(s, actions[0]) && FifoLegal(Step(s, actions[0]), actions[1..]))
  }

  lemma {:induction false} FifoIsLegal(s: System, actions: seq<Action>)
    requires FifoLegal(s, actions)
    ensures Legal(s, actions)
    decreases |actions|
  {
    hide Enabled, Step;
    if actions != [] {
      FifoIsLegal(Step(s, actions[0]), actions[1..]);
    }
  }

  /** `stamp`, the RDMA READs and atomics planned when a packet was sent, bounds how far it lies back. */
  ghost predicate StampOk(plan: seq<Item>, limit: nat, q: Sent) {
    && q.stamp <= |RdItems(plan)|
    && 0 <= q.item < |plan|
    && (IsRdAtomic(plan[q.item].wr.opcode) ==> RdIndex(plan, q.item) < q.stamp <= RdIndex(plan, q.item) + limit)
  }

  ghost predicate StampsOk(plan: seq<Item>, limit: nat, requests: seq<Sent>) {
    && (forall i :: 0 <= i < |requests| ==> StampOk(plan, limit, requests[i]))
    && (forall i, j :: 0 <= i <= j < |requests| ==> requests[i].stamp <= requests[j].stamp)
  }

  /** Nothing was executed that was planned after the last delivered packet was sent. */
  ghost predicate CaughtUp(s: System) {
    && s.next <= |s.requests|
    && |s.rq.records| <= if s.next == 0 then 0 else s.requests[s.next - 1].stamp
  }

  ghost predicate FifoInv(s: System) {
    Safe(s) && StampsOk(s.sq.plan, s.sq.attr.maxRdAtomic, s.requests) && CaughtUp(s)
  }

  // ---------------------------------------------------------------------------

  lemma RdItemsGrow(plan: seq<Item>, plan': seq<Item>)
    requires plan <= plan'
    ensures |RdItems(plan)| <= |RdItems(plan')|
  {
    RdPrefix(plan', |plan|, |plan'|);
    assert plan'[..|plan|] == plan && plan'[..|plan'|] == plan';
  }

  lemma StampGrows(plan: seq<Item>, plan': seq<Item>, limit: nat, q: Sent)
    requires StampOk(plan, limit, q) && plan <= plan'
    ensures StampOk(plan', limit, q)
  {
    RdItemsGrow(plan, plan');
    assert plan'[q.item] == plan[q.item];
    assert plan'[..q.item] == plan[..q.item];
  }

  lemma StampsGrow(plan: seq<Item>, plan': seq<Item>, limit: nat, requests: seq<Sent>)
    requires StampsOk(plan, limit, requests) && plan <= plan'
    ensures StampsOk(plan', limit, requests)
  {
    hide StampOk;
    forall i | 0 <= i < |requests| ensures StampOk(plan', limit, requests[i]) {
      StampGrows(plan, plan', limit, requests[i]);
    }
  }

  lemma {:induction false} SuffixCount(plan: seq<Item>, q: seq<Swqe>)
    requires SQI.EndsPlan(plan, q)
    ensures |RdItems(plan)| == RdIndex(plan, |plan| - |q|) + SQI.CountRd(q)
    decreases |q|
  {
    if q == [] {
      assert plan[..|plan|] == plan;
    } else {
      var n, m := |plan| - 1, |q| - 1;
      assert SQI.EndsPlan(plan[..n], q[..m]) by {
        forall i | 0 <= i < m ensures plan[..n][|plan[..n]| - m + i] == ItemOf(q[..m][i]) {
          assert plan[|plan| - |q| + i] == ItemOf(q[i]);
        }
      }
      SuffixCount(plan[..n], q[..m]);
      assert plan[..n][..|plan| - |q|] == plan[..|plan| - |q|];
      RdIndexStep(plan, n);
      assert plan[..n + 1] == plan;
      assert plan[|plan| - |q| + m] == ItemOf(q[m]);
    }
  }

  /** At most max_rd_atomic RDMA READs and atomics follow the one being sent, itself included. */
  lemma SentStamp(s: Sq, packet: Request)
    requires SQI.Inv(s) && s.sending != []
    ensures StampOk(s.plan, s.attr.maxRdAtomic, Sent(packet, |s.plan| - |s.sending|, s.sending[0].sent, |RdItems(s.plan)|))
  {
    hide SQI.Counted, SQI.Conserved, SQI.FlightOk, SQI.SubmittedOk, SQI.Fenced, SQI.PlanTiled;
    var q := Flight(s);
    var i := |s.plan| - |s.sending|;
    SuffixCount(s.plan, q);
    RdPrefix(s.plan, |s.plan| - |q|, i);
    assert s.plan[..|s.plan|] == s.plan;
    if IsRdAtomic(s.plan[i].wr.opcode) {
      RdHere(s.plan, i, |s.plan|);
    }
  }

  lemma StampsAppend(plan: seq<Item>, limit: nat, requests: seq<Sent>, q: Sent)
    requires StampsOk(plan, limit, requests) && StampOk(plan, limit, q) && q.stamp == |RdItems(plan)|
    ensures StampsOk(plan, limit, requests + [q])
  {
    hide RdItems, RdIndex;
  }

  lemma TransmittedFifo(s: System, now: int, mem: WcStatus)
    requires FifoInv(s)
    ensures FifoInv(Transmitted(s, now, mem))
  {
    hide Schedule, ResponderOk, AllTrue, Covered, AllGenuine, Genuine, Prepare, StampsOk, RdItems, SQI.Inv;
    TransmittedSafe(s, now, mem);
    var (sq, out) := Schedule(s.sq, now, mem);
    SendQueueRuns.ScheduleExtends(s.sq, now, mem);
    StampsGrow(s.sq.plan, sq.plan, s.sq.attr.maxRdAtomic, s.requests);
    if out.Some? {
      SentIsGenuine(s.sq, now, mem, |RdItems(sq.plan)|);
      var ready := Prepare(s.sq, now);
      SQI.PrepareKeeps(s.sq, now);
      SendQueueRuns.PrepareExtends(s.sq, now);
      SentStamp(ready, out.value);
      StampsAppend(sq.plan, s.sq.attr.maxRdAtomic, s.requests,
                   Sent(out.value, |ready.plan| - |ready.sending|, ready.sending[0].sent, |RdItems(sq.plan)|));
    }
  }

  /** A packet that makes the responder record something was sent after everything recorded was planned. */
  lemma RecordsBelowStamp(s: System, index: nat, mem: WcStatus, result: int)
    requires FifoInv(s) && index < |s.requests| && s.next <= index
    requires SlotsOk(s.rq) && Close(s.requests[index].packet.psn, s.rq.psn)
    ensures |Received(s, index, mem, result).rq.records| <= s.requests[index].stamp
  {
    hide SQI.Inv, AllGenuine, AllTrue, Covered, LocalInv, AcksTrue, ReadsAscend, PlanOk, ReceiveRequest, RdItems;
    hide IdealEffects, EffectsOf, IdealMessages, MidMessage, RecordOf;
    var q := s.requests[index];
    var plan := s.sq.plan;
    var t := Received(s, index, mem, result);
    assert Genuine(s.rq.attr.mtu, plan, q) by { GenuineAt(s, index); }
    hide Genuine;
    RequestReceived(s.rq, plan, s.sq.expectedPsn, s.done, s.part, q, mem, result);
    assert |t.rq.records| == RdIndex(plan, t.done);
    assert |s.rq.records| <= q.stamp;
    if t.rq.psn != s.rq.psn && t.done == s.done + 1 {
      MovesOnExpected(s.rq, q.packet, mem, result);
      DiffExact(q.packet.psn, s.rq.psn);
      ExpectedIsNext(s.rq, plan, s.sq.expectedPsn, s.done, s.part, q);
      RdIndexStep(plan, s.done);
    }
  }

  lemma GenuineAt(s: System, index: nat)
    requires Safe(s) && index < |s.requests|
    ensures Genuine(s.rq.attr.mtu, s.sq.plan, s.requests[index])
  {
    hide SQI.Inv, ResponderOk, AllTrue, Covered, Genuine;
  }

  lemma StepFifo(s: System, a: Action)
    requires FifoInv(s) && Enabled(s, a) && InFifoOrder(s, a)
    ensures FifoInv(Step(s, a))
  {
    hide Safe, PostSend, Modify, Transmitted, ReceiveResponse, ReceiveRequest, Fatal, InWindow, StampsOk, Generate;
    StepSafe(s, a);
    match a
    case Post(wrs) =>
      SendQueueRuns.PostSendExtends(s.sq, wrs);
      StampsGrow(s.sq.plan, Step(s, a).sq.plan, s.sq.attr.maxRdAtomic, s.requests);
    case ModifySender(target) =>
      SendQueueRuns.ApplyExtends(s.sq, SendQueueRuns.DoModify(target));
      StampsGrow(s.sq.plan, Step(s, a).sq.plan, s.sq.attr.maxRdAtomic, s.requests);
    case RunSender(now, mem) => TransmittedFifo(s, now, mem);
    case DeliverRequest(index, mem, result) => RecordsBelowStamp(s, index, mem, result);
    case AddReceive =>
    case RunResponder(memOk) => GenerateFields(s.rq, memOk);
    case DeliverCnp =>
    case PeerSends =>
    case FailResponder => FatalRecords(s.rq);
    case DeliverResponse(number, now, rnrDelay, mem) =>
      SendQueueRuns.ReceiveResponseExtends(s.sq, s.responses[number], now, rnrDelay, mem);
      StampsGrow(s.sq.plan, Step(s, a).sq.plan, s.sq.attr.maxRdAtomic, s.requests);
  }

  lemma FatalRecords(r: Rq)
    ensures Fatal(r).records == r.records
  {
  }

  lemma {:induction false} RunFifo(s: System, actions: seq<Action>)
    requires FifoInv(s) && FifoLegal(s, actions)
    ensures Legal(s, actions) && FifoInv(Run(s, actions))
    decreases |actions|
  {
    hide FifoInv, Step, Enabled, InFifoOrder;
    FifoIsLegal(s, actions);
    if actions != [] {
      StepFifo(s, actions[0]);
      RunFifo(Step(s, actions[0]), actions[1..]);
    }
  }

  /**
    On a lossy channel in FIFO order with max_rd_atomic at most the peer's max_dest_rd_atomic,
    a retransmitted RDMA READ or atomic that was executed always finds its own record.
   */
  lemma RetransmissionsFindTheirSlot(s: System, actions: seq<Action>, index: nat)
    requires Start(s) && FifoLegal(s, actions) && s.sq.attr.maxRdAtomic <= s.rq.attr.maxDest
    requires Legal(s, actions)
    requires var t := Run(s, actions);
      && t.next <= index < |t.requests|
      && Close(t.requests[index].packet.psn, t.rq.psn)
      && t.requests[index].packet.psn < t.rq.psn
      && t.requests[index].packet.op in {ReadRequest, CompareSwap, FetchAdd}
    ensures var t := Run(s, actions);
      && SlotsOk(t.rq)
      && 0 <= t.requests[index].item < |t.sq.plan|
      && var found := FindSlot(t.rq, t.requests[index].packet.op, t.requests[index].packet.psn, 1);
         found.Some? && RecordOf(t.sq.plan[t.requests[index].item], found.value)
  {
    hide Run, Legal, FifoLegal, FindSlot, RecordOf, Safe, StampsOk, CaughtUp, Start;
    StartFifo(s);
    RunFifo(s, actions);
    RunAttrs(s, actions);
    SlotFound(Run(s, actions), index);
  }

  lemma SlotFound(t: System, index: nat)
    requires FifoInv(t) && t.sq.attr.maxRdAtomic <= t.rq.attr.maxDest
    requires t.next <= index < |t.requests|
    requires Close(t.requests[index].packet.psn, t.rq.psn) && t.requests[index].packet.psn < t.rq.psn
    requires t.requests[index].packet.op in {ReadRequest, CompareSwap, FetchAdd}
    ensures SlotsOk(t.rq) && 0 <= t.requests[index].item < |t.sq.plan|
    ensures var found := FindSlot(t.rq, t.requests[index].packet.op, t.requests[index].packet.psn, 1);
      found.Some? && RecordOf(t.sq.plan[t.requests[index].item], found.value)
  {
    hide FindSlot, RecordOf, SQI.Inv, AllGenuine, AllTrue, Covered, AcksTrue, ReadsAscend, PlanOk, Genuine, RequestOpcode, RdItems;
    hide IdealEffects, EffectsOf, IdealMessages, MidMessage;
    var q := t.requests[index];
    GenuineAt(t, index);
    GenuineFacts(t.rq.attr.mtu, t.sq.plan, q);
    assert StampOk(t.sq.plan, t.sq.attr.maxRdAtomic, q);
    BehindFromOk(t.rq, t.sq.plan, t.sq.expectedPsn, t.done, t.part);
    assert 0 <= q.k < t.sq.plan[q.item].all by { GenuinePlace(t.rq.attr.mtu, t.sq.plan, q); }
    OldIsExecuted(t.rq, t.sq.plan, t.sq.expectedPsn, t.done, t.part, q.item, q.k);
    SearchExact(t.rq, t.sq.plan, t.sq.expectedPsn, t.done, q.item, q.k);
  }

  lemma GenuinePlace(mtu: Mtu, plan: seq<Item>, q: Sent)
    requires Genuine(mtu, plan, q)
    ensures 0 <= q.item < |plan| && 0 <= q.k < plan[q.item].all
  {
  }

  lemma StartFifo(s: System)
    requires Start(s)
    ensures FifoInv(s)
  {
    hide Safe, ResponderOk, SQI.Inv;
    StartSafe(s);
  }

  lemma StepAttrs(s: System, a: Action)
    requires Safe(s) && Enabled(s, a)
    ensures Step(s, a).sq.attr == s.sq.attr && Step(s, a).rq.attr == s.rq.attr
  {
    hide Safe, PostSend, Modify, Schedule, ReceiveResponse, InWindow, Generate, ReceiveRequest, RdItems;
    match a
    case Post(wrs) => SendQueueRuns.PostSendExtends(s.sq, wrs);
    case ModifySender(target) => SendQueueRuns.ApplyExtends(s.sq, SendQueueRuns.DoModify(target));
    case RunSender(now, mem) => SendQueueRuns.ScheduleExtends(s.sq, now, mem);
    case DeliverRequest(index, mem, result) => ReceivedAttr(s, index, mem, result);
    case RunResponder(memOk) => GenerateFields(s.rq, memOk);
    case DeliverResponse(number, now, rnrDelay, mem) =>
      SendQueueRuns.ReceiveResponseExtends(s.sq, s.responses[number], now, rnrDelay, mem);
    case _ =>
  }

  lemma ReceivedAttr(s: System, index: nat, mem: WcStatus, result: int)
    requires Safe(s) && index < |s.requests| && SlotsOk(s.rq) && Close(s.requests[index].packet.psn, s.rq.psn)
    ensures Received(s, index, mem, result).rq.attr == s.rq.attr
  {
    GenuineAt(s, index);
    hide SQI.Inv, AllGenuine, AllTrue, Covered, ResponderOk, Genuine, ReceiveRequest;
    RequestReceived(s.rq, s.sq.plan, s.sq.expectedPsn, s.done, s.part, s.requests[index], mem, result);
  }

  lemma {:induction false} RunAttrs(s: System, actions: seq<Action>)
    requires Safe(s) && Legal(s, actions)
    ensures Run(s, actions).sq.attr == s.sq.attr && Run(s, actions).rq.attr == s.rq.attr
    decreases |actions|
  {
    hide Safe, Step, Enabled;
    if actions != [] {
      StepSafe(s, actions[0]);
      StepAttrs(s, actions[0]);
      RunAttrs(Step(s, actions[0]), actions[1..]);
    }
  }
}
