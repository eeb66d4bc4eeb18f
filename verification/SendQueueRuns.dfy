/**
  Whole runs of the requester: any sequence of posts, scheduler turns, responses and state
  changes, with any timing, memory outcome and response contents.
 */
module SendQueueRuns {
  import opened Psn
  import opened WorkRequest
  import opened SendQueue
  import opened SendQueueInvariant

  datatype Action =
    | DoPost(wrs: seq<Wr>)
    | DoSchedule(now: int, mem: WcStatus)
    | DoReceive(response: Response, at: int, rnrDelay: nat, outcome: WcStatus)
    | DoModify(target: QpState)

  function Apply(s: Sq, a: Action): Sq {
    match a
    case DoPost(wrs) => PostSend(s, wrs).0
    case DoSchedule(now, mem) => Schedule(s, now, mem).0
    case DoReceive(r, now, rnrDelay, mem) => ReceiveResponse(s, r, now, rnrDelay, mem)
    case DoModify(target) => Modify(s, target)
  }

  function Run(s: Sq, actions: seq<Action>): Sq {
    if actions == [] then s
    else Apply(Run(s, actions[..|actions| - 1]), actions[|actions| - 1])
  }

  /** A queue pair just configured. */
  function Fresh(attr: Attr): Sq {
    Sq(attr, INIT, [], [], [], 0, 0, 0, 0, attr.capacity, attr.origin, Mask24(attr.origin), 0, 0, 0, [], [], [], [])
  }

  lemma FreshInv(attr: Attr)
    ensures Inv(Fresh(attr))
  {
  }

  lemma ApplyKeeps(s: Sq, a: Action)
    requires Inv(s)
    ensures Inv(Apply(s, a))
  {
    hide Inv, PostSend, Schedule, ReceiveResponse, Modify;
    match a
    case DoPost(wrs) => PostSendKeeps(s, wrs);
    case DoSchedule(now, mem) => ScheduleKeeps(s, now, mem);
    case DoReceive(r, now, rnrDelay, mem) => ReceiveResponseKeeps(s, r, now, rnrDelay, mem);
    case DoModify(target) => ModifyKeeps(s, target);
  }

  lemma {:induction false} RunKeeps(attr: Attr, actions: seq<Action>)
    ensures Inv(Run(Fresh(attr), actions))
  {
    hide Inv, Apply;
    FreshInv(attr);
    if actions != [] {
      RunKeeps(attr, actions[..|actions| - 1]);
      ApplyKeeps(Run(Fresh(attr), actions[..|actions| - 1]), actions[|actions| - 1]);
    }
  }

  // ---------------------------------------------------------------------------
  // History only grows

  ghost predicate Extends(s: Sq, t: Sq) {
    && t.attr == s.attr
    && s.accepted <= t.accepted
    && s.retired <= t.retired
    && s.plan <= t.plan
  }

  lemma CompletionExtends(s: Sq, k: nat, now: int)
    requires k <= |Flight(s)|
    ensures Extends(s, CompleteRun(s, k)) && Extends(s, Flush(s))
  {
  }

  lemma FailHeadExtends(s: Sq, status: WcStatus)
    requires Flight(s) != []
    ensures Extends(s, FailHead(s, status))
  {
    var s1 := Complete(DropFlight(s, 1), Flight(s)[..1], status).(state := ERR);
    CompletionExtends(s1, 0, 0);
  }

  lemma {:induction false} PostChainExtends(s: Sq, wrs: seq<Wr>, carry: nat)
    ensures Extends(s, PostChain(s, wrs, carry).0)
    decreases |wrs|
  {
    if wrs != [] {
      var (s', carry', r) := PostOne(s, wrs[0], carry);
      assert Extends(s, s');
      PostChainExtends(s', wrs[1..], carry');
    }
  }

  lemma PostSendExtends(s: Sq, wrs: seq<Wr>)
    ensures Extends(s, PostSend(s, wrs).0)
  {
    PostChainExtends(s, wrs, 0);
    hide PostChain;
  }

  lemma PrepareExtends(s: Sq, now: int)
    ensures Extends(s, Prepare(s, now))
  {
  }

  lemma TransmitExtends(s: Sq, now: int, mem: WcStatus)
    requires s.sending != []
    ensures Extends(s, Transmit(s, now, mem).0)
  {
    hide SendStatus, PacketOf, RestartsContig;
  }

  lemma ScheduleExtends(s: Sq, now: int, mem: WcStatus)
    ensures Extends(s, Schedule(s, now, mem).0)
  {
    hide FailHead, Prepare, Transmit;
    var s1 := Prepare(s, now);
    PrepareExtends(s, now);
    if s.state in {RTS, SQD} && HeadReady(s1, now) {
      var s2 := s1.(sending := s1.sending[0 := s1.sending[0].(scheduleTime := now)]);
      if s2.sending[0].status != Success {
        FailHeadExtends(s2, s2.sending[0].status);
      } else {
        TransmitExtends(s2, now, mem);
      }
    }
  }

  lemma ReceiveAckExtends(s: Sq, psn: int, now: int)
    ensures Extends(s, ReceiveAck(s, psn, now))
  {
    hide FailHead, AckRun, JudgeAck, CompleteRun;
    var q := Flight(s);
    var k := AckRun(q, psn);
    CompletionExtends(s, k, now);
    var s1 := CompleteRun(s, k);
    if k < |q| {
      assert Flight(s1) == q[k..] by { DropFlightTail(s, k); CompleteRunFlight(s, k); }
      var (verdict, e) := JudgeAck(q[k], psn);
      FailHeadExtends(SetFlight(s1, 0, e), e.status);
    }
  }

  lemma CompleteRunFlight(s: Sq, k: nat)
    requires k <= |Flight(s)|
    ensures Flight(CompleteRun(s, k)) == Flight(DropFlight(s, k))
  {
  }

  lemma SetExtends(s: Sq, i: nat, e: Swqe)
    requires i < |Flight(s)|
    ensures Extends(s, SetFlight(s, i, e)) && Flight(SetFlight(s, i, e)) != []
  {
  }

  lemma CompleteHeadExtends(s: Sq, now: int)
    requires Flight(s) != []
    ensures Extends(s, CompleteHead(s, now))
  {
    hide CompleteRun;
    CompletionExtends(s, 1, now);
  }

  lemma ReceiveReadExtends(s: Sq, psn: int, now: int, mem: WcStatus)
    ensures Extends(s, ReceiveRead(s, psn, now, mem))
  {
    hide Match, PsnDiff, CompleteHead, SetFlight, Flight;
    var q := Flight(s);
    var i := Match(q, psn);
    if i < |q| {
      var e := q[i];
      SetExtends(s, i, e.(status := BadRespErr));
      SetExtends(s, 0, e.(status := mem));
      var e' := e.(localAckTime := now + s.attr.ackTimeout, sent := e.sent + 1, ack := e.ack + 1);
      SetExtends(s, 0, e');
      CompleteHeadExtends(SetFlight(s, 0, e'), now);
    }
  }

  lemma ReceiveAtomicExtends(s: Sq, psn: int, size: int, now: int, mem: WcStatus)
    ensures Extends(s, ReceiveAtomic(s, psn, size, now, mem))
  {
    hide Match, PsnDiff, CompleteHead, SetFlight, Flight;
    var q := Flight(s);
    var i := Match(q, psn);
    if i < |q| {
      SetExtends(s, i, q[i].(status := BadRespErr));
      SetExtends(s, 0, q[0].(status := mem));
      CompleteHeadExtends(s, now);
    }
  }

  lemma DispatchExtends(s: Sq, r: Response, now: int, mem: WcStatus)
    ensures Extends(s, Dispatch(s, r, now, mem))
  {
    hide ReceiveAck, ReceiveRead, ReceiveAtomic;
    ReceiveAckExtends(s, r.psn, now);
    ReceiveReadExtends(s, r.psn, now, mem);
    ReceiveAtomicExtends(s, r.psn, r.size - AETH_SIZE, now, mem);
  }

  lemma ReceiveResponseExtends(s: Sq, r: Response, now: int, rnrDelay: nat, mem: WcStatus)
    ensures Extends(s, ReceiveResponse(s, r, now, rnrDelay, mem))
  {
    hide Dispatch, Match, Owns;
    var s0 := s.(nrContig := 0);
    DispatchExtends(s0, r, now, mem);
    match NakStatus(r.syndrome)
    case Some(status) => DispatchExtends(MarkError(s0, r.psn, status), r, now, mem);
    case None =>
  }

  lemma ApplyExtends(s: Sq, a: Action)
    ensures Extends(s, Apply(s, a))
  {
    hide PostSend, Schedule, ReceiveResponse;
    match a
    case DoPost(wrs) => PostSendExtends(s, wrs);
    case DoSchedule(now, mem) => ScheduleExtends(s, now, mem);
    case DoReceive(r, now, rnrDelay, mem) => ReceiveResponseExtends(s, r, now, rnrDelay, mem);
    case DoModify(target) => CompletionExtends(s.(state := ERR), 0, 0);
  }

  /** What was accepted, retired or given PSNs at any moment of a run stays so until its end. */
  lemma {:induction false} HistoryGrows(s: Sq, actions: seq<Action>, k: nat)
    requires k <= |actions|
    ensures Extends(Run(s, actions[..k]), Run(s, actions))
  {
    hide Apply;
    if k == |actions| {
      assert actions[..k] == actions;
    } else {
      var front := actions[..|actions| - 1];
      assert front[..k] == actions[..k];
      HistoryGrows(s, front, k);
      ApplyExtends(Run(s, front), actions[|actions| - 1]);
    }
  }

  lemma RunAttr(attr: Attr, actions: seq<Action>)
    ensures Run(Fresh(attr), actions).attr == attr
  {
    HistoryGrows(Fresh(attr), actions, 0);
    hide Apply;
    assert Run(Fresh(attr), actions[..0]) == Fresh(attr);
  }

  // ---------------------------------------------------------------------------
  // Main results

  /**
    In every run the accepted requests are the retired ones followed by waiting, sending and
    submitted, in the order of posting; counters equal list lengths; entries in use plus free
    ones stay constant; ERR and SQE have nothing queued; and the completion queue got exactly
    the reportable retirements in that order.
   */
  lemma RequestsConserved(attr: Attr, actions: seq<Action>)
    ensures var s := Run(Fresh(attr), actions);
      && s.accepted == RetiredWrs(s.retired) + EntryWrs(s.waiting + s.sending + s.submitted)
      && s.cq == Reports(attr, s.retired)
      && (s.nrWaiting, s.nrSending, s.nrSubmitted) == (|s.waiting|, |s.sending|, |s.submitted|)
      && s.nrWaiting + s.nrSending + s.nrSubmitted + s.free == attr.capacity
      && (s.state in {ERR, SQE} ==> s.waiting + s.sending + s.submitted == [])
  {
    RunKeeps(attr, actions);
    RunAttr(attr, actions);
    hide FlightOk, SubmittedOk, RdCounted, Fenced, Planned, PlanTiled, Run;
  }

  /** The range of each entry in flight starts where the one before it ends, up to the next PSN to give out. */
  ghost predicate FlightTiles(s: Sq) {
    var q := s.waiting + s.sending;
    && (forall i :: 0 <= i < |q| ==> q[i].expected == q[i].base + q[i].all)
    && (forall i, j :: 0 <= i < j < |q| && j == i + 1 ==> q[j].base == q[i].expected)
    && (q != [] ==> q[|q| - 1].expected == s.expectedPsn)
  }

  lemma PlanGivesTiling(s: Sq)
    requires FlightOk(s) && Planned(s) && PlanTiled(s)
    ensures FlightTiles(s)
  {
    var q := Flight(s);
    var d := |s.plan| - |q|;
    forall i | 0 <= i < |q| ensures q[i].expected == q[i].base + q[i].all && s.plan[d + i] == ItemOf(q[i]) {
      assert if i < |s.waiting| then q[i] == s.waiting[i] else q[i] == s.sending[i - |s.waiting|];
    }
    forall i, j | 0 <= i < j < |q| && j == i + 1 ensures q[j].base == q[i].expected {
      assert s.plan[d + j].base == s.plan[d + i].End();
    }
  }

  /** In every run the PSN ranges in flight tile, and acknowledged and sent counts stay within them. */
  lemma PsnsTile(attr: Attr, actions: seq<Action>)
    ensures var s := Run(Fresh(attr), actions);
      && FlightTiles(s)
      && (forall e :: e in s.waiting + s.sending ==> 0 <= e.ack < e.all && (e.wr.opcode == WrRead ==> e.sent == e.ack))
      && (forall e :: e in s.sending ==> 0 <= e.sent < e.all)
  {
    RunKeeps(attr, actions);
    hide Run, Conserved, SubmittedOk, RdCounted, Fenced, Counted;
    PlanGivesTiling(Run(Fresh(attr), actions));
  }

  /** In every run nr_rd_atomic is the number of RDMA READs and atomics in flight, and fences hold. */
  lemma ReadsAndFences(attr: Attr, actions: seq<Action>)
    ensures var s := Run(Fresh(attr), actions);
      && 0 <= s.nrRdAtomic == CountRd(s.waiting + s.sending) <= attr.maxRdAtomic
      && Fenced(s.waiting + s.sending)
  {
    RunKeeps(attr, actions);
    RunAttr(attr, actions);
    hide Run, Conserved, SubmittedOk, Counted, FlightOk, Planned, PlanTiled;
  }

  lemma FlightTimeouts(s: Sq)
    requires FlightOk(s)
    ensures forall e :: e in s.waiting + s.sending ==> e.timeouts <= s.attr.retryCnt + 1
    ensures forall e :: e in s.waiting ==> e.timeouts <= s.attr.retryCnt && e.retryCnt >= 0
    ensures s.attr.rnrRetry < 7 ==> forall e :: e in s.waiting ==> e.rnrs <= s.attr.rnrRetry
    ensures s.attr.rnrRetry < 7 ==> forall e :: e in s.waiting + s.sending ==> e.rnrRetry == s.attr.rnrRetry - e.rnrs
    ensures s.attr.rnrRetry >= 7 ==> forall e :: e in s.waiting + s.sending ==> e.rnrRetry == s.attr.rnrRetry
  {
    forall e | e in s.waiting ensures EntryOk(s.attr, e) && WaitingOk(e) {
      var i :| 0 <= i < |s.waiting| && e == s.waiting[i];
    }
    forall e | e in s.sending ensures EntryOk(s.attr, e) {
      var i :| 0 <= i < |s.sending| && e == s.sending[i];
    }
  }

  /**
    In every run an entry has been rewound by its own timeout at most retry_cnt + 1 times since
    its retry count was last set, and one that waits for an acknowledge at most retry_cnt times.
   */
  lemma TimeoutsBounded(attr: Attr, actions: seq<Action>)
    ensures var s := Run(Fresh(attr), actions);
      && (forall e :: e in s.waiting + s.sending ==> e.timeouts <= attr.retryCnt + 1)
      && (forall e :: e in s.waiting ==> e.timeouts <= attr.retryCnt && e.retryCnt >= 0)
  {
    hide Run, Conserved, SubmittedOk, RdCounted, Fenced, Counted, Planned, PlanTiled, FlightOk;
    RunKeeps(attr, actions);
    RunAttr(attr, actions);
    FlightTimeouts(Run(Fresh(attr), actions));
  }

  /**
    In every run an entry that waits for an acknowledge was refused for lack of a receive entry at
    most rnr_retry times, unless that is 7, which never counts; the count it has left says how often.
   */
  lemma RnrRetriesBounded(attr: Attr, actions: seq<Action>)
    ensures var s := Run(Fresh(attr), actions);
      if attr.rnrRetry < 7
      then (forall e :: e in s.waiting ==> e.rnrs <= attr.rnrRetry)
           && forall e :: e in s.waiting + s.sending ==> e.rnrRetry == attr.rnrRetry - e.rnrs
      else forall e :: e in s.waiting + s.sending ==> e.rnrRetry == attr.rnrRetry
  {
    hide Run, Conserved, SubmittedOk, RdCounted, Fenced, Counted, Planned, PlanTiled, FlightOk;
    RunKeeps(attr, actions);
    RunAttr(attr, actions);
    FlightTimeouts(Run(Fresh(attr), actions));
  }
}
