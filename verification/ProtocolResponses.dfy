/**
  Delivering a response packet: a request completes with success only if the responder has
  executed all of it.
 */
module ProtocolResponses {
  import opened Psn
  import opened WorkRequest
  import opened SendQueue
  import opened SendQueueInvariant
  import opened SendQueueRuns
  import opened ReceiveQueueInvariant
  import opened Protocol
  import opened AckTruth

  /** Every request retired with success has its whole PSN range before `psn`. */
  ghost predicate Covered(s: Sq, psn: int) {
    forall i :: 0 <= i < |s.retired| && s.retired[i].status == Success ==> i < |s.plan| && s.plan[i].End() <= psn
  }

  /** At most the first `k` requests retired between `s` and `t` succeeded. */
  ghost predicate SucceededUpTo(s: Sq, t: Sq, k: nat) {
    && s.retired <= t.retired
    && s.plan <= t.plan
    && forall i :: |s.retired| <= i < |t.retired| && t.retired[i].status == Success ==> i < |s.retired| + k
  }

  lemma CoveredStep(s: Sq, t: Sq, k: nat, psn: int)
    requires Inv(s) && Covered(s, psn) && SucceededUpTo(s, t, k)
    requires k <= |Flight(s)| && (k > 0 ==> s.state !in {ERR, SQE})
    requires forall i :: 0 <= i < k ==> Flight(s)[i].base + Flight(s)[i].all <= psn
    ensures Covered(t, psn)
  {
    hide Counted, Conserved, FlightOk, SubmittedOk, RdCounted, Fenced, PlanTiled;
    forall i | 0 <= i < |t.retired| && t.retired[i].status == Success
      ensures i < |t.plan| && t.plan[i].End() <= psn
    {
      if i >= |s.retired| {
        var x := i - |s.retired|;
        assert s.plan[|s.plan| - |Flight(s)| + x] == ItemOf(Flight(s)[x]);
      }
    }
  }

  // ---------------------------------------------------------------------------
  // Operations that complete nothing with success

  lemma FailHeadNoSuccess(s: Sq, status: WcStatus)
    requires Flight(s) != [] && status != Success
    ensures SucceededUpTo(s, FailHead(s, status), 0)
  {
  }

  lemma {:induction false} PostNoSuccess(s: Sq, wrs: seq<Wr>, carry: nat)
    ensures SucceededUpTo(s, PostChain(s, wrs, carry).0, 0)
    decreases |wrs|
  {
    if wrs != [] {
      var (s', carry', r) := PostOne(s, wrs[0], carry);
      assert SucceededUpTo(s, s', 0);
      PostNoSuccess(s', wrs[1..], carry');
      hide PostOne;
    }
  }

  lemma PostSendNoSuccess(s: Sq, wrs: seq<Wr>)
    ensures SucceededUpTo(s, PostSend(s, wrs).0, 0)
  {
    PostNoSuccess(s, wrs, 0);
    hide PostChain;
  }

  lemma ModifyNoSuccess(s: Sq, target: QpState)
    ensures SucceededUpTo(s, Modify(s, target), 0)
  {
  }

  lemma PrepareNoSuccess(s: Sq, now: int)
    ensures SucceededUpTo(s, Prepare(s, now), 0)
  {
  }

  lemma TransmitNoSuccess(s: Sq, now: int, mem: WcStatus)
    requires s.sending != []
    ensures SucceededUpTo(s, Transmit(s, now, mem).0, 0)
  {
    hide SendStatus, PacketOf, RestartsContig;
  }

  lemma ScheduleNoSuccess(s: Sq, now: int, mem: WcStatus)
    ensures SucceededUpTo(s, Schedule(s, now, mem).0, 0)
  {
    hide FailHead, Prepare, Transmit;
    var s1 := Prepare(s, now);
    PrepareNoSuccess(s, now);
    if s.state in {RTS, SQD} && HeadReady(s1, now) {
      var s2 := s1.(sending := s1.sending[0 := s1.sending[0].(scheduleTime := now)]);
      if s2.sending[0].status != Success {
        FailHeadNoSuccess(s2, s2.sending[0].status);
      } else {
        TransmitNoSuccess(s2, now, mem);
      }
    }
  }

  // ---------------------------------------------------------------------------
  // Responses

  /** An acknowledge completes only requests that end at or before the PSN after it. */
  lemma AckedIsCovered(s: Sq, psn: int, limit: int)
    requires Inv(s) && InWindow(s, psn) && psn < limit
    ensures forall i :: 0 <= i < AckRun(Flight(s), psn) ==> Flight(s)[i].base + Flight(s)[i].all <= limit
  {
    hide Inv;
    var q := Flight(s);
    AckRunJudged(q, psn);
    forall i | 0 <= i < AckRun(q, psn) ensures q[i].base + q[i].all <= limit {
      assert JudgeAck(q[i], psn).0 == Completed;
      DiffExact(psn, q[i].base);
    }
  }

  lemma CompleteRunSucceeds(s: Sq, k: nat)
    requires k <= |Flight(s)|
    ensures SucceededUpTo(s, CompleteRun(s, k), k)
    ensures Flight(CompleteRun(s, k)) == Flight(s)[k..]
  {
    DropFlightTail(s, k);
    CompleteRunFlight(s, k);
  }

  lemma SucceededThen(s: Sq, t: Sq, u: Sq, k: nat)
    requires SucceededUpTo(s, t, k) && SucceededUpTo(t, u, 0)
    ensures SucceededUpTo(s, u, k)
  {
  }

  lemma ReceiveAckSucceeds(s: Sq, psn: int, now: int)
    ensures SucceededUpTo(s, ReceiveAck(s, psn, now), AckRun(Flight(s), psn))
  {
    hide FailHead, CompleteRun, AckRun;
    var q := Flight(s);
    var k := AckRun(q, psn);
    var s1 := CompleteRun(s, k);
    CompleteRunSucceeds(s, k);
    if k < |q| {
      var (verdict, e) := JudgeAck(q[k], psn);
      var s2 := SetFlight(s1, 0, e);
      assert Flight(s2) != [] by { assert |Flight(s2)| == |Flight(s1)|; }
      if verdict == Failed {
        FailHeadNoSuccess(s2, e.status);
        SucceededThen(s, s1, FailHead(s2, e.status), k);
      }
    }
  }

  lemma ReceiveAckCovered(s: Sq, psn: int, now: int, limit: int)
    requires Inv(s) && RecvOk(s.state) && Covered(s, limit) && InWindow(s, psn) && psn < limit
    ensures Covered(ReceiveAck(s, psn, now), limit)
  {
    hide ReceiveAck, SucceededUpTo, Covered, InWindow, AckRun;
    ReceiveAckSucceeds(s, psn, now);
    AckedIsCovered(s, psn, limit);
    SqeEmpty(s);
    hide Inv;
    CoveredStep(s, ReceiveAck(s, psn, now), AckRun(Flight(s), psn), limit);
  }

  lemma SqeEmpty(s: Sq)
    requires Inv(s)
    ensures s.state in {ERR, SQE} ==> Flight(s) == []
  {
    hide Conserved, FlightOk, SubmittedOk, RdCounted, Fenced, Planned, PlanTiled;
  }

  lemma HeadSize(s: Sq)
    requires Inv(s) && Flight(s) != []
    ensures EntryOk(s.attr, Flight(s)[0])
  {
    hide Counted, Conserved, SubmittedOk, RdCounted, Fenced, Planned, PlanTiled;
    assert if s.waiting != [] then Flight(s)[0] == s.waiting[0] else Flight(s)[0] == s.sending[0];
  }

  lemma CompleteHeadSucceeds(s: Sq, now: int)
    requires Flight(s) != []
    ensures SucceededUpTo(s, CompleteHead(s, now), 1)
  {
    CompleteRunSucceeds(s, 1);
  }

  /** The range [base, expected] of an entry in the window holds no PSN that could be mistaken for `psn`. */
  lemma InsideExact(s: Sq, psn: int, x: int)
    requires InWindow(s, psn) && Flight(s) != []
    requires Flight(s)[0].base <= x <= Flight(s)[0].expected
    ensures PsnDiff(x, psn) == 0 ==> x == psn
  {
    DiffExact(x, psn);
    hide PsnDiff;
  }

  /** An RDMA READ completes only with its last response. */
  lemma ReceiveReadCovered(s: Sq, psn: int, now: int, mem: WcStatus, limit: int)
    requires Inv(s) && RecvOk(s.state) && Covered(s, limit) && InWindow(s, psn) && psn < limit
    ensures Covered(ReceiveRead(s, psn, now, mem), limit)
  {
    hide Covered, Match, Owns, PsnDiff, CompleteHead, InWindow, Inv, CountRead;
    var q := Flight(s);
    var i := Match(q, psn);
    SqeEmpty(s);
    if i < |q| && q[i].wr.opcode == WrRead && i == 0 {
      HeadSize(s);
      var e := q[0];
      var e' := e.(localAckTime := now + s.attr.ackTimeout, sent := e.sent + 1, ack := e.ack + 1);
      InsideExact(s, psn, e.base + e.ack);
      HeadCompletion(s, e', now);
      CompleteHeadSucceeds(s, now);
      CountReadFields(SetFlight(s, 0, e'));
      CountReadFields(CompleteHead(s, now));
      if e.base + e.ack == psn && e'.sent >= e.all {
        CoveredStep(s, CompleteHead(s, now), 1, limit);
        NoSuccessSame(CompleteHead(s, now), CountRead(CompleteHead(s, now)), limit);
      }
      NoSuccessSame(s, ReceiveRead(s, psn, now, mem), limit);
    } else {
      NoSuccessSame(s, ReceiveRead(s, psn, now, mem), limit);
    }
  }

  lemma CountReadFields(s: Sq)
    ensures CountRead(s) == s.(nrContigReads := CountRead(s).nrContigReads, cnps := CountRead(s).cnps)
  {
  }

  lemma NoSuccessSame(s: Sq, t: Sq, limit: int)
    requires Covered(s, limit)
    ensures t.retired == s.retired && t.plan == s.plan ==> Covered(t, limit)
  {
  }

  lemma ReceiveAtomicCovered(s: Sq, psn: int, size: int, now: int, mem: WcStatus, limit: int)
    requires Inv(s) && RecvOk(s.state) && Covered(s, limit) && InWindow(s, psn) && psn < limit
    ensures Covered(ReceiveAtomic(s, psn, size, now, mem), limit)
  {
    hide Covered, Match, Owns, PsnDiff, CompleteHead, InWindow, Inv;
    var q := Flight(s);
    var i := Match(q, psn);
    SqeEmpty(s);
    if i < |q| && IsAtomic(q[i].wr.opcode) && i == 0 {
      HeadSize(s);
      InsideExact(s, psn, q[0].base);
      CompleteHeadSucceeds(s, now);
      if q[0].base == psn {
        CoveredStep(s, CompleteHead(s, now), 1, limit);
      }
      NoSuccessSame(s, ReceiveAtomic(s, psn, size, now, mem), limit);
    } else {
      NoSuccessSame(s, ReceiveAtomic(s, psn, size, now, mem), limit);
    }
  }

  lemma RetrySame(s: Sq, rnr: nat)
    ensures Retry(s, rnr).retired == s.retired && Retry(s, rnr).plan == s.plan
  {
  }

  lemma AtomicDonePast(p: Past, psn: int, result: int)
    requires AtomicDone(p, psn, result)
    ensures psn < p.psn
  {
  }

  lemma TrueDispatch(p: Past, r: Response)
    requires ResponseTrue(p, r)
    ensures r.kind == ReadMiddleKind || SyndromeClass(r.syndrome) == SYND_ACK ==> r.psn < p.psn
    ensures SyndromeClass(r.syndrome) == SYND_NAK ==> r.syndrome == SYND_PSN_SEQ_ERR
  {
    AckCodes();
    if r.kind == AtomicKind {
      AtomicDonePast(p, r.psn, r.result);
    }
    hide AtomicDone, SyndromeClass;
  }

  lemma DispatchCovered(s: Sq, r: Response, now: int, mem: WcStatus, limit: int)
    requires Inv(s) && RecvOk(s.state) && Covered(s, limit) && InWindow(s, r.psn) && r.psn < limit
    ensures Covered(Dispatch(s, r, now, mem), limit)
  {
    hide Inv, Covered, InWindow, ReceiveAck, ReceiveRead, ReceiveAtomic;
    ReceiveAckCovered(s, r.psn, now, limit);
    ReceiveReadCovered(s, r.psn, now, mem, limit);
    ReceiveAtomicCovered(s, r.psn, r.size - AETH_SIZE, now, mem, limit);
  }

  lemma ReceiveResponseCovered(s: Sq, p: Past, r: Response, now: int, rnrDelay: nat, mem: WcStatus)
    requires Inv(s) && Covered(s, p.psn) && InWindow(s, r.psn) && ResponseTrue(p, r)
    ensures Covered(ReceiveResponse(s, r, now, rnrDelay, mem), p.psn)
  {
    hide Inv, Dispatch, Retry, ResponseTrue, SyndromeClass, Covered;
    var s0 := s.(nrContig := 0);
    SideFieldsKeep(s, s.psn, 0);
    assert s.(psn := s.psn, nrContig := 0) == s0;
    assert InWindow(s0, r.psn) by {
      assert Flight(s0) == Flight(s);
    }
    hide InWindow;
    TrueDispatch(p, r);
    NoSuccessSame(s, s0, p.psn);
    RetrySame(s0, rnrDelay);
    NoSuccessSame(s0, Retry(s0, rnrDelay), p.psn);
    RetrySame(s0, 0);
    NoSuccessSame(s0, Retry(s0, 0), p.psn);
    if RecvOk(s.state) && r.psn < p.psn {
      DispatchCovered(s0, r, now, mem, p.psn);
    }
  }

  // ---------------------------------------------------------------------------
  // Which request a PSN belongs to

  lemma {:induction false} FlightOrdered(s: Sq, i: nat, j: nat)
    requires FlightTiles(s) && i < j < |Flight(s)|
    requires forall k :: 0 <= k < |Flight(s)| ==> Flight(s)[k].all >= 1
    ensures Flight(s)[i].expected <= Flight(s)[j].base
    decreases j
  {
    assert Flight(s)[j].base == Flight(s)[j - 1].expected;
    if i < j - 1 {
      FlightOrdered(s, i, j - 1);
    }
  }

  lemma OwnsExact(e: Swqe, psn: int)
    requires Close(psn, e.base) && Close(psn, e.expected)
    ensures Owns(e, psn) <==> e.base <= psn < e.expected
  {
    DiffExact(psn, e.base);
    DiffExact(psn, e.expected);
    hide PsnDiff;
  }

  lemma {:induction false} MatchFirst(q: seq<Swqe>, psn: int)
    ensures var i := Match(q, psn);
      (i < |q| ==> Owns(q[i], psn)) && forall j :: 0 <= j < i ==> !Owns(q[j], psn)
  {
    hide Owns;
    if q != [] && !Owns(q[0], psn) {
      MatchFirst(q[1..], psn);
      var i := Match(q, psn);
      forall j | 0 <= j < i ensures !Owns(q[j], psn) {
        if j > 0 {
          assert q[j] == q[1..][j - 1];
        }
      }
    }
  }

  lemma FlightShape(s: Sq)
    requires Inv(s)
    ensures FlightTiles(s) && forall k :: 0 <= k < |Flight(s)| ==> Flight(s)[k].all >= 1
  {
    hide Counted, Conserved, SubmittedOk, RdCounted, Fenced;
    PlanGivesTiling(s);
    forall k | 0 <= k < |Flight(s)| ensures Flight(s)[k].all >= 1 {
      assert if k < |s.waiting| then Flight(s)[k] == s.waiting[k] else Flight(s)[k] == s.sending[k - |s.waiting|];
    }
  }

  /**
    With every PSN in flight within 2^23 of `psn`, the driver's search finds entry `i` exactly
    when `psn` lies in the range of entry `i`, across any wrap-around of the 24-bit number.
   */
  lemma MatchFindsOwner(s: Sq, psn: int, i: nat)
    requires Inv(s) && InWindow(s, psn) && i < |Flight(s)|
    ensures Match(Flight(s), psn) == i <==> Flight(s)[i].base <= psn < Flight(s)[i].expected
  {
    hide Inv, Match, Owns;
    var q := Flight(s);
    FlightShape(s);
    MatchFirst(q, psn);
    OwnsExact(q[i], psn);
    var m := Match(q, psn);
    if m < |q| && q[i].base <= psn < q[i].expected {
      OwnsExact(q[m], psn);
      if m < i {
        FlightOrdered(s, m, i);
      }
    }
  }
}
