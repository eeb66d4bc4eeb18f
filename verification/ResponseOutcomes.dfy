/**
  What one response does to the send queue, case by case, in terms of the PSNs the requests in flight
  hold: whom it retires, whom it marks, what is sent again, and which timers start anew.
 */
module ResponseOutcomes {
  import opened Psn
  import opened WorkRequest
  import opened SendQueue
  import opened SendQueueInvariant
  import opened Protocol
  import opened ProtocolResponses
  import opened ProtocolProgress
  import opened TurnOutcomes

  // ---------------------------------------------------------------------------
  // Everything again

  /** The requests of `f`, with exactly the acknowledged packets of each counted as sent, but for the head's RNR fields. */
  ghost predicate AllAgain(f: seq<Swqe>, t: Sq) {
    && t.waiting == [] && |t.sending| == |f|
    && (forall i :: 0 < i < |f| ==> t.sending[i] == f[i].(sent := f[i].ack))
    && (f != [] ==> t.sending[0] == f[0].(sent := f[0].ack, scheduleTime := t.sending[0].scheduleTime,
                                          rnrRetry := t.sending[0].rnrRetry, rnrs := t.sending[0].rnrs))
  }

  /** Nothing but the requests in flight and the flow control differs. */
  predicate SameBeside(s: Sq, t: Sq) {
    && t.retired == s.retired && t.submitted == s.submitted && t.plan == s.plan && t.expectedPsn == s.expectedPsn
    && t.state == s.state && t.attr == s.attr
    && t.nrContig == 0
  }

  /** An RNR NAK counts against the head if it waits for a receive entry and the delay is not nothing. */
  predicate RnrCounts(e: Swqe, delay: nat) {
    delay > 0 && e.wr.opcode in {WrSend, WrSendImm, WrWriteImm}
  }

  /**
    An RNR NAK puts everything in flight back to be sent from the first packet not acknowledged.  The
    head loses one RNR retry if and only if it needs a receive entry, the delay is not zero and
    rnr_retry is not 7; the delay becomes its time under the first two of these.
   */
  lemma RnrNakRewinds(s: Sq, r: Response, now: int, delay: nat, mem: WcStatus)
    requires RecvOk(s.state) && r.size >= 4 && r.kind != ReadMiddleKind && 0x20 <= r.syndrome < 0x40
    ensures var t := ReceiveResponse(s, r, now, delay, mem);
      && AllAgain(Flight(s), t) && SameBeside(s, t)
      && (Flight(s) != [] ==>
            var e, e' := Flight(s)[0], t.sending[0];
            && e'.scheduleTime == (if RnrCounts(e, delay) then delay else e.scheduleTime)
            && e'.rnrRetry == (if RnrCounts(e, delay) && s.attr.rnrRetry < 7 then e.rnrRetry - 1 else e.rnrRetry))
  {
    assert SyndromeClass(r.syndrome) == SYND_RNR_NAK;
    hide Dispatch, MarkError, NakStatus;
  }

  /** A sequence NAK does the same and counts against nobody. */
  lemma SequenceNakRewinds(s: Sq, r: Response, now: int, delay: nat, mem: WcStatus)
    requires RecvOk(s.state) && r.size >= 4 && r.kind != ReadMiddleKind && r.syndrome == 0x60
    ensures var t := ReceiveResponse(s, r, now, delay, mem);
      && AllAgain(Flight(s), t) && SameBeside(s, t)
      && (Flight(s) != [] ==> t.sending[0].scheduleTime == Flight(s)[0].scheduleTime && t.sending[0].rnrRetry == Flight(s)[0].rnrRetry)
  {
    assert SyndromeClass(r.syndrome) == SYND_NAK;
    hide Dispatch, MarkError, NakStatus;
  }

  // ---------------------------------------------------------------------------
  // Acknowledges

  /** An ACK for `psn` completes the first `k` requests in flight and no more. */
  ghost predicate CompletesFirst(s: Sq, psn: int, k: nat) {
    && k <= |Flight(s)| && (forall i :: 0 <= i < k ==> CompletedBy(Flight(s)[i], psn))
    && (k < |Flight(s)| ==> !CompletedBy(Flight(s)[k], psn))
  }

  lemma RunIs(s: Sq, psn: int, k: nat)
    requires Inv(s) && InWindow(s, psn) && CompletesFirst(s, psn, k)
    ensures AckRun(Flight(s), psn) == k
  {
    hide Inv, InWindow, AckRun, JudgeAck, CompletedBy;
    var f := Flight(s);
    forall i | 0 <= i < |f| ensures JudgeAck(f[i], psn).0 == Completed <==> CompletedBy(f[i], psn) {
      JudgedIff(s, psn, i);
    }
    if k > 0 {
      AckRunIff(f, psn, k - 1);
    }
    if k < |f| {
      AckRunIff(f, psn, k);
    }
  }

  /** The request after the completed ones ends the connection: it is in error, or an RDMA READ or atomic is acknowledged past what came back. */
  predicate Stops(e: Swqe, psn: int) {
    e.status != Success || (IsRdAtomic(e.wr.opcode) && e.base + e.ack <= psn)
  }

  function StopStatus(e: Swqe): WcStatus {
    if e.status != Success then e.status else BadRespErr
  }

  lemma Judged(s: Sq, psn: int, i: nat)
    requires Inv(s) && InWindow(s, psn) && i < |Flight(s)| && !CompletedBy(Flight(s)[i], psn)
    ensures var e := Flight(s)[i];
      var (verdict, e') := JudgeAck(e, psn);
      if Stops(e, psn) then verdict == Failed && e' == e.(status := StopStatus(e))
      else verdict in {Progressed, Ignored}
           && (verdict == Progressed ==> e' == e.(ack := psn + 1 - e.base) && e.ack < psn + 1 - e.base)
           && (verdict == Ignored ==> psn + 1 - e.base <= e.ack)
  {
    JudgedIff(s, psn, i);
    WindowOf(s, psn, i);
    DiffExact(psn, Flight(s)[i].base);
    hide Inv, InWindow, PsnDiff;
  }

  lemma WindowOf(s: Sq, psn: int, i: nat)
    requires Inv(s) && InWindow(s, psn) && i < |Flight(s)|
    ensures Close(psn, Flight(s)[i].base) && 0 <= Flight(s)[i].ack < Flight(s)[i].all
  {
    hide Conserved, RdCounted, Fenced, Planned, PlanTiled, SubmittedOk, Counted, ItemOk;
    assert if i < |s.waiting| then Flight(s)[i] == s.waiting[i] else Flight(s)[i] == s.sending[i - |s.waiting|];
  }

  /** `e'` is `e` with its timer and its retries set anew. */
  predicate Renewed(attr: Attr, now: int, e: Swqe, e': Swqe) {
    e' == e.(retryCnt := attr.retryCnt, timeouts := 0, localAckTime := now + attr.ackTimeout)
  }

  /** What is left in flight after the first `k` requests: the waiting ones renewed, the others as they were. */
  ghost predicate Left(attr: Attr, f: seq<Swqe>, now: int, t: Sq) {
    && |Flight(t)| == |f| && |t.waiting| <= |f|
    && forall i :: 0 <= i < |f| ==>
         if i < |t.waiting| then Renewed(attr, now, f[i], Flight(t)[i]) else Flight(t)[i] == f[i]
  }

  lemma PostponeLeft(s: Sq, now: int)
    ensures Left(s.attr, Flight(s), now, Postpone(s, now)) && |Postpone(s, now).waiting| == |s.waiting|
    ensures Postpone(s, now) == s.(waiting := Postpone(s, now).waiting)
  {
  }

  function Successes(q: seq<Swqe>): seq<Retired> {
    seq(|q|, i requires 0 <= i < |q| => Retired(q[i].wr, Success))
  }

  lemma RunLeaves(s: Sq, k: nat)
    requires k <= |Flight(s)|
    ensures var t := CompleteRun(s, k);
      && Flight(t) == Flight(s)[k..] && t.retired == s.retired + Successes(Flight(s)[..k])
      && t.submitted == s.submitted && t.state == s.state && t.attr == s.attr && t.nrContig == s.nrContig
      && |t.waiting| == (if k < |s.waiting| then |s.waiting| - k else 0)
      && t.psn == (if k == 0 then s.psn else Mask24(Flight(s)[k - 1].expected))
  {
    hide Reports, Mask24;
    DropFlightTail(s, k);
    assert Records(Flight(s)[..k], Success) == Successes(Flight(s)[..k]);
  }

  /**
    The requests an ACK completes are retired with success.  Then, if the next one is in error or
    is an RDMA READ or atomic whose answer it passes over, that one ends the connection; otherwise the
    acknowledged packets of the next one are counted, and all that wait have their timers and retries anew.
   */
  ghost predicate AfterAck(s: Sq, psn: int, now: int, k: nat, t: Sq)
    requires k <= |Flight(s)|
  {
    var f := Flight(s)[k..];
    if f != [] && Stops(f[0], psn) then Ended(s.retired + Successes(Flight(s)[..k]), f + s.submitted, StopStatus(f[0]), t)
    else
      && t.retired == s.retired + Successes(Flight(s)[..k]) && t.submitted == s.submitted && t.state == s.state
      && |t.waiting| == (if k < |s.waiting| then |s.waiting| - k else 0)
      && t.psn == (if k == 0 then s.psn else Mask24(Flight(s)[k - 1].expected))
      && if f != [] && f[0].ack < psn + 1 - f[0].base then Left(s.attr, f[0 := f[0].(ack := psn + 1 - f[0].base)], now, t)
         else Left(s.attr, f, now, t)
  }

  lemma AckTaken(s: Sq, psn: int, now: int, k: nat)
    requires Inv(s) && InWindow(s, psn) && CompletesFirst(s, psn, k)
    ensures AfterAck(s, psn, now, k, ReceiveAck(s, psn, now))
  {
    hide Inv, InWindow, CompletesFirst, AckRun, JudgeAck, CompleteRun, FailHead, Postpone, Ended, Left, Stops, Successes;
    RunIs(s, psn, k);
    KBound(s, psn, k);
    RunLeaves(s, k);
    var s1, q := CompleteRun(s, k), Flight(s);
    PostponeLeft(s1, now);
    if k < |q| {
      Judged(s, psn, k);
      var e' := JudgeAck(q[k], psn).1;
      assert Flight(s1)[0] == q[k];
      SetHead(s1, e');
      FailHeadEnds(SetFlight(s1, 0, e'), e'.status);
      PostponeLeft(SetFlight(s1, 0, e'), now);
      if Stops(q[k], psn) {
        EndedSame(s1.retired, q[k..][0 := e'] + s.submitted, q[k..] + s.submitted, e'.status, FailHead(SetFlight(s1, 0, e'), e'.status));
      }
    }
  }

  lemma KBound(s: Sq, psn: int, k: nat)
    requires CompletesFirst(s, psn, k)
    ensures k <= |Flight(s)| && (k < |Flight(s)| ==> !CompletedBy(Flight(s)[k], psn))
  {
  }

  lemma SetHead(s: Sq, e: Swqe)
    requires Flight(s) != []
    ensures var t := SetFlight(s, 0, e);
      && Flight(t) == Flight(s)[0 := e] && t.retired == s.retired && t.submitted == s.submitted && t.state == s.state && t.attr == s.attr
      && |t.waiting| == |s.waiting| && t.psn == s.psn
  {
  }

  /** Everything an ACK does, given the number of requests it completes. */
  lemma AckOutcome(s: Sq, r: Response, now: int, delay: nat, mem: WcStatus, k: nat)
    requires Inv(s) && InWindow(s, r.psn) && CompletesFirst(s, r.psn, k) && RecvOk(s.state)
    requires r.kind == AckKind && r.size >= 4 && 0 <= r.syndrome < 0x20
    ensures AfterAck(s, r.psn, now, k, ReceiveResponse(s, r, now, delay, mem))
  {
    hide Inv, InWindow, ReceiveAck, Successes, Stops, Ended, Left;
    assert SyndromeClass(r.syndrome) == SYND_ACK;
    FlowAside(s);
    AckTaken(s.(nrContig := 0), r.psn, now, k);
  }

  // ---------------------------------------------------------------------------
  // Fatal NAKs

  /** What each fatal NAK code means for the request it is about. */
  function FatalStatus(code: int): WcStatus
    requires code in {0x61, 0x62, 0x63, 0x64}
  {
    if code == 0x61 then RemInvReqErr else if code == 0x62 then RemAccessErr else if code == 0x63 then RemOpErr else RemInvRdReqErr
  }

  /**
    A fatal NAK about request `i` in flight, with all before it done: those are retired with success,
    request `i` with the status of the code, and everything behind it is flushed.
   */
  lemma FatalNakEnds(s: Sq, r: Response, now: int, delay: nat, mem: WcStatus, i: nat)
    requires Inv(s) && InWindow(s, r.psn) && RecvOk(s.state) && i < |Flight(s)|
    requires Flight(s)[i].base <= r.psn < Flight(s)[i].expected && forall j :: 0 <= j < i ==> CompletedBy(Flight(s)[j], r.psn)
    requires r.kind == AckKind && r.size >= 4 && r.syndrome in {0x61, 0x62, 0x63, 0x64}
    ensures Ended(s.retired + Successes(Flight(s)[..i]), Flight(s)[i..] + s.submitted, FatalStatus(r.syndrome),
                  ReceiveResponse(s, r, now, delay, mem))
  {
    hide Inv, InWindow, ReceiveAck, Successes, Ended, Left, Match, SetFlight, CompletedBy;
    var s0, status := s.(nrContig := 0), FatalStatus(r.syndrome);
    assert SyndromeClass(r.syndrome) == SYND_NAK && NakStatus(r.syndrome) == Some(status);
    FlowAside(s);
    MatchFindsOwner(s0, r.psn, i);
    var s1 := MarkError(s0, r.psn, status);
    MarkErrorKeeps(s0, r.psn, status);
    MarkedFlight(s0, r.psn, status, i);
    assert CompletesFirst(s1, r.psn, i) by { MarkedNotCompleted(s1, r.psn, i); }
    AckTaken(s1, r.psn, now, i);
    var t := ReceiveAck(s1, r.psn, now);
    assert Flight(s1)[..i] == Flight(s)[..i];
    EndedSame(s.retired + Successes(Flight(s)[..i]), Flight(s1)[i..] + s1.submitted, Flight(s)[i..] + s.submitted, status, t);
  }

  lemma MarkedNotCompleted(s: Sq, psn: int, i: nat)
    requires i < |Flight(s)| && Flight(s)[i].status != Success
    ensures !CompletedBy(Flight(s)[i], psn)
  {
  }

  lemma MarkedFlight(s: Sq, psn: int, status: WcStatus, i: nat)
    requires i < |Flight(s)| && Match(Flight(s), psn) == i && InWindow(s, psn)
    ensures var t := MarkError(s, psn, status);
      && Flight(t) == Flight(s)[i := Flight(s)[i].(status := status)] && InWindow(t, psn)
      && t.retired == s.retired && t.submitted == s.submitted
  {
    hide Match;
    var t, q := MarkError(s, psn, status), Flight(s);
    assert Flight(t) == q[i := q[i].(status := status)];
  }

  // ---------------------------------------------------------------------------
  // Responses of RDMA READs and atomics

  lemma OwnerOrNone(s: Sq, psn: int)
    requires Inv(s) && InWindow(s, psn)
    ensures (forall i :: 0 <= i < |Flight(s)| ==> !(Flight(s)[i].base <= psn < Flight(s)[i].expected)) ==> Match(Flight(s), psn) == |Flight(s)|
  {
    hide Inv, InWindow, Match;
    var m := Match(Flight(s), psn);
    if m < |Flight(s)| {
      MatchFindsOwner(s, psn, m);
    }
  }

  /** The response is handed to the handler of its kind, with nothing marked before. */
  predicate PlainlyHandled(s: Sq, r: Response) {
    RecvOk(s.state) && r.size >= 4 && (r.kind == ReadMiddleKind || 0 <= r.syndrome < 0x20)
  }

  /** Nothing happened but that sending may go on. */
  predicate Ignores(s: Sq, t: Sq) {
    t == s.(nrContig := 0)
  }

  /** Request `i` in flight became `e`, and nothing else happened. */
  ghost predicate Becomes(s: Sq, t: Sq, i: nat, e: Swqe)
    requires i < |Flight(s)|
  {
    SameBeside(s, t) && Flight(t) == Flight(s)[i := e] && |t.waiting| == |s.waiting|
  }

  lemma SetBecomes(s: Sq, i: nat, e: Swqe)
    requires i < |Flight(s)|
    ensures Becomes(s, SetFlight(s.(nrContig := 0), i, e), i, e)
    ensures forall n, c :: Becomes(s, SetFlight(s.(nrContig := 0), i, e).(nrContigReads := n, cnps := c), i, e)
  {
    var t := SetFlight(s.(nrContig := 0), i, e);
    assert Flight(t) == Flight(s)[i := e];
    assert forall n, c :: Flight(t.(nrContigReads := n, cnps := c)) == Flight(t);
  }

  /**
    An RDMA READ response for a PSN of request `i` in flight: a request that is no RDMA READ is marked; a
    response that is not the next one of the oldest request is ignored; bytes that cannot be placed mark
    the request; else one more response is in.  (The last one retires it, by ReadRetiredIff.)
   */
  lemma ReadResponseOutcome(s: Sq, r: Response, now: int, delay: nat, mem: WcStatus, i: nat)
    requires Inv(s) && InWindow(s, r.psn) && PlainlyHandled(s, r) && r.kind != AckKind && r.kind != AtomicKind
    requires i < |Flight(s)| && Flight(s)[i].base <= r.psn < Flight(s)[i].expected
    ensures var t, e := ReceiveResponse(s, r, now, delay, mem), Flight(s)[i];
      if e.wr.opcode != WrRead then Becomes(s, t, i, e.(status := BadRespErr))
      else if i != 0 || r.psn != e.base + e.ack then Ignores(s, t)
      else if mem != Success then Becomes(s, t, 0, e.(status := mem))
      else if e.ack + 1 < e.all
      then Becomes(s, t, 0, e.(ack := e.ack + 1, sent := e.ack + 1, localAckTime := now + s.attr.ackTimeout))
      else t.retired == s.retired + [Retired(e.wr, Success)]
  {
    hide Inv, InWindow, Match, PsnDiff, CompleteHead, SetFlight, Becomes, Flight;
    var s0 := s.(nrContig := 0);
    FlowAside(s);
    MatchFindsOwner(s0, r.psn, i);
    HeadOwns(s0, r.psn);
    HandedToRead(s, r, now, delay, mem);
    var e := Flight(s)[i];
    SetBecomes(s, i, e.(status := BadRespErr));
    SetBecomes(s, i, e.(status := mem));
    SetBecomes(s, i, e.(localAckTime := now + s.attr.ackTimeout, sent := e.sent + 1, ack := e.ack + 1));
    ReadTakes(s0, r.psn, now, mem);
  }

  lemma HandedToRead(s: Sq, r: Response, now: int, delay: nat, mem: WcStatus)
    requires PlainlyHandled(s, r) && r.kind != AckKind && r.kind != AtomicKind
    ensures ReceiveResponse(s, r, now, delay, mem) == ReceiveRead(s.(nrContig := 0), r.psn, now, mem)
  {
    hide ReceiveRead;
  }

  lemma HandedToAtomic(s: Sq, r: Response, now: int, delay: nat, mem: WcStatus)
    requires PlainlyHandled(s, r) && r.kind == AtomicKind
    ensures ReceiveResponse(s, r, now, delay, mem) == ReceiveAtomic(s.(nrContig := 0), r.psn, r.size - 4, now, mem)
  {
    hide ReceiveAtomic;
  }

  /** The same for an atomic acknowledge; one of the wrong size is ignored. */
  lemma AtomicResponseOutcome(s: Sq, r: Response, now: int, delay: nat, mem: WcStatus, i: nat)
    requires Inv(s) && InWindow(s, r.psn) && PlainlyHandled(s, r) && r.kind == AtomicKind
    requires i < |Flight(s)| && Flight(s)[i].base <= r.psn < Flight(s)[i].expected
    ensures var t, e := ReceiveResponse(s, r, now, delay, mem), Flight(s)[i];
      if r.size != 12 then Ignores(s, t)
      else if !IsAtomic(e.wr.opcode) then Becomes(s, t, i, e.(status := BadRespErr))
      else if i != 0 || r.psn != e.base then Ignores(s, t)
      else if mem != Success then Becomes(s, t, 0, e.(status := mem))
      else t.retired == s.retired + [Retired(e.wr, Success)]
  {
    hide Inv, InWindow, Match, PsnDiff, CompleteHead, SetFlight, Becomes, Flight, IsAtomic;
    var s0 := s.(nrContig := 0);
    FlowAside(s);
    MatchFindsOwner(s0, r.psn, i);
    HeadOwns(s0, r.psn);
    HandedToAtomic(s, r, now, delay, mem);
    var e := Flight(s)[i];
    SetBecomes(s, i, e.(status := BadRespErr));
    SetBecomes(s, i, e.(status := mem));
    AtomicTakes(s0, r.psn, r.size - 4, now, mem);
  }

  /** A response to nobody in flight is ignored. */
  lemma StrayIgnored(s: Sq, r: Response, now: int, delay: nat, mem: WcStatus)
    requires Inv(s) && InWindow(s, r.psn) && PlainlyHandled(s, r) && r.kind != AckKind
    requires forall i :: 0 <= i < |Flight(s)| ==> !(Flight(s)[i].base <= r.psn < Flight(s)[i].expected)
    ensures Ignores(s, ReceiveResponse(s, r, now, delay, mem))
  {
    hide Inv, InWindow, Match, CompleteHead, SetFlight, PsnDiff;
    FlowAside(s);
    OwnerOrNone(s.(nrContig := 0), r.psn);
    if r.kind == AtomicKind {
      HandedToAtomic(s, r, now, delay, mem);
    } else {
      HandedToRead(s, r, now, delay, mem);
    }
  }

  // ---------------------------------------------------------------------------
  // Responses dropped

  /** A response too short for its header, or to a queue pair that does not receive, changes nothing. */
  lemma ShortDropped(s: Sq, r: Response, now: int, delay: nat, mem: WcStatus)
    requires r.size < 4 || s.state in {RESET, INIT, ERR}
    ensures ReceiveResponse(s, r, now, delay, mem) == s
  {
    hide Dispatch, Retry, MarkError, SyndromeClass, NakStatus;
  }

  /** A code that is neither ACK nor NAK of either kind only lets sending go on. */
  lemma UnknownClassDropped(s: Sq, r: Response, now: int, delay: nat, mem: WcStatus)
    requires RecvOk(s.state) && r.size >= 4 && r.kind != ReadMiddleKind && (0x40 <= r.syndrome < 0x60 || 0x80 <= r.syndrome < 0x100)
    ensures Ignores(s, ReceiveResponse(s, r, now, delay, mem))
  {
    assert SyndromeClass(r.syndrome) !in {SYND_ACK, SYND_RNR_NAK, SYND_NAK};
    hide Dispatch, Retry, MarkError, SyndromeClass, NakStatus;
  }
}
