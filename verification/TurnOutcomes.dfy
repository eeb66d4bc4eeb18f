/**
  What one scheduler turn of the requester does, case by case, for every state of the send queue:
  when a new request is taken up, when a packet goes out, and how requests end in error.
 */
module TurnOutcomes {
  import opened Jiffies
  import opened WorkRequest
  import opened SendQueue
  import opened SendQueueInvariant
  import SendQueueRuns

  /** The timer of the oldest waiting request has run out. */
  predicate Expired(s: Sq, now: int) {
    s.waiting != [] && !TimeAfter(s.waiting[0].localAckTime, now)
  }

  // ---------------------------------------------------------------------------
  // A request in error ends

  /**
    Requests `all` are given back after `before`: the first with `status`, the others flushed.  The
    queue pair is in error and has nothing left.
   */
  ghost predicate Ended(before: seq<Retired>, all: seq<Swqe>, status: WcStatus, t: Sq) {
    && t.state == ERR && t.waiting == [] && t.sending == [] && t.submitted == []
    && |t.retired| == |before| + |all| && t.retired[..|before|] == before
    && forall i :: 0 <= i < |all| ==>
         t.retired[|before| + i] == Retired(all[i].wr, if i == 0 then status else WrFlushErr)
  }

  lemma FailHeadEnds(s: Sq, status: WcStatus)
    requires Flight(s) != []
    ensures Ended(s.retired, Flight(s) + s.submitted, status, FailHead(s, status))
  {
    hide FailHead, Records;
    FailHeadIs(s, status);
    FirstAndRest(s.retired, Flight(s), s.submitted, status);
  }

  lemma FailHeadIs(s: Sq, status: WcStatus)
    requires Flight(s) != []
    ensures var t := FailHead(s, status);
      && t.state == ERR && t.waiting == [] && t.sending == [] && t.submitted == []
      && t.retired == s.retired + Records(Flight(s)[..1], status) + Records(Flight(s)[1..] + s.submitted, WrFlushErr)
  {
    hide Reports, Records, DropFlight;
    var s1 := Complete(DropFlight(s, 1), Flight(s)[..1], status).(state := ERR);
    DropFlightTail(s, 1);
    DropRest(s, 1);
    assert Flight(s1) == Flight(s)[1..];
  }

  lemma DropRest(s: Sq, k: nat)
    requires k <= |Flight(s)|
    ensures DropFlight(s, k).retired == s.retired && DropFlight(s, k).submitted == s.submitted
  {
  }

  lemma FirstAndRest(before: seq<Retired>, flight: seq<Swqe>, submitted: seq<Swqe>, status: WcStatus)
    requires flight != []
    ensures var all, got := flight + submitted, before + Records(flight[..1], status) + Records(flight[1..] + submitted, WrFlushErr);
      && |got| == |before| + |all| && got[..|before|] == before
      && forall i :: 0 <= i < |all| ==> got[|before| + i] == Retired(all[i].wr, if i == 0 then status else WrFlushErr)
  {
    var all, rest := flight + submitted, flight[1..] + submitted;
    assert forall i :: 0 < i < |all| ==> all[i] == rest[i - 1];
  }

  /** The requests of `a`, as those of `b`. */
  lemma EndedSame(before: seq<Retired>, a: seq<Swqe>, b: seq<Swqe>, status: WcStatus, t: Sq)
    requires Ended(before, a, status, t) && |a| == |b| && forall i :: 0 <= i < |a| ==> a[i].wr == b[i].wr
    ensures Ended(before, b, status, t)
  {
  }

  /** The head of the flight once it may be worked on: of waiting if its timer has run out, else of sending. */
  predicate HeadDue(s: Sq, now: int) {
    && s.state in {RTS, SQD} && Flight(s) != [] && (s.waiting == [] || Expired(s, now))
    && s.nrContig <= MAX_CONTIG_REQUESTS && !TimeAfter(Flight(s)[0].scheduleTime, now)
  }

  /** What a turn works on when the head is due. */
  lemma DuePrepared(s: Sq, now: int)
    requires HeadDue(s, now)
    ensures var p := Prepare(s, now);
      && p.waiting == [] && |p.sending| == |Flight(s)| && p.submitted == s.submitted && p.retired == s.retired
      && p.nrContig == s.nrContig && p.state == s.state && p.attr == s.attr && p.plan == s.plan
      && p.sending[0] == Flight(s)[0].(sent := p.sending[0].sent, localAckTime := p.sending[0].localAckTime,
                                       retryCnt := p.sending[0].retryCnt, timeouts := p.sending[0].timeouts)
      && p.sending[0].retryCnt == Flight(s)[0].retryCnt - (if s.waiting == [] then 0 else 1)
      && forall i :: 0 <= i < |p.sending| ==> p.sending[i].wr == Flight(s)[i].wr
  {
    hide TimeAfter;
    if s.waiting != [] {
      var e := s.waiting[0];
      var e' := e.(retryCnt := e.retryCnt - 1, timeouts := e.timeouts + 1, localAckTime := now + SCHED_TIMEOUT);
      var s1 := s.(waiting := s.waiting[0 := e']);
      assert Flight(s1) == Flight(s)[0 := e'];
      assert Prepare(s, now) == Rewind(s1);
    }
  }

  /**
    A turn that finds the oldest request in flight due and in error gives it back with its status and
    flushes all others, in order.
   */
  lemma ErrorHeadFails(s: Sq, now: int, mem: WcStatus)
    requires HeadDue(s, now) && Flight(s)[0].status != Success
    ensures var (t, out) := Schedule(s, now, mem);
      out == None && Ended(s.retired, Flight(s) + s.submitted, Flight(s)[0].status, t)
  {
    hide Prepare, Transmit, FailHead, TimeAfter, Ended;
    DuePrepared(s, now);
    var p := Prepare(s, now);
    var p1 := p.(sending := p.sending[0 := p.sending[0].(scheduleTime := now)]);
    FailHeadEnds(p1, p1.sending[0].status);
    assert Flight(p1) == p1.sending;
    var a, b := Flight(p1) + p1.submitted, Flight(s) + s.submitted;
    forall i | 0 <= i < |a| ensures a[i].wr == b[i].wr {
      if i < |p1.sending| {
        assert a[i] == p1.sending[i] && b[i] == Flight(s)[i];
      }
    }
    EndedSame(s.retired, a, b, p1.sending[0].status, FailHead(p1, p1.sending[0].status));
  }

  // ---------------------------------------------------------------------------
  // Retries used up

  /** Every request in flight is waiting to be sent, the first of them marked with `status`. */
  predicate Marked(s: Sq, status: WcStatus) {
    s.waiting == [] && s.sending != [] && s.sending[0].status == status != Success
  }

  /** Why the head cannot be tried again, if it cannot: the timeout a turn finds counts. */
  predicate GivenUp(s: Sq, status: WcStatus)
    requires Flight(s) != []
  {
    var left := Flight(s)[0].retryCnt - (if s.waiting == [] then 0 else 1);
    (left < 0 && status == RetryExcErr) || (left >= 0 && Flight(s)[0].rnrRetry < 0 && status == RnrRetryExcErr)
  }

  /** A turn that finds the head due with no retry left sends nothing and marks it. */
  lemma GivesUp(s: Sq, now: int, mem: WcStatus, status: WcStatus)
    requires HeadDue(s, now) && Flight(s)[0].status == Success && GivenUp(s, status)
    ensures var (t, out) := Schedule(s, now, mem);
      && out == None && Marked(t, status) && t.sending[0].scheduleTime == now
      && t.retired == s.retired && t.submitted == s.submitted && t.state == s.state && t.nrContig == s.nrContig
      && |t.sending| == |Flight(s)| && forall i :: 0 <= i < |t.sending| ==> t.sending[i].wr == Flight(s)[i].wr
  {
    hide Prepare, FailHead, TimeAfter, PacketOf, AfterPacket;
    DuePrepared(s, now);
  }

  /**
    A request whose retries are used up, by timeouts or for lack of a receive entry, is given back with
    that status by the next two turns that find it due, and all others are flushed.
   */
  lemma TwoTurnsEndIt(s: Sq, now: int, mem: WcStatus, later: int, mem': WcStatus, status: WcStatus)
    requires HeadDue(s, now) && Flight(s)[0].status == Success && GivenUp(s, status) && !TimeAfter(now, later)
    ensures var t := Schedule(Schedule(s, now, mem).0, later, mem').0;
      Ended(s.retired, Flight(s) + s.submitted, status, t)
  {
    hide Schedule, TimeAfter, Ended;
    GivesUp(s, now, mem, status);
    var s1 := Schedule(s, now, mem).0;
    assert Flight(s1) == s1.sending;
    ErrorHeadFails(s1, later, mem');
    var a, b := Flight(s1) + s1.submitted, Flight(s) + s.submitted;
    forall i | 0 <= i < |a| ensures a[i].wr == b[i].wr {
      if i < |s1.sending| {
        assert a[i] == s1.sending[i] && b[i] == Flight(s)[i];
      }
    }
    EndedSame(s.retired, a, b, status, Schedule(s1, later, mem').0);
  }

  /** Posts and turns, with no response and no call to modify_qp. */
  predicate Unanswered(a: SendQueueRuns.Action) {
    a.DoPost? || a.DoSchedule?
  }

  /** The marked request is still at the head, or it was the next to be given back and its status is out. */
  ghost predicate MarkedOrOut(before: seq<Retired>, e: Swqe, status: WcStatus, t: Sq) {
    if Marked(t, status) then t.sending[0].wr == e.wr && t.retired == before
    else t.state == ERR && |t.retired| > |before| && t.retired[..|before|] == before && t.retired[|before|] == Retired(e.wr, status)
  }

  lemma {:induction false} PostMarked(before: seq<Retired>, e: Swqe, status: WcStatus, s: Sq, wrs: seq<Wr>, carry: nat)
    requires MarkedOrOut(before, e, status, s) && (Marked(s, status) ==> s.state !in {ERR, SQE})
    ensures var t := PostChain(s, wrs, carry).0;
      MarkedOrOut(before, e, status, t) && (Marked(t, status) ==> t.state !in {ERR, SQE}) && (Marked(s, status) <==> Marked(t, status))
    decreases |wrs|
  {
    hide InlineFault, RecordedLength, Reports;
    if wrs != [] {
      var (s', carry', r) := PostOne(s, wrs[0], carry);
      assert s'.sending == s.sending && s'.waiting == s.waiting && s'.state == s.state && s.retired <= s'.retired;
      PostMarked(before, e, status, s', wrs[1..], carry');
    }
  }

  lemma TurnMarked(before: seq<Retired>, e: Swqe, status: WcStatus, s: Sq, now: int, mem: WcStatus)
    requires MarkedOrOut(before, e, status, s) && (Marked(s, status) ==> s.state !in {ERR, SQE})
    ensures var t := Schedule(s, now, mem).0;
      MarkedOrOut(before, e, status, t) && (Marked(t, status) ==> t.state !in {ERR, SQE})
  {
    hide FailHead, Transmit, TimeAfter, Ended;
    if Marked(s, status) && s.state in {RTS, SQD} && HeadReady(s, now) {
      assert Flight(s) == s.sending;
      ErrorHeadFails(s, now, mem);
      EndedFirst(s.retired, Flight(s) + s.submitted, status, Schedule(s, now, mem).0);
    }
  }

  lemma EndedFirst(before: seq<Retired>, all: seq<Swqe>, status: WcStatus, t: Sq)
    requires Ended(before, all, status, t) && all != []
    ensures t.state == ERR && t.sending == [] && |t.retired| > |before| && t.retired[..|before|] == before
    ensures t.retired[|before|] == Retired(all[0].wr, status)
  {
  }

  /**
    Over any run of posts and turns without a response, a request marked in error stays at the head
    until a turn finds it due, and is then the next one given back, with the status it was marked with.
   */
  lemma {:induction false} MarkedUntilOut(s: Sq, actions: seq<SendQueueRuns.Action>, status: WcStatus)
    requires Marked(s, status) && s.state !in {ERR, SQE} && forall i :: 0 <= i < |actions| ==> Unanswered(actions[i])
    ensures var t := SendQueueRuns.Run(s, actions);
      MarkedOrOut(s.retired, s.sending[0], status, t) && (Marked(t, status) ==> t.state !in {ERR, SQE})
    decreases |actions|
  {
    hide MarkedOrOut, Marked, Schedule, PostChain;
    StillMarked(s, status);
    if actions != [] {
      var n := |actions| - 1;
      MarkedUntilOut(s, actions[..n], status);
      var t := SendQueueRuns.Run(s, actions[..n]);
      var e := s.sending[0];
      match actions[n]
      case DoPost(wrs) =>
        PostMarked(s.retired, e, status, t, wrs, 0);
        ReadyMarked(s.retired, e, status, PostChain(t, wrs, 0).0);
      case DoSchedule(now, mem) => TurnMarked(s.retired, e, status, t, now, mem);
    }
  }

  lemma StillMarked(s: Sq, status: WcStatus)
    requires Marked(s, status)
    ensures s.sending != [] && MarkedOrOut(s.retired, s.sending[0], status, s)
  {
  }

  lemma ReadyMarked(before: seq<Retired>, e: Swqe, status: WcStatus, s: Sq)
    requires MarkedOrOut(before, e, status, s)
    ensures MarkedOrOut(before, e, status, GetReady(s)) && (Marked(GetReady(s), status) <==> Marked(s, status))
  {
  }

  // ---------------------------------------------------------------------------
  // A packet goes out

  /** The first packet of the head of sending may be sent now. */
  predicate SendingDue(s: Sq, now: int) {
    && s.state in {RTS, SQD} && s.sending != [] && !Expired(s, now) && s.sending[0].status == Success
    && s.nrContig <= MAX_CONTIG_REQUESTS && !TimeAfter(s.sending[0].scheduleTime, now)
  }

  /** The payload of the next packet of `e`, if it has one: `size` bytes from byte `from` of the message. */
  predicate BytesNeeded(mtu: Mtu, e: Swqe, from: int, size: int) {
    && (IsSend(e.wr.opcode) || IsWrite(e.wr.opcode)) && size > 0 && from == e.sent * mtu
    && size == if e.sent + 1 == e.all then e.wr.length - from else mtu
  }

  /** Nothing keeps the next packet of `e` back: it has retries left, and the bytes it carries can be fetched. */
  ghost predicate MayGo(mtu: Mtu, e: Swqe, mem: WcStatus) {
    && e.retryCnt >= 0 && e.rnrRetry >= 0 && e.wr.opcode != WrUnsupported
    && forall from, size :: BytesNeeded(mtu, e, from, size) ==> mem == Success && from + size <= |e.wr.data|
  }

  lemma MayGoIff(attr: Attr, e: Swqe, mem: WcStatus)
    requires EntryOk(attr, e) && SendingOk(e)
    ensures SendStatus(attr, e, mem) == Success <==> MayGo(attr.mtu, e, mem)
  {
    hide NumPackets;
    var from, size := e.sent * attr.mtu, if e.sent + 1 == e.all then e.wr.length - e.sent * attr.mtu else attr.mtu;
    PacketFits(attr.mtu, e.wr.length, e.sent);
    if (IsSend(e.wr.opcode) || IsWrite(e.wr.opcode)) && size > 0 {
      assert BytesNeeded(attr.mtu, e, from, size);
    }
  }

  /** The packets in a row after one more of `e`: a first packet of an RDMA WRITE starts the count again. */
  function InARow(e: Swqe, n: int): int {
    if IsWrite(e.wr.opcode) && e.sent == 0 then 1 else if e.wr.opcode == WrRead then n else n + 1
  }

  /**
    A turn that finds a request to send sends its next packet if and only if nothing keeps it back;
    otherwise it marks the request and sends nothing.  With its last packet, or its only one if it is
    an RDMA READ, the request goes to the end of waiting.
   */
  lemma PacketGoesIff(s: Sq, now: int, mem: WcStatus)
    requires Inv(s) && SendingDue(s, now)
    ensures var (t, out) := Schedule(s, now, mem);
      var e := s.sending[0];
      && t.retired == s.retired && t.submitted == s.submitted && t.plan == s.plan && t.state == s.state
      && (out.Some? <==> MayGo(s.attr.mtu, e, mem))
      && (out.Some? ==>
            && out.value == PacketOf(s.attr.mtu, ItemOf(e), e.sent) && t.nrContig == InARow(e, s.nrContig)
            && var e' := e.(scheduleTime := now, sent := if e.wr.opcode == WrRead then e.sent else e.sent + 1);
               if e.wr.opcode != WrRead && e.sent + 1 < e.all then t.waiting == s.waiting && t.sending == [e'] + s.sending[1..]
               else t.waiting == s.waiting + [e'.(localAckTime := now + s.attr.ackTimeout)] && t.sending == s.sending[1..])
      && (out.None? ==>
            && t.waiting == s.waiting && |t.sending| == |s.sending| && t.sending[1..] == s.sending[1..] && t.sending[0].status != Success
            && (e.retryCnt >= 0 && e.rnrRetry >= 0 && e.wr.opcode != WrUnsupported && mem != Success ==> t.sending[0].status == mem))
  {
    hide Inv, TimeAfter, PacketOf, FailHead, EntryOk, SendStatus, MayGo, RestartsContig;
    HeadSound(s);
    var e, e1 := s.sending[0], s.sending[0].(scheduleTime := now);
    HeadVerdict(s.attr, e, now, mem);
    assert s.sending[0 := e1][1..] == s.sending[1..];
    assert Schedule(s, now, mem) == Transmit(s.(sending := s.sending[0 := e1]), now, mem);
    assert s.sending[0 := e1.(sent := e.sent + 1)] == [e1.(sent := e.sent + 1)] + s.sending[1..];
  }

  /** What the requester makes of the request at the head of sending. */
  lemma HeadVerdict(attr: Attr, e: Swqe, now: int, mem: WcStatus)
    requires EntryOk(attr, e) && SendingOk(e)
    ensures var e1 := e.(scheduleTime := now);
      && (SendStatus(attr, e1, mem) == Success <==> MayGo(attr.mtu, e, mem))
      && (SendStatus(attr, e1, mem) == Success ==> (RestartsContig(e1) <==> IsWrite(e.wr.opcode) && e.sent == 0))
      && (e.retryCnt >= 0 && e.rnrRetry >= 0 && e.wr.opcode != WrUnsupported && mem != Success && SendStatus(attr, e1, mem) != Success
          ==> SendStatus(attr, e1, mem) == mem)
  {
    hide ItemOk, PayloadSize, GatherOk, MayGo;
    MayGoIff(attr, e, mem);
    assert SendStatus(attr, e.(scheduleTime := now), mem) == SendStatus(attr, e, mem);
  }

  // ---------------------------------------------------------------------------
  // A new request is taken up

  /** The oldest submitted request may get its PSNs: fences and the limit on RDMA READs and atomics allow it. */
  ghost predicate MayStart(s: Sq) {
    && s.state == RTS && s.submitted != []
    && (s.submitted[0].wr.fence ==> forall i :: 0 <= i < |Flight(s)| ==> !IsRdAtomic(Flight(s)[i].wr.opcode))
    && (IsRdAtomic(s.submitted[0].wr.opcode) ==> CountRd(Flight(s)) < s.attr.maxRdAtomic)
  }

  lemma {:induction false} NoneCounted(q: seq<Swqe>)
    ensures CountRd(q) == 0 <==> forall i :: 0 <= i < |q| ==> !IsRdAtomic(q[i].wr.opcode)
  {
    if q != [] {
      NoneCounted(q[..|q| - 1]);
    }
  }

  /**
    With nothing left to send, a turn takes up the oldest submitted request if and only if it may start,
    and gives it the next PSNs.
   */
  lemma TakenUpIff(s: Sq, now: int, mem: WcStatus)
    requires Inv(s) && s.state in {RTS, SQD} && s.sending == [] && !Expired(s, now)
    ensures var t := Schedule(s, now, mem).0;
      if MayStart(s)
      then t.plan == s.plan + [Item(s.submitted[0].wr, s.expectedPsn, NumPackets(s.attr.mtu, s.submitted[0].wr.length))]
           && t.submitted == s.submitted[1..]
      else t == s
  {
    hide Inv, NumPackets, CanEnqueue, MayStart, TimeAfter, FailHead, Transmit;
    MayStartIff(s);
    if CanEnqueue(s) {
      StartNeeds(s);
      FreshSubmitted(s);
      var p := Enqueue(s, now);
      var p1 := p.(sending := p.sending[0 := p.sending[0].(scheduleTime := now)]);
      TransmitKeepsPlan(p1, now, mem);
    }
  }

  lemma StartNeeds(s: Sq)
    requires CanEnqueue(s)
    ensures s.submitted != []
  {
  }

  lemma MayStartIff(s: Sq)
    requires Inv(s)
    ensures CanEnqueue(s) <==> MayStart(s)
  {
    hide Counted, Conserved, FlightOk, SubmittedOk, Fenced, Planned, PlanTiled, CountRd;
    NoneCounted(Flight(s));
  }

  lemma FreshSubmitted(s: Sq)
    requires Inv(s) && s.submitted != []
    ensures s.submitted[0].status == Success
  {
    hide Counted, Conserved, FlightOk, RdCounted, Fenced, Planned, PlanTiled;
  }

  lemma TransmitKeepsPlan(s: Sq, now: int, mem: WcStatus)
    requires s.sending != []
    ensures Transmit(s, now, mem).0.plan == s.plan && Transmit(s, now, mem).0.submitted == s.submitted
  {
    hide SendStatus, RestartsContig, PacketOf;
  }
}
