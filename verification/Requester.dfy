/**
  The requester as the driver runs it: lists and counters updated in place, one entry at a
  time.  Each method is proved to take the queue pair to the state SendQueue.dfy gives for
  the whole operation.
 */
module RequesterClass {
  import opened Psn
  import opened Jiffies
  import opened WorkRequest
  import SQ = SendQueue
  import opened SendQueue
  import SQI = SendQueueInvariant

  // ---------------------------------------------------------------------------
  // Laws of the whole-operation functions that let them be computed piecewise

  lemma {:induction false} AckRunIs(q: seq<Swqe>, psn: int, n: nat)
    requires n <= |q| && forall i :: 0 <= i < n ==> JudgeAck(q[i], psn).0 == Completed
    requires n < |q| ==> JudgeAck(q[n], psn).0 != Completed
    ensures AckRun(q, psn) == n
  {
    hide JudgeAck;
    if n > 0 {
      AckRunIs(q[1..], psn, n - 1);
    }
  }

  lemma {:induction false} MatchIs(q: seq<Swqe>, psn: int, n: nat)
    requires n <= |q| && forall i :: 0 <= i < n ==> !Owns(q[i], psn)
    requires n < |q| ==> Owns(q[n], psn)
    ensures Match(q, psn) == n
  {
    hide Owns;
    if n > 0 {
      MatchIs(q[1..], psn, n - 1);
    }
  }

  lemma DropKeepsRest(s: Sq, n: nat)
    requires n <= |Flight(s)|
    ensures var d := DropFlight(s, n);
      d == s.(waiting := d.waiting, nrWaiting := d.nrWaiting, sending := d.sending, nrSending := d.nrSending)
  {
  }

  lemma DropTwice(s: Sq, n: nat)
    requires n < |Flight(s)|
    ensures Flight(DropFlight(s, n)) == Flight(s)[n..]
    ensures DropFlight(DropFlight(s, n), 1) == DropFlight(s, n + 1)
  {
    SQI.DropFlightTail(s, n);
    var t := DropFlight(s, n);
    if n < |s.waiting| {
      assert t.waiting[1..] == s.waiting[n + 1..];
      assert t.sending[0..] == s.sending[0..];
    } else {
      assert t.waiting == [] && t.waiting[0..] == [];
      assert t.sending[1..] == s.sending[n + 1 - |s.waiting|..];
      assert s.waiting[|s.waiting|..] == [];
    }
  }

  lemma CompleteRunStep(s: Sq, n: nat)
    requires n < |Flight(s)|
    ensures Flight(CompleteRun(s, n)) == Flight(s)[n..]
    ensures CompleteRun(CompleteRun(s, n), 1) == CompleteRun(s, n + 1)
  {
    hide Records, Reports, DropFlight;
    var q := Flight(s);
    var t := CompleteRun(s, n);
    DropTwice(s, n);
    DropKeepsRest(s, n);
    DropKeepsRest(s, n + 1);
    assert Flight(t) == q[n..];
    assert q[n..][..1] == [q[n]];
    assert DropFlight(t, 1) == DropFlight(DropFlight(s, n), 1).(cq := t.cq, retired := t.retired, free := t.free, psn := t.psn)
      by { DropIgnores(DropFlight(s, n), t); }
    RecordsStep(s.attr, q, n, Success);
    var a, b := CompleteRun(t, 1), CompleteRun(s, n + 1);
    assert a.cq == b.cq;
    assert a.retired == b.retired;
    assert a.psn == b.psn;
  }

  lemma DropIgnores(s: Sq, t: Sq)
    requires t == s.(cq := t.cq, retired := t.retired, free := t.free, psn := t.psn) && Flight(s) != []
    ensures DropFlight(t, 1) == DropFlight(s, 1).(cq := t.cq, retired := t.retired, free := t.free, psn := t.psn)
  {
  }

  lemma CompleteRunLists(s: Sq, n: nat)
    requires n <= |Flight(s)|
    ensures CompleteRun(s, n).waiting == if n <= |s.waiting| then s.waiting[n..] else []
    ensures n >= |s.waiting| ==> CompleteRun(s, n).sending == Flight(s)[n..]
  {
    hide Records, Reports;
  }

  lemma RdCountAside(s: Sq, t: Sq)
    requires t == s.(nrRdAtomic := s.nrRdAtomic - 1) && Flight(s) != []
    ensures CompleteRun(t, 1) == CompleteRun(s, 1).(nrRdAtomic := s.nrRdAtomic - 1)
  {
  }

  lemma CompleteRunZero(s: Sq)
    ensures CompleteRun(s, 0) == s
  {
    assert Records(Flight(s)[..0], Success) == [];
    assert s.waiting[0..] == s.waiting && s.sending[0..] == s.sending;
    assert s.cq + [] == s.cq && s.retired + [] == s.retired;
  }

  lemma ReportsOne(attr: Attr, e: Swqe, status: WcStatus)
    ensures Reports(attr, Records([e], status))
            == if status != Success || attr.signalAll || e.wr.signaled then [Wc(e.wr.id, status)] else []
  {
    var recs := Records([e], status);
    assert recs == [Retired(e.wr, status)];
    assert recs[..|recs| - 1] == [];
  }

  lemma RecordsStep(attr: Attr, q: seq<Swqe>, i: nat, status: WcStatus)
    requires i < |q|
    ensures Records(q[..i + 1], status) == Records(q[..i], status) + Records([q[i]], status)
    ensures Reports(attr, Records(q[..i + 1], status))
            == Reports(attr, Records(q[..i], status)) + Reports(attr, Records([q[i]], status))
  {
    assert Records(q[..i + 1], status) == Records(q[..i], status) + Records([q[i]], status);
    SQI.ReportsJoin(attr, Records(q[..i], status), Records([q[i]], status));
  }

  lemma JoinThree<T>(x: seq<T>, a: seq<T>, b: seq<T>, c: seq<T>)
    ensures x + a + b + c == x + (a + b + c)
  {
  }

  lemma RecordsThree(attr: Attr, a: seq<Swqe>, b: seq<Swqe>, c: seq<Swqe>, status: WcStatus)
    ensures Records(a + b + c, status) == Records(a, status) + Records(b, status) + Records(c, status)
    ensures Reports(attr, Records(a + b + c, status))
            == Reports(attr, Records(a, status)) + Reports(attr, Records(b, status)) + Reports(attr, Records(c, status))
  {
    assert Records(a + b, status) == Records(a, status) + Records(b, status);
    assert Records(a + b + c, status) == Records(a + b, status) + Records(c, status);
    SQI.ReportsJoin(attr, Records(a, status), Records(b, status));
    SQI.ReportsJoin(attr, Records(a + b, status), Records(c, status));
  }

  /** The three flush loops and the counters one after the other. */
  lemma FlushSteps(s: Sq)
    ensures var s1 := Complete(s, s.waiting, WrFlushErr).(waiting := [], nrWaiting := 0);
      var s2 := Complete(s1, s1.sending, WrFlushErr).(sending := [], nrSending := 0);
      var s3 := Complete(s2, s2.submitted, WrFlushErr).(submitted := [], nrSubmitted := 0);
      SQ.Flush(s) == s3.(nrRdAtomic := 0, nrContig := 0, nrContigReads := 0)
  {
    hide Reports, Records;
    FlushedThree(s.attr, s.cq, s.retired, s.waiting, s.sending, s.submitted, WrFlushErr);
  }

  lemma FlushedThree(attr: Attr, cq: seq<Wc>, retired: seq<Retired>, a: seq<Swqe>, b: seq<Swqe>, c: seq<Swqe>, status: WcStatus)
    ensures retired + Records(a, status) + Records(b, status) + Records(c, status) == retired + Records(a + b + c, status)
    ensures cq + Reports(attr, Records(a, status)) + Reports(attr, Records(b, status)) + Reports(attr, Records(c, status))
            == cq + Reports(attr, Records(a + b + c, status))
  {
    RecordsThree(attr, a, b, c, status);
    hide Reports, Records;
    JoinThree(cq, Reports(attr, Records(a, status)), Reports(attr, Records(b, status)), Reports(attr, Records(c, status)));
    JoinThree(retired, Records(a, status), Records(b, status), Records(c, status));
  }

  /** The entry that stops the run decides how receive_ACK_response ends. */
  lemma AckStops(s: Sq, psn: int, now: int, n: nat)
    requires n < |Flight(s)| && JudgeAck(Flight(s)[n], psn).0 != Completed
    requires forall i :: 0 <= i < n ==> JudgeAck(Flight(s)[i], psn).0 == Completed
    ensures Flight(CompleteRun(s, n)) != []
    ensures var (verdict, e) := JudgeAck(Flight(s)[n], psn);
      SQ.ReceiveAck(s, psn, now) == match verdict
        case Failed => SQ.FailHead(SetFlight(CompleteRun(s, n), 0, e), e.status)
        case Progressed => SQ.Postpone(SetFlight(CompleteRun(s, n), 0, e), now)
        case _ => SQ.Postpone(CompleteRun(s, n), now)
  {
    hide JudgeAck, CompleteRun, SQ.Postpone, SQ.FailHead, AckRun, SetFlight, Flight;
    CompleteRunStep(s, n);
    AckRunIs(Flight(s), psn, n);
  }

  class Requester {
    const attr: Attr
    var state: QpState
    var submitted: seq<Swqe>
    var sending: seq<Swqe>
    var waiting: seq<Swqe>
    var nrSubmitted: int
    var nrSending: int
    var nrWaiting: int
    var nrRdAtomic: int
    var free: int
    var expectedPsn: int
    var psn: int
    var nrContig: int
    var nrContigReads: int
    var cnps: nat
    var cq: seq<Wc>
    ghost var accepted: seq<Wr>
    ghost var retired: seq<Retired>
    ghost var plan: seq<Item>

    ghost function View(): Sq
      reads this
    {
      Sq(attr, state, submitted, sending, waiting, nrSubmitted, nrSending, nrWaiting, nrRdAtomic, free,
         expectedPsn, psn, nrContig, nrContigReads, cnps, cq, accepted, retired, plan)
    }

    constructor (a: Attr)
      ensures View() == Sq(a, INIT, [], [], [], 0, 0, 0, 0, a.capacity, a.origin, Mask24(a.origin), 0, 0, 0, [], [], [], [])
    {
      attr := a;
      state := INIT;
      submitted, sending, waiting := [], [], [];
      nrSubmitted, nrSending, nrWaiting, nrRdAtomic := 0, 0, 0, 0;
      nrContig, nrContigReads, cnps := 0, 0, 0;
      free := a.capacity;
      expectedPsn, psn := a.origin, Mask24(a.origin);
      cq, accepted, retired, plan := [], [], [], [];
    }

    /** A completion for `e`, then its entry back to the free list. */
    method Retire(e: Swqe, status: WcStatus)
      modifies `cq, `free, `retired
      ensures cq == old(cq) + Reports(attr, Records([e], status))
      ensures free == old(free) + 1
      ensures retired == old(retired) + Records([e], status)
    {
      ReportsOne(attr, e, status);
      if status != Success || attr.signalAll || e.wr.signaled {
        cq := cq + [Wc(e.wr.id, status)];
      }
      free := free + 1;
      retired := retired + Records([e], status);
    }

    /** One loop of pib_util_flush_qp: completes `q` in order. */
    method FlushList(q: seq<Swqe>)
      modifies `cq, `free, `retired
      ensures cq == old(cq) + Reports(attr, Records(q, WrFlushErr))
      ensures free == old(free) + |q|
      ensures retired == old(retired) + Records(q, WrFlushErr)
    {
      var i := 0;
      assert Records(q[..0], WrFlushErr) == [];
      while i < |q|
        invariant 0 <= i <= |q|
        invariant cq == old(cq) + Reports(attr, Records(q[..i], WrFlushErr))
        invariant free == old(free) + i
        invariant retired == old(retired) + Records(q[..i], WrFlushErr)
      {
        Retire(q[i], WrFlushErr);
        RecordsStep(attr, q, i, WrFlushErr);
        i := i + 1;
      }
      assert q[..i] == q;
    }

    /** pib_util_flush_qp: waiting, sending, submitted. */
    method Flush()
      modifies this
      ensures View() == SQ.Flush(old(View()))
    {
      hide Complete, SQ.Flush;
      FlushSteps(View());
      FlushWaiting();
      FlushSending();
      FlushSubmitted();
      ghost var s := View();
      nrRdAtomic, nrContig, nrContigReads := 0, 0, 0;
      assert View() == s.(nrRdAtomic := 0, nrContig := 0, nrContigReads := 0);
    }

    method FlushWaiting()
      modifies `cq, `free, `retired, `waiting, `nrWaiting
      ensures View() == Complete(old(View()), old(waiting), WrFlushErr).(waiting := [], nrWaiting := 0)
    {
      hide Reports, Records;
      FlushList(waiting);
      waiting, nrWaiting := [], 0;
    }

    method FlushSending()
      modifies `cq, `free, `retired, `sending, `nrSending
      ensures View() == Complete(old(View()), old(sending), WrFlushErr).(sending := [], nrSending := 0)
    {
      hide Reports, Records;
      FlushList(sending);
      sending, nrSending := [], 0;
    }

    method FlushSubmitted()
      modifies `cq, `free, `retired, `submitted, `nrSubmitted
      ensures View() == Complete(old(View()), old(submitted), WrFlushErr).(submitted := [], nrSubmitted := 0)
    {
      hide Reports, Records;
      FlushList(submitted);
      submitted, nrSubmitted := [], 0;
    }

    /** One request of pib_post_send; `carry` bytes were counted for the requests before it in the chain. */
    method PostWr(wr: Wr, carry: nat) returns (total: nat, result: PostResult)
      modifies this
      ensures (View(), total, result) == PostOne(old(View()), wr, carry)
    {
      hide Complete;
      total := carry;
      if state == RESET || state == INIT {
        return carry, EINVAL;
      }
      if state == ERR || state == SQE {
        PostFlushed(wr);
        return carry, Posted;
      }
      if wr.numSge < 1 || attr.maxSge < wr.numSge {
        return carry, EINVAL;
      }
      if free == 0 {
        return carry, ENOMEM;
      }
      total := if IsAtomic(wr.opcode) then 8 else total + |wr.data|;
      if MAX_PAYLOAD_LEN < total {
        return total, EMSGSIZE;
      }
      if InlineFault(attr, wr, total) {
        return total, EFAULT;
      }
      QueueEntry(wr.(length := total));
      return total, Posted;
    }

    /** In an error state the request completes at once; no entry is taken. */
    method PostFlushed(wr: Wr)
      modifies `cq, `free, `retired, `accepted
      ensures View() == Complete(old(View()), [FreshEntry(wr)], WrFlushErr).(free := old(free), accepted := old(accepted) + [wr])
    {
      hide Reports, Records;
      Retire(FreshEntry(wr), WrFlushErr);
      free := free - 1;
      accepted := accepted + [wr];
    }

    /** Takes a free entry for `w` and appends it to submitted. */
    method QueueEntry(w: Wr)
      modifies `free, `submitted, `nrSubmitted, `accepted
      ensures View() == old(View()).(free := old(free) - 1, submitted := old(submitted) + [FreshEntry(w)],
                                     nrSubmitted := old(nrSubmitted) + 1, accepted := old(accepted) + [w])
    {
      free := free - 1;
      submitted := submitted + [FreshEntry(w)];
      nrSubmitted := nrSubmitted + 1;
      accepted := accepted + [w];
    }

    /** pib_post_send. */
    method PostSend(wrs: seq<Wr>) returns (result: PostResult)
      modifies this
      ensures (View(), result) == SQ.PostSend(old(View()), wrs)
    {
      hide PostChain;
      if wrs == [] {
        return EINVAL;
      }
      var pending := state == RTS;
      result := PostWrs(wrs);
      if pending {
        GetReady();
      }
    }

    /** get_ready_to_send. */
    method GetReady()
      modifies `nrContig, `nrContigReads
      ensures View() == SQ.GetReady(old(View()))
    {
      nrContig := 0;
      nrContigReads := 0;
    }

    /** The walk over the chain; the byte count is not reset between requests, as in the source. */
    method PostWrs(wrs: seq<Wr>) returns (result: PostResult)
      modifies this
      ensures (View(), result) == PostChain(old(View()), wrs, 0)
    {
      var total: nat := 0;
      var i := 0;
      while i < |wrs|
        invariant 0 <= i <= |wrs|
        invariant PostChain(old(View()), wrs, 0) == PostChain(View(), wrs[i..], total)
      {
        assert wrs[i..][1..] == wrs[i + 1..] && wrs[i..][0] == wrs[i];
        hide PostOne;
        total, result := PostWr(wrs[i], total);
        if result != Posted {
          return result;
        }
        i := i + 1;
      }
      return Posted;
    }

    /** process_new_send_wr. */
    method ProcessNewSendWr(now: int) returns (taken: bool)
      modifies this
      ensures taken == CanEnqueue(old(View()))
      ensures View() == if taken then Enqueue(old(View()), now) else old(View())
    {
      hide NumPackets;
      if state != RTS || submitted == [] {
        return false;
      }
      var e := submitted[0];
      if e.wr.fence && 0 < nrRdAtomic {
        return false;
      }
      if IsRdAtomic(e.wr.opcode) {
        if attr.maxRdAtomic <= nrRdAtomic {
          return false;
        }
        nrRdAtomic := nrRdAtomic + 1;
      }
      ghost var s := View();
      assert s == old(View()).(nrRdAtomic := nrRdAtomic);
      GivePsns(e, now);
      return true;
    }

    /** The tail of process_new_send_wr: the oldest submitted request moves on with its PSN range. */
    method GivePsns(e: Swqe, now: int)
      requires submitted != [] && e == submitted[0]
      modifies `submitted, `sending, `nrSubmitted, `nrSending, `plan, `expectedPsn
      ensures var n := NumPackets(attr.mtu, e.wr.length);
        var e' := e.(base := old(expectedPsn), expected := old(expectedPsn) + n, all := n,
                     ack := 0, sent := 0, scheduleTime := now, localAckTime := now + SCHED_TIMEOUT,
                     retryCnt := attr.retryCnt, rnrRetry := attr.rnrRetry, timeouts := 0, rnrs := 0);
        View() == old(View()).(submitted := old(submitted)[1..], nrSubmitted := old(nrSubmitted) - 1,
                               sending := old(sending) + [e'], nrSending := old(nrSending) + 1,
                               expectedPsn := old(expectedPsn) + n,
                               plan := old(plan) + [Item(e.wr, old(expectedPsn), n)])
    {
      hide NumPackets;
      var n := NumPackets(attr.mtu, e.wr.length);
      MoveToSending(e.(base := expectedPsn, expected := expectedPsn + n, all := n, ack := 0, sent := 0,
                       scheduleTime := now, localAckTime := now + SCHED_TIMEOUT,
                       retryCnt := attr.retryCnt, rnrRetry := attr.rnrRetry, timeouts := 0, rnrs := 0));
      plan := plan + [Item(e.wr, expectedPsn, n)];
      expectedPsn := expectedPsn + n;
    }

    /** The first submitted entry leaves its list and `e` joins the end of sending, with the two counters. */
    method MoveToSending(e: Swqe)
      requires submitted != []
      modifies `submitted, `sending, `nrSubmitted, `nrSending
      ensures View() == old(View()).(submitted := old(submitted)[1..], nrSubmitted := old(nrSubmitted) - 1,
                                     sending := old(sending) + [e], nrSending := old(nrSending) + 1)
    {
      submitted := submitted[1..];
      sending := sending + [e];
      nrSubmitted := nrSubmitted - 1;
      nrSending := nrSending + 1;
    }

    /** The first rewind loop: waiting entries back to the front of sending, last first. */
    method TakeBack()
      modifies `waiting, `sending, `nrWaiting, `nrSending
      ensures waiting == [] && sending == old(waiting) + old(sending)
      ensures nrWaiting == old(nrWaiting) - |old(waiting)| && nrSending == old(nrSending) + |old(waiting)|
    {
      while waiting != []
        invariant |waiting| <= |old(waiting)| && waiting == old(waiting)[..|waiting|]
        invariant sending == old(waiting)[|waiting|..] + old(sending)
        invariant nrWaiting == old(nrWaiting) - (|old(waiting)| - |waiting|)
        invariant nrSending == old(nrSending) + (|old(waiting)| - |waiting|)
        decreases |waiting|
      {
        var e := waiting[|waiting| - 1];
        waiting := waiting[..|waiting| - 1];
        sending := [e] + sending;
        nrWaiting := nrWaiting - 1;
        nrSending := nrSending + 1;
      }
    }

    /** Both rewind loops: take back what waits, then forget what was sent beyond the acknowledged part. */
    method RewindAll()
      modifies `waiting, `sending, `nrWaiting, `nrSending
      ensures View() == SQ.Rewind(old(View()))
    {
      TakeBack();
      ghost var q := sending;
      var i := 0;
      while i < |sending|
        invariant 0 <= i <= |sending| == |q|
        invariant forall j :: 0 <= j < |sending| ==> sending[j] == if j < i then q[j].(sent := q[j].ack) else q[j]
        invariant waiting == [] && q == old(waiting) + old(sending)
        invariant nrWaiting == old(nrWaiting) - |old(waiting)| && nrSending == old(nrSending) + |old(waiting)|
      {
        sending := sending[i := sending[i].(sent := sending[i].ack)];
        i := i + 1;
      }
      assert sending == Unsend(q);
    }

    /** postpone_local_ack_timeout. */
    method PostponeTimeouts(now: int)
      modifies `waiting
      ensures View() == SQ.Postpone(old(View()), now)
    {
      ghost var s := View();
      var i := 0;
      while i < |waiting|
        invariant 0 <= i <= |waiting| == |s.waiting|
        invariant forall j :: 0 <= j < |waiting| ==> waiting[j] == if j < i then SQ.Postpone(s, now).waiting[j] else s.waiting[j]
      {
        waiting := waiting[i := waiting[i].(retryCnt := attr.retryCnt, timeouts := 0, localAckTime := now + attr.ackTimeout)];
        i := i + 1;
      }
      assert waiting == SQ.Postpone(s, now).waiting;
    }

    /** pib_process_rc_qp_request on the head of sending.  A refusal only marks the entry. */
    method Transmit(now: int, mem: WcStatus) returns (packet: Option<Request>)
      requires sending != []
      modifies `sending, `waiting, `nrSending, `nrWaiting, `nrContig
      ensures (View(), packet) == SQ.Transmit(old(View()), now, mem)
    {
      hide SendStatus, PacketOf, RestartsContig, SQ.AfterPacket;
      var e := sending[0];
      var status := SendStatus(attr, e, mem);
      if RestartsContig(e) {
        nrContig := 0;
      }
      if status != Success {
        sending := sending[0 := e.(status := status)];
        return None;
      }
      AfterPacket(now);
      return Some(PacketOf(attr.mtu, ItemOf(e), e.sent));
    }

    /** The bookkeeping after a packet of the head of sending went out. */
    method AfterPacket(now: int)
      requires sending != []
      modifies `sending, `waiting, `nrSending, `nrWaiting, `nrContig
      ensures View() == SQ.AfterPacket(old(View()), now)
    {
      var e := sending[0];
      if e.wr.opcode != WrRead {
        e := e.(sent := e.sent + 1);
        nrContig := nrContig + 1;
        if e.sent < e.all {
          sending := sending[0 := e];
          return;
        }
      }
      ghost var s := View();
      assert s == old(View()).(nrContig := nrContig);
      MoveToWaiting(e.(localAckTime := now + attr.ackTimeout));
    }

    /** list_del and list_add_tail, with the two counters. */
    method MoveToWaiting(e: Swqe)
      requires sending != []
      modifies `sending, `waiting, `nrSending, `nrWaiting
      ensures View() == old(View()).(sending := old(sending)[1..], waiting := old(waiting) + [e],
                                     nrSending := old(nrSending) - 1, nrWaiting := old(nrWaiting) + 1)
    {
      sending := sending[1..];
      waiting := waiting + [e];
      nrSending := nrSending - 1;
      nrWaiting := nrWaiting + 1;
    }

    /** What the scheduler does before it looks at the head of sending. */
    method Prepare(now: int)
      modifies this
      ensures View() == SQ.Prepare(old(View()), now)
    {
      ghost var s := View();
      if waiting != [] && !TimeAfter(waiting[0].localAckTime, now) {
        var e := waiting[0];
        waiting := waiting[0 := e.(retryCnt := e.retryCnt - 1, timeouts := e.timeouts + 1,
                                   localAckTime := now + SCHED_TIMEOUT)];
        RewindAll();
        assert View() == TimeoutRewind(s, now);
      }
      hide CanEnqueue, Enqueue, TimeoutRewind;
      if sending == [] {
        var taken := ProcessNewSendWr(now);
      }
    }

    /** Takes the oldest request in flight off its list. */
    method PopFirst() returns (e: Swqe)
      requires waiting + sending != []
      modifies `waiting, `sending, `nrWaiting, `nrSending
      ensures e == old(Flight(View()))[0]
      ensures View() == DropFlight(old(View()), 1)
    {
      assert sending[0..] == sending && waiting[0..] == waiting;
      if waiting != [] {
        e := waiting[0];
        waiting := waiting[1..];
        nrWaiting := nrWaiting - 1;
      } else {
        e := sending[0];
        sending := sending[1..];
        nrSending := nrSending - 1;
      }
    }

    /** The oldest request in flight ends in error; the rest is flushed. */
    method FailHead(status: WcStatus)
      requires waiting + sending != []
      modifies this
      ensures View() == SQ.FailHead(old(View()), status)
    {
      hide SQ.Flush, Records, Reports, DropFlight;
      assert old(Flight(View()))[..1] == [old(Flight(View()))[0]];
      var e := PopFirst();
      Retire(e, status);
      state := ERR;
      Flush();
    }

    /** The requester part of process_on_qp_scheduler. */
    method Schedule(now: int, mem: WcStatus) returns (packet: Option<Request>)
      modifies this
      ensures (View(), packet) == SQ.Schedule(old(View()), now, mem)
    {
      hide SQ.Prepare, SQ.Transmit, SQ.FailHead;
      packet := None;
      if state != RTS && state != SQD {
        return;
      }
      Prepare(now);
      if sending == []
         || (sending[0].status != Success && waiting != [])
         || MAX_CONTIG_REQUESTS < nrContig
         || TimeAfter(sending[0].scheduleTime, now)
      {
        return;
      }
      sending := sending[0 := sending[0].(scheduleTime := now)];
      if sending[0].status != Success {
        FailHead(sending[0].status);
      } else {
        packet := Transmit(now, mem);
      }
    }

    /** The oldest request in flight completes with success. */
    method CompleteFirst()
      requires waiting + sending != []
      modifies `waiting, `sending, `nrWaiting, `nrSending, `psn, `cq, `free, `retired
      ensures View() == CompleteRun(old(View()), 1)
    {
      hide Records, Reports, DropFlight;
      assert old(Flight(View()))[..1] == [old(Flight(View()))[0]];
      var e := PopFirst();
      psn := Mask24(e.expected);
      Retire(e, Success);
    }

    /** receive_ACK_response: the loop over waiting, then the loop over sending. */
    method ReceiveAck(psn': int, now: int)
      modifies this
      ensures View() == SQ.ReceiveAck(old(View()), psn', now)
    {
      hide JudgeAck, CompleteRun, SQ.Postpone, SQ.FailHead, AckRun, SetFlight;
      ghost var s := View();
      var stopped := AckWaiting(psn', now);
      if !stopped {
        stopped := AckSending(psn', now, s);
        if !stopped {
          AckRunIs(Flight(s), psn', |Flight(s)|);
          PostponeTimeouts(now);
        }
      }
    }

    /** The loop over waiting. */
    method AckWaiting(psn': int, now: int) returns (stopped: bool)
      modifies this
      ensures stopped ==> View() == SQ.ReceiveAck(old(View()), psn', now)
      ensures !stopped ==> View() == CompleteRun(old(View()), |old(waiting)|)
      ensures !stopped ==> forall i :: 0 <= i < |old(waiting)| ==> JudgeAck(old(Flight(View()))[i], psn').0 == Completed
    {
      hide JudgeAck, CompleteRun, SQ.ReceiveAck;
      ghost var s := View();
      ghost var n := 0;
      CompleteRunZero(s);
      while waiting != []
        invariant n <= |s.waiting| && View() == CompleteRun(s, n)
        invariant waiting == s.waiting[n..]
        invariant forall i :: 0 <= i < n ==> JudgeAck(Flight(s)[i], psn').0 == Completed
        decreases |waiting|
      {
        stopped := AckNext(waiting[0], psn', now, s, n);
        if stopped {
          return;
        }
        n := n + 1;
        CompleteRunLists(s, n);
      }
      return false;
    }

    /** The loop over sending, once waiting is done. */
    method AckSending(psn': int, now: int, ghost s: Sq) returns (stopped: bool)
      requires View() == CompleteRun(s, |s.waiting|)
      requires forall i :: 0 <= i < |s.waiting| ==> JudgeAck(Flight(s)[i], psn').0 == Completed
      modifies this
      ensures stopped ==> View() == SQ.ReceiveAck(s, psn', now)
      ensures !stopped ==> View() == CompleteRun(s, |Flight(s)|)
      ensures !stopped ==> forall i :: 0 <= i < |Flight(s)| ==> JudgeAck(Flight(s)[i], psn').0 == Completed
    {
      hide JudgeAck, CompleteRun, SQ.ReceiveAck;
      ghost var n := |s.waiting|;
      CompleteRunLists(s, n);
      while sending != []
        invariant |s.waiting| <= n <= |Flight(s)| && View() == CompleteRun(s, n)
        invariant waiting == [] && sending == Flight(s)[n..]
        invariant forall i :: 0 <= i < n ==> JudgeAck(Flight(s)[i], psn').0 == Completed
        decreases |sending|
      {
        stopped := AckNext(sending[0], psn', now, s, n);
        if stopped {
          return;
        }
        n := n + 1;
        CompleteRunLists(s, n);
      }
      return false;
    }

    /** One round of either loop: `head` is the oldest entry left. */
    method AckNext(head: Swqe, psn': int, now: int, ghost s: Sq, ghost n: nat) returns (stopped: bool)
      requires n < |Flight(s)| && head == Flight(s)[n] && View() == CompleteRun(s, n)
      requires forall i :: 0 <= i < n ==> JudgeAck(Flight(s)[i], psn').0 == Completed
      modifies this
      ensures stopped ==> View() == SQ.ReceiveAck(s, psn', now)
      ensures !stopped ==> View() == CompleteRun(s, n + 1) && JudgeAck(head, psn').0 == Completed
    {
      hide JudgeAck, CompleteRun, SQ.Postpone, SQ.FailHead, SQ.ReceiveAck, SetFlight;
      var (verdict, e) := JudgeAck(head, psn');
      CompleteRunStep(s, n);
      if verdict != Completed {
        AckStops(s, psn', now, n);
        StopAck(verdict, e, now);
        return true;
      }
      CompleteFirst();
      return false;
    }

    /** How receive_ACK_response ends at the first entry that does not complete; `e` is that entry updated. */
    method StopAck(verdict: Verdict, e: Swqe, now: int)
      requires waiting + sending != []
      modifies this
      ensures View() == match verdict
        case Failed => SQ.FailHead(SetFlight(old(View()), 0, e), e.status)
        case Progressed => SQ.Postpone(SetFlight(old(View()), 0, e), now)
        case _ => SQ.Postpone(old(View()), now)
    {
      hide SQ.FailHead, SQ.Postpone;
      if verdict == Failed || verdict == Progressed {
        SetHead(e);
      }
      if verdict == Failed {
        FailHead(e.status);
      } else {
        PostponeTimeouts(now);
      }
    }

    /** Writes back the oldest entry in flight. */
    method SetHead(e: Swqe)
      requires waiting + sending != []
      modifies `waiting, `sending
      ensures View() == SetFlight(old(View()), 0, e) && waiting + sending != []
    {
      if waiting != [] {
        waiting := waiting[0 := e];
      } else {
        sending := sending[0 := e];
      }
    }

    /** match_send_wqe: the loops over waiting and sending; |waiting| + |sending| when no entry owns the PSN. */
    method MatchSendWqe(psn': int) returns (i: nat)
      ensures i == Match(Flight(View()), psn')
    {
      hide Owns;
      ghost var q := Flight(View());
      i := 0;
      while i < |waiting|
        invariant i <= |waiting|
        invariant forall j :: 0 <= j < i ==> !Owns(q[j], psn')
      {
        if Owns(waiting[i], psn') {
          MatchIs(q, psn', i);
          return;
        }
        assert q[i] == waiting[i];
        i := i + 1;
      }
      while i < |waiting| + |sending|
        invariant |waiting| <= i <= |waiting| + |sending|
        invariant forall j :: 0 <= j < i ==> !Owns(q[j], psn')
      {
        if Owns(sending[i - |waiting|], psn') {
          MatchIs(q, psn', i);
          return;
        }
        assert q[i] == sending[i - |waiting|];
        i := i + 1;
      }
      MatchIs(q, psn', i);
    }

    /** Writes back entry `i` of waiting ++ sending. */
    method SetEntry(i: nat, e: Swqe)
      requires i < |waiting| + |sending|
      modifies `waiting, `sending
      ensures View() == SetFlight(old(View()), i, e)
    {
      if i < |waiting| {
        waiting := waiting[i := e];
      } else {
        sending := sending[i - |waiting| := e];
      }
    }

    /** set_send_wqe_to_error. */
    method MarkError(psn': int, status: WcStatus)
      modifies `waiting, `sending
      ensures View() == SQ.MarkError(old(View()), psn', status)
    {
      var i := MatchSendWqe(psn');
      if i < |waiting| + |sending| {
        var e := if i < |waiting| then waiting[i] else sending[i - |waiting|];
        SetEntry(i, e.(status := status));
      }
    }

    /** The end of a finished RDMA READ or atomic. */
    method FinishHead(now: int)
      requires waiting + sending != []
      modifies this
      ensures View() == CompleteHead(old(View()), now)
    {
      hide CompleteRun, SQ.Postpone;
      nrRdAtomic := nrRdAtomic - 1;
      ghost var s := View();
      CompleteFirst();
      RdCountAside(old(View()), s);
      PostponeTimeouts(now);
    }

    /** receive_RDMA_READ_response. */
    method ReceiveRead(psn': int, now: int, mem: WcStatus)
      modifies this
      ensures View() == SQ.ReceiveRead(old(View()), psn', now, mem)
    {
      hide CompleteHead, PsnDiff, Match, SetFlight, CountRead;
      var i := MatchSendWqe(psn');
      if i == |waiting| + |sending| {
        return;
      }
      var e := if i < |waiting| then waiting[i] else sending[i - |waiting|];
      if e.wr.opcode != WrRead {
        SetEntry(i, e.(status := BadRespErr));
        return;
      }
      if i != 0 || PsnDiff(e.base + e.sent, psn') != 0 || PsnDiff(e.base + e.ack, psn') != 0 {
        return;
      }
      if mem != Success {
        SetEntry(0, e.(status := mem));
        return;
      }
      TakeResponse(e.(localAckTime := now + attr.ackTimeout, sent := e.sent + 1, ack := e.ack + 1), now);
    }

    /** The head, now `e`, has taken the response it was waiting for. */
    method TakeResponse(e: Swqe, now: int)
      requires waiting + sending != []
      modifies this
      ensures var s1 := SetFlight(old(View()), 0, e);
        && Flight(s1) != []
        && View() == CountRead(if e.sent < e.all then s1 else CompleteHead(s1, now))
    {
      hide CompleteHead, SetFlight, CountRead;
      SetHead(e);
      if e.sent >= e.all {
        FinishHead(now);
      }
      CountResponse();
    }

    /** Every so many RDMA READ responses a congestion packet goes back. */
    method CountResponse()
      modifies `nrContigReads, `cnps
      ensures View() == CountRead(old(View()))
    {
      nrContigReads := nrContigReads + 1;
      if MAX_CONTIG_READ_ACKS / 3 < nrContigReads {
        cnps := cnps + 1;
        nrContigReads := 0;
      }
    }

    /** receive_Atomic_response. */
    method ReceiveAtomic(psn': int, size: int, now: int, mem: WcStatus)
      modifies this
      ensures View() == SQ.ReceiveAtomic(old(View()), psn', size, now, mem)
    {
      hide CompleteHead, PsnDiff, Match;
      if size != ATOMIC_ACK_ETH_SIZE {
        return;
      }
      var i := MatchSendWqe(psn');
      if i == |waiting| + |sending| {
        return;
      }
      var e := if i < |waiting| then waiting[i] else sending[i - |waiting|];
      if !IsAtomic(e.wr.opcode) {
        SetEntry(i, e.(status := BadRespErr));
        return;
      }
      if i != 0 || PsnDiff(e.base, psn') != 0 {
        return;
      }
      if mem != Success {
        SetEntry(0, e.(status := mem));
        return;
      }
      FinishHead(now);
    }

    /** The retry path of receive_response. */
    method RetrySend(rnr: nat)
      modifies `waiting, `sending, `nrWaiting, `nrSending
      ensures View() == SQ.Retry(old(View()), rnr)
    {
      hide Unsend;
      RewindAll();
      if rnr != 0 && sending != [] {
        var e := sending[0];
        if e.wr.opcode == WrSend || e.wr.opcode == WrSendImm || e.wr.opcode == WrWriteImm {
          e := e.(scheduleTime := rnr);
          if attr.rnrRetry < 7 {
            e := e.(rnrRetry := e.rnrRetry - 1, rnrs := e.rnrs + 1);
          }
          sending := sending[0 := e];
        }
      }
    }

    method Dispatch(r: Response, now: int, mem: WcStatus)
      modifies this
      ensures View() == SQ.Dispatch(old(View()), r, now, mem)
    {
      hide SQ.ReceiveAck, SQ.ReceiveRead, SQ.ReceiveAtomic;
      match r.kind
      case AckKind => ReceiveAck(r.psn, now);
      case AtomicKind => ReceiveAtomic(r.psn, r.size - AETH_SIZE, now, mem);
      case _ => ReceiveRead(r.psn, now, mem);
    }

    /** receive_response. */
    method ReceiveResponse(r: Response, now: int, rnrDelay: nat, mem: WcStatus)
      modifies this
      ensures View() == SQ.ReceiveResponse(old(View()), r, now, rnrDelay, mem)
    {
      hide SQ.Dispatch, SQ.Retry, SQ.MarkError, SyndromeClass;
      if !RecvOk(state) || r.size < AETH_SIZE {
        return;
      }
      nrContig := 0;
      var c := SyndromeClass(r.syndrome);
      if r.kind == ReadMiddleKind || c == SYND_ACK {
        Dispatch(r, now, mem);
      } else if c == SYND_RNR_NAK {
        RetrySend(rnrDelay);
      } else if c == SYND_NAK {
        if r.syndrome == SYND_PSN_SEQ_ERR {
          RetrySend(0);
        } else {
          var status := NakStatus(r.syndrome);
          if status.Some? {
            MarkError(r.psn, status.value);
          }
          Dispatch(r, now, mem);
        }
      }
    }

    /** The state change of pib_modify_qp and its side effects on the send queue. */
    method ModifyState(target: QpState)
      modifies this
      ensures View() == SQ.Modify(old(View()), target)
    {
      hide SQ.Flush;
      if state == ERR || state == SQE || target !in {RTR, RTS, SQD, ERR} {
        return;
      }
      if state == SQD && (target == RTS || target == SQD) && (waiting != [] || sending != []) {
        return;
      }
      state := target;
      if target == ERR {
        Flush();
      } else if target == RTS && nrSubmitted + nrSending + nrWaiting != 0 {
        GetReady();
      }
    }
  }
}
