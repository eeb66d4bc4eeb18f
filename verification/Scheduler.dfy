/**
  The queue pair scheduler of a device: which queue pairs wait for the worker thread, in what
  order, and when the thread must wake up.

  The red/black tree is its in-order sequence.  A descent from the root probes entries of the
  part still in question, whichever the shape of the tree makes it probe, so the insertion
  here probes an arbitrary one.
 */
module Scheduler {
  import Psn
  import opened Jiffies
  import opened SendQueue
  import opened ReceiveQueue
  import opened WorkRequest

  // ---------------------------------------------------------------------------
  // When a queue pair is due

  /** time_before(a, b). */
  predicate TimeBefore(a: int, b: int) {
    TimeAfter(b, a)
  }

  /** The due time of the requester half, at most `now + SCHED_TIMEOUT`. */
  function RequesterDue(s: Sq, now: int): int {
    var t0 := now + SCHED_TIMEOUT;
    var t1 := if s.waiting != [] && TimeBefore(s.waiting[0].localAckTime, t0) then s.waiting[0].localAckTime else t0;
    if s.sending != [] && s.sending[0].status != Success && s.waiting != [] then t1
    else if s.sending != [] && MAX_CONTIG_REQUESTS < s.nrContig then t1
    else
      var t2 := if s.sending != [] && TimeBefore(s.sending[0].scheduleTime, t1) then s.sending[0].scheduleTime else t1;
      if s.state != RTS || s.submitted == [] then t2
      else if IsRdAtomic(s.submitted[0].wr.opcode) && s.attr.maxRdAtomic <= s.nrRdAtomic then t2
      else now
  }

  /** The time pib_util_reschedule_qp registers a queue pair for; None if it stays out of the tree. */
  function Due(s: Sq, r: Rq, now: int): Option<int> {
    if RecvOk(r.state) && r.acks != [] && r.nrContigReads < MAX_CONTIG_READ_ACKS then Some(now)
    else if s.state !in {RTS, SQD} then None
    else
      var t := RequesterDue(s, now);
      if (t - now - SCHED_TIMEOUT) % Psn.TWO64 == 0 then None else Some(t)
  }

  /** A queue pair rescheduled at `now` is registered for time `t` or an earlier one. */
  predicate RegisteredBy(s: Sq, r: Rq, now: int, t: int) {
    Due(s, r, now).Some? && Due(s, r, now).value <= t
  }

  /** The clock readings a queue pair remembers are within a quarter of the counter range of `now`. */
  predicate TimesNear(s: Sq, now: int) {
    && (s.waiting != [] ==> -TWO62 < s.waiting[0].localAckTime - now < TWO62)
    && (s.sending != [] ==> -TWO62 < s.sending[0].scheduleTime - now < TWO62)
  }

  const TWO62: int := 0x4000_0000_0000_0000

  // ---------------------------------------------------------------------------
  // Due times against work

  /** The requester does something at time `t`. */
  predicate RequesterWork(s: Sq, t: int, mem: WcStatus) {
    Schedule(s, t, mem) != (s, None)
  }

  /** The responder sends something when it is asked to and finds its memory. */
  predicate ResponderWork(r: Rq) {
    Generate(r, true) != (r, None)
  }

  /** Sending is held back behind the head of sending. */
  predicate Stalled(s: Sq) {
    s.sending != [] && ((s.sending[0].status != Success && s.waiting != []) || MAX_CONTIG_REQUESTS < s.nrContig)
  }

  /** By time `t` a retransmission is due, the head of sending is, or a submitted request is within the READ limit. */
  predicate Armed(s: Sq, t: int) {
    && s.state in {RTS, SQD}
    && (|| (s.waiting != [] && s.waiting[0].localAckTime <= t)
        || (!Stalled(s) && s.sending != [] && s.sending[0].scheduleTime <= t)
        || (!Stalled(s) && s.state == RTS && s.submitted != []
            && (IsRdAtomic(s.submitted[0].wr.opcode) ==> s.nrRdAtomic < s.attr.maxRdAtomic)))
  }

  /** The responder's acknowledges are let into the tree. */
  predicate RepliesRegistered(r: Rq) {
    RecvOk(r.state) && r.acks != [] && r.nrContigReads < MAX_CONTIG_READ_ACKS
  }

  lemma RequesterDueIff(s: Sq, now: int, t: int)
    requires TimesNear(s, now) && now <= t < now + SCHED_TIMEOUT && s.state in {RTS, SQD}
    ensures RequesterDue(s, now) <= t <==> Armed(s, t)
    ensures now - TWO62 < RequesterDue(s, now) <= now + SCHED_TIMEOUT
  {
    var t0 := now + SCHED_TIMEOUT;
    if s.waiting != [] {
      TimeAfterExact(t0, s.waiting[0].localAckTime);
    }
    if s.sending != [] {
      TimeAfterExact(t0, s.sending[0].scheduleTime);
      if s.waiting != [] {
        TimeAfterExact(s.waiting[0].localAckTime, s.sending[0].scheduleTime);
      }
    }
    hide TimeAfter;
  }

  /** The registration of a queue pair, in terms a caller can look up. */
  lemma RegisteredIff(s: Sq, r: Rq, now: int, t: int)
    requires TimesNear(s, now) && now <= t < now + SCHED_TIMEOUT
    ensures RegisteredBy(s, r, now, t) <==> RepliesRegistered(r) || Armed(s, t)
  {
    hide RequesterDue, TimesNear, Stalled;
    if s.state in {RTS, SQD} {
      RequesterDueIff(s, now, t);
    }
  }

  /** The requester acts only when a time has come, or on a request it can start. */
  lemma WorkIsArmed(s: Sq, now: int, t: int, mem: WcStatus)
    requires TimesNear(s, now) && now <= t < now + SCHED_TIMEOUT && RequesterWork(s, t, mem)
    ensures Armed(s, t)
  {
    WorkMeans(s, t, mem);
    if s.waiting != [] {
      TimeAfterExact(s.waiting[0].localAckTime, t);
    }
    if s.sending != [] {
      TimeAfterExact(s.sending[0].scheduleTime, t);
    }
    hide Schedule, TimeAfter;
  }

  lemma WorkMeans(s: Sq, t: int, mem: WcStatus)
    requires RequesterWork(s, t, mem)
    ensures s.state in {RTS, SQD}
    ensures TimedOut(s, t) || HeadReady(s, t) || (s.sending == [] && CanEnqueue(s))
  {
    hide TimeoutRewind, Enqueue, FailHead, Transmit, TimeAfter, CanEnqueue;
  }

  /** What the requester could do at some time before the scheduling horizon is never slept through. */
  lemma RequesterWorkRegistered(s: Sq, r: Rq, now: int, t: int, mem: WcStatus)
    requires TimesNear(s, now) && now <= t < now + SCHED_TIMEOUT && RequesterWork(s, t, mem)
    ensures RegisteredBy(s, r, now, t)
  {
    hide RequesterWork, Armed, RegisteredBy, TimesNear;
    WorkIsArmed(s, now, t, mem);
    RegisteredIff(s, r, now, t);
  }

  /**
    An acknowledge the responder could send is registered if and only if fewer than
    MAX_CONTIG_READ_ACKS RDMA READ responses went out in a row, or the requester is armed anyway.
   */
  lemma ResponderWorkRegisteredIff(s: Sq, r: Rq, now: int, t: int)
    requires TimesNear(s, now) && now <= t < now + SCHED_TIMEOUT && ResponderWork(r)
    ensures RegisteredBy(s, r, now, t) <==> r.nrContigReads < MAX_CONTIG_READ_ACKS || Armed(s, t)
  {
    hide Armed, RegisteredBy, TimesNear, ReadResponse;
    RegisteredIff(s, r, now, t);
  }

  /** When the responder has something to send: the limit holds back RDMA READ responses only, and one later. */
  lemma ResponderWorkIff(r: Rq)
    ensures ResponderWork(r) <==>
      RecvOk(r.state) && r.acks != [] && (r.acks[0].ReadAck? ==> r.nrContigReads <= MAX_CONTIG_READ_ACKS)
  {
    hide ReadResponse;
  }

  /**
    The input on which registration fails: 64 RDMA READ responses have gone out, the congestion
    packets for them were lost, nothing else is queued, and a SEND is acknowledged.  The
    acknowledge could be sent, and the queue pair is not in the tree.
   */
  lemma AcknowledgeLeftOut(s: Sq, r: Rq, psn: int, now: int)
    requires s.waiting == [] && s.sending == [] && s.submitted == []
    requires RecvOk(r.state) && r.acks == [] && r.nrContigReads == MAX_CONTIG_READ_ACKS
    ensures var r' := PushAck(r, psn, SYND_ACK);
      ResponderWork(r') && Due(s, r', now) == None
  {
  }

  /** The same with the next RDMA READ response at the head: the two limits differ by one. */
  lemma ReadResponseLeftOut(s: Sq, r: Rq, now: int)
    requires s.waiting == [] && s.sending == [] && s.submitted == []
    requires RecvOk(r.state) && r.acks != [] && r.acks[0].ReadAck? && r.nrContigReads == MAX_CONTIG_READ_ACKS
    ensures ResponderWork(r) && Due(s, r, now) == None
  {
    ResponderWorkIff(r);
    hide ResponderWork;
  }

  /**
    get_ready_to_send reschedules first and clears the counters after.  What the requester can do
    after it is registered if and only if the counter did not hold sending back before, or an
    acknowledge or a retransmission is due.
   */
  lemma ReadyRegisteredIff(s: Sq, r: Rq, now: int, t: int, mem: WcStatus)
    requires TimesNear(s, now) && now <= t < now + SCHED_TIMEOUT && RequesterWork(GetReady(s), t, mem)
    ensures RegisteredBy(s, r, now, t) <==>
      || s.sending == [] || s.nrContig <= MAX_CONTIG_REQUESTS
      || RepliesRegistered(r) || (s.waiting != [] && s.waiting[0].localAckTime <= t)
  {
    hide RequesterWork, RegisteredBy, RepliesRegistered;
    WorkIsArmed(GetReady(s), now, t, mem);
    RegisteredIff(s, r, now, t);
  }

  /** A post to a sender that stopped at its limit: it could go on at once, and is not in the tree. */
  lemma StoppedSenderLeftOut(s: Sq, r: Rq, now: int)
    requires s.state == RTS && s.waiting == [] && s.sending != [] && MAX_CONTIG_REQUESTS < s.nrContig
    requires s.sending[0].scheduleTime == now && r.acks == []
    ensures HeadReady(GetReady(s), now) && Due(s, r, now) == None
  {
    TimeAfterExact(now, now);
  }

  /**
    An RNR NAK stores the delay itself as the head's schedule time, not the time it ends.  The
    delay is kept from `now` on if and only if the clock still stands at zero.
   */
  lemma RnrDelayKeptIff(s: Sq, now: int, delay: nat)
    requires 0 <= now < TWO62 && 0 < delay < TWO62
    requires Flight(s) != [] && Flight(s)[0].wr.opcode in {WrSend, WrSendImm, WrWriteImm}
    ensures Retry(s, delay).sending != []
    ensures (forall t :: now <= t < now + delay ==> !HeadReady(Retry(s, delay), t)) <==>
      (now == 0 || s.nrContig > MAX_CONTIG_REQUESTS)
  {
    var r := Retry(s, delay);
    assert r.sending[0].scheduleTime == delay;
    assert r.waiting == [] && r.nrContig == s.nrContig;
    forall t | now <= t < now + delay ensures HeadReady(r, t) <==> delay <= t && s.nrContig <= MAX_CONTIG_REQUESTS {
      TimeAfterExact(delay, t);
    }
    if now > 0 {
      var t := now + delay - 1;
      assert HeadReady(r, t) <==> s.nrContig <= MAX_CONTIG_REQUESTS;
    }
  }

  // ---------------------------------------------------------------------------
  // The ordered queue

  datatype Entry = Entry(qp: nat, time: int, tid: int)

  /** The true order: by time, then by registration. */
  predicate Before(a: Entry, b: Entry) {
    a.time < b.time || (a.time == b.time && a.tid < b.tid)
  }

  /** The order the tree descent computes: `a` goes after `b`. */
  predicate GoesLeftOf(b: Entry, a: Entry) {
    if (a.time - b.time) % Psn.TWO64 != 0 then TimeAfter(a.time, b.time) else Signed64(a.tid - b.tid) > 0
  }

  /** Times and registration numbers of two entries are within half their ranges. */
  predicate Comparable(a: Entry, b: Entry) {
    Near(a.time, b.time) && -TWO63 < a.tid - b.tid < TWO63
  }

  lemma DescentComparesExactly(a: Entry, b: Entry)
    requires Comparable(a, b)
    ensures GoesLeftOf(b, a) <==> Before(b, a)
  {
    TimeAfterExact(a.time, b.time);
    var d := a.time - b.time;
    assert d % Psn.TWO64 == 0 <==> d == 0;
  }

  ghost predicate Ordered(q: seq<Entry>) {
    forall i, j :: 0 <= i < j < |q| ==> Before(q[i], q[j])
  }

  /** Where `qp` stands; the length if it does not. */
  function Position(q: seq<Entry>, qp: nat): (p: nat)
    ensures p <= |q| && (p < |q| ==> q[p].qp == qp) && forall i :: 0 <= i < p ==> q[i].qp != qp
  {
    if q == [] then 0 else if q[0].qp == qp then 0 else Position(q[1..], qp) + 1
  }

  function Without(q: seq<Entry>, qp: nat): seq<Entry> {
    var p := Position(q, qp);
    if p < |q| then q[..p] + q[p + 1..] else q
  }

  predicate Queued(q: seq<Entry>, qp: nat) {
    exists i :: 0 <= i < |q| && q[i].qp == qp
  }

  ghost predicate OncePerQp(q: seq<Entry>) {
    forall i, j :: 0 <= i < j < |q| ==> q[i].qp != q[j].qp
  }

  ghost predicate AllComparable(q: seq<Entry>, e: Entry) {
    forall i :: 0 <= i < |q| ==> Comparable(q[i], e)
  }

  /** Erasing keeps the others, in their order. */
  lemma WithoutKeeps(q: seq<Entry>, qp: nat)
    requires Ordered(q) && OncePerQp(q)
    ensures Ordered(Without(q, qp)) && OncePerQp(Without(q, qp))
    ensures forall e :: e in Without(q, qp) <==> e in q && e.qp != qp
    ensures !Queued(q, qp) ==> Without(q, qp) == q
    ensures Without(q, qp) != [] ==> q != [] && q[0].time <= Without(q, qp)[0].time
  {
    var p, w := Position(q, qp), Without(q, qp);
    hide Position;
    forall e ensures e in w <==> e in q && e.qp != qp {
      if e in q && e.qp != qp {
        var i :| 0 <= i < |q| && q[i] == e;
        assert if i < p || p == |q| then w[i] == e else w[i - 1] == e;
      }
    }
  }

  /** `e` stands in `q` with everything before it ordered before it and everything after it after it. */
  lemma InsertKeeps(q: seq<Entry>, e: Entry, k: nat)
    requires k <= |q| && Ordered(q) && OncePerQp(q) && !Queued(q, e.qp)
    requires forall i :: 0 <= i < k ==> Before(q[i], e)
    requires forall i :: k <= i < |q| ==> Before(e, q[i])
    ensures Ordered(q[..k] + [e] + q[k..]) && OncePerQp(q[..k] + [e] + q[k..])
    ensures forall x :: x in q[..k] + [e] + q[k..] <==> x == e || x in q
  {
  }

  function SleepFor(wakeup: int, now: int, hz: nat): nat {
    if wakeup <= now || hz < wakeup - now then hz else wakeup - now
  }

  /**
    A thread that computes its sleep in time wakes by the earliest due time.  One that gets there
    only when the wake-up time has come sleeps its full second, past whatever is due in it.
   */
  lemma SleepsPastIff(wakeup: int, earliest: int, now: int, hz: nat)
    requires hz > 0 && (wakeup <= earliest || wakeup <= now)
    ensures earliest < now + SleepFor(wakeup, now, hz) <==> wakeup <= now && earliest < now + hz
  {
  }

  class QpScheduler {
    var queue: seq<Entry>
    var on: set<nat>
    var masterTid: int
    var wakeup: int
    var scheduleFlag: bool

    /** The tree holds exactly the queue pairs marked on, once each, by time and registration. */
    ghost predicate Valid()
      reads this
    {
      && Ordered(queue) && OncePerQp(queue)
      && (forall qp :: qp in on <==> Queued(queue, qp))
      && forall i :: 0 <= i < |queue| ==> queue[i].tid < masterTid
    }

    /** The thread wakes no later than the earliest due time, or now if that is later. */
    predicate Prompt(now: int)
      reads this
    {
      queue != [] ==> wakeup <= queue[0].time || wakeup <= now
    }

    constructor (now: int)
      ensures Valid() && Prompt(now) && queue == []
    {
      queue, on, masterTid, wakeup, scheduleFlag := [], {}, 0, now, false;
    }

    /** The first half of pib_util_reschedule_qp. */
    method Erase(qp: nat)
      requires Valid()
      modifies `queue, `on
      ensures Valid() && qp !in on && on == old(on) - {qp}
      ensures queue == Without(old(queue), qp)
      ensures forall now :: old(Prompt(now)) ==> Prompt(now)
    {
      hide Ordered, OncePerQp, Position, Without, Queued;
      WithoutKeeps(queue, qp);
      StillQueued(queue, qp);
      assert forall i :: 0 <= i < |Without(queue, qp)| ==> Without(queue, qp)[i] in queue;
      if qp in on {
        on := on - {qp};
        queue := Without(queue, qp);
      }
    }

    /** The descent: halve the part in question at whatever entry the tree has there. */
    method Descend(e: Entry) returns (k: nat)
      requires Valid() && AllComparable(queue, e)
      requires forall i :: 0 <= i < |queue| ==> queue[i].tid != e.tid
      ensures k <= |queue|
      ensures forall i :: 0 <= i < k ==> Before(queue[i], e)
      ensures forall i :: k <= i < |queue| ==> Before(e, queue[i])
    {
      var lo: nat, hi: nat := 0, |queue|;
      while lo < hi
        invariant lo <= hi <= |queue|
        invariant forall i :: 0 <= i < lo ==> Before(queue[i], e)
        invariant forall i :: hi <= i < |queue| ==> Before(e, queue[i])
      {
        var probe: nat :| lo <= probe < hi;
        DescentComparesExactly(queue[probe], e);
        if GoesLeftOf(e, queue[probe]) {
          hi := probe;
        } else {
          lo := probe + 1;
        }
      }
      k := lo;
    }

    /** The second half of pib_util_reschedule_qp: register, note the wake-up time, raise the flag if it has come. */
    method Register(qp: nat, time: int, now: int)
      requires Valid() && qp !in on && AllComparable(queue, Entry(qp, time, masterTid))
      requires Near(time, now) && forall i :: 0 <= i < |queue| ==> Near(queue[i].time, now)
      modifies this
      ensures Valid() && on == old(on) + {qp} && masterTid == old(masterTid) + 1
      ensures forall e :: e in queue <==> e == Entry(qp, time, old(masterTid)) || e in old(queue)
      ensures queue != [] && wakeup == queue[0].time
      ensures scheduleFlag <==> old(scheduleFlag) || wakeup <= now
    {
      var e := Entry(qp, time, masterTid);
      var k := Descend(e);
      hide Before, Comparable;
      InsertKeeps(queue, e, k);
      NowQueued(queue, e, k);
      ghost var before := queue;
      queue := queue[..k] + [e] + queue[k..];
      masterTid := masterTid + 1;
      on := on + {qp};
      assert forall i :: 0 <= i < |queue| ==> queue[i] in queue;
      wakeup := queue[0].time;
      TimeAfterExact(wakeup, now);
      if TimeBeforeEq(wakeup, now) {
        scheduleFlag := true;
      }
    }

    /** pib_util_reschedule_qp, for a queue pair due at `due`. */
    method Reschedule(qp: nat, due: Option<int>, now: int)
      requires Valid()
      requires due.Some? ==>
        && Near(due.value, now)
        && forall i :: 0 <= i < |queue| ==> Near(queue[i].time, now) && Comparable(queue[i], Entry(qp, due.value, masterTid))
      modifies this
      ensures Valid()
      ensures on == (old(on) - {qp}) + (if due.Some? then {qp} else {})
      ensures forall e :: e in queue <==>
        (e in old(queue) && e.qp != qp) || (due.Some? && e == Entry(qp, due.value, old(masterTid)))
      ensures forall t :: t >= now && old(Prompt(t)) ==> Prompt(t)
      ensures due.Some? ==> Prompt(now) && (wakeup <= now ==> scheduleFlag)
    {
      WithoutKeeps(queue, qp);
      Erase(qp);
      hide Ordered, OncePerQp, Position, Without, Queued;
      if due.Some? {
        ghost var q := queue;
        assert forall i :: 0 <= i < |q| ==> q[i] in old(queue);
        Register(qp, due.value, now);
      }
    }

    /** A queue pair rescheduled at `now` and armed for time `t` is queued, and the thread is to wake by `t`. */
    lemma WakesForWork(s: Sq, r: Rq, e: Entry, now: int, t: int)
      requires Valid() && Prompt(now) && TimesNear(s, now) && now <= t < now + SCHED_TIMEOUT
      requires Due(s, r, now).Some? ==> e in queue && e.time == Due(s, r, now).value
      requires RepliesRegistered(r) || Armed(s, t)
      ensures e.qp in on && wakeup <= t
    {
      hide Due, TimesNear, RepliesRegistered, Armed;
      RegisteredIff(s, r, now, t);
      assert Queued(queue, e.qp);
    }

    /** pib_util_get_first_scheduling_qp: a queue pair that no other one goes before. */
    method First() returns (first: Option<nat>)
      requires Valid()
      ensures first.None? <==> on == {}
      ensures first.Some? ==>
        && first.value in on && queue[0].qp == first.value
        && forall i :: 0 < i < |queue| ==> Before(queue[0], queue[i])
    {
      if queue == [] {
        return None;
      }
      assert Queued(queue, queue[0].qp);
      return Some(queue[0].qp);
    }

    /** How long the worker thread sleeps at the top of its loop. */
    method Sleep(now: int, hz: nat) returns (timeout: nat)
      requires Valid() && Prompt(now) && Near(wakeup, now)
      modifies `wakeup
      ensures Prompt(now) && timeout == SleepFor(old(wakeup), now, hz)
    {
      TimeAfterExact(wakeup, now);
      timeout := hz;
      if TimeAfter(wakeup, now) {
        timeout := wakeup - now;
      } else {
        wakeup := now;
      }
      if hz < timeout {
        timeout := hz;
      }
    }
  }

  lemma StillQueued(q: seq<Entry>, qp: nat)
    requires Ordered(q) && OncePerQp(q)
    ensures forall other :: Queued(Without(q, qp), other) <==> Queued(q, other) && other != qp
  {
    hide Position, Without;
    WithoutKeeps(q, qp);
    var w := Without(q, qp);
    forall other ensures Queued(w, other) <==> Queued(q, other) && other != qp {
      if Queued(w, other) {
        var i :| 0 <= i < |w| && w[i].qp == other;
        assert w[i] in q;
      }
      if Queued(q, other) && other != qp {
        var i :| 0 <= i < |q| && q[i].qp == other;
        assert q[i] in w;
      }
    }
  }

  lemma NowQueued(q: seq<Entry>, e: Entry, k: nat)
    requires k <= |q|
    ensures forall qp :: Queued(q[..k] + [e] + q[k..], qp) <==> qp == e.qp || Queued(q, qp)
  {
    var w := q[..k] + [e] + q[k..];
    assert w[k] == e;
    forall qp ensures Queued(w, qp) <==> qp == e.qp || Queued(q, qp) {
      if Queued(q, qp) {
        var i :| 0 <= i < |q| && q[i].qp == qp;
        assert if i < k then w[i] == q[i] else w[i + 1] == q[i];
      }
      if Queued(w, qp) && qp != e.qp {
        var i :| 0 <= i < |w| && w[i].qp == qp;
        assert if i < k then w[i] == q[i] else w[i] == q[i - 1];
      }
    }
  }
}
