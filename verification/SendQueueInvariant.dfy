/**
  What every operation of the requester keeps, for every response packet whatever it says.
 */
module SendQueueInvariant {
  import opened Psn
  import opened WorkRequest
  import opened SendQueue

  // ---------------------------------------------------------------------------
  // The invariant

  /** Counters agree with the lists, no entry is lost, and an error state has nothing queued. */
  ghost predicate Counted(s: Sq) {
    && s.nrSubmitted == |s.submitted|
    && s.nrSending == |s.sending|
    && s.nrWaiting == |s.waiting|
    && s.free >= 0
    && |s.submitted| + |s.sending| + |s.waiting| + s.free == s.attr.capacity
    && (s.state in {ERR, SQE} ==> s.submitted == [] && s.sending == [] && s.waiting == [])
  }

  function EntryWrs(q: seq<Swqe>): seq<Wr> {
    seq(|q|, i requires 0 <= i < |q| => q[i].wr)
  }
  function RetiredWrs(recs: seq<Retired>): seq<Wr> {
    seq(|recs|, i requires 0 <= i < |recs| => recs[i].wr)
  }

  /** Every entry in use, oldest first. */
  function Queued(s: Sq): seq<Swqe> {
    Flight(s) + s.submitted
  }

  /** Every accepted request is retired or in one of the lists, in the order of posting. */
  ghost predicate Conserved(s: Sq) {
    && s.accepted == RetiredWrs(s.retired) + EntryWrs(Queued(s))
    && s.cq == Reports(s.attr, s.retired)
  }

  ghost predicate EntryOk(attr: Attr, e: Swqe) {
    && ItemOk(attr.mtu, ItemOf(e))
    && e.wr.length <= MAX_PAYLOAD_LEN
    && e.expected == e.base + e.all
    && 0 <= e.ack < e.all
    && (e.wr.opcode == WrRead ==> e.sent == e.ack)
    && -1 <= e.retryCnt
    && e.retryCnt + e.timeouts == attr.retryCnt
    && (if attr.rnrRetry < 7 then e.rnrRetry + e.rnrs == attr.rnrRetry else e.rnrRetry == attr.rnrRetry)
  }
  ghost predicate SendingOk(e: Swqe) {
    0 <= e.sent < e.all
  }
  ghost predicate WaitingOk(e: Swqe) {
    && e.retryCnt >= 0 && e.rnrRetry >= 0
    && (e.wr.opcode != WrRead ==> e.sent == e.all)
  }

  ghost predicate FlightOk(s: Sq) {
    && (forall i :: 0 <= i < |s.waiting| ==> EntryOk(s.attr, s.waiting[i]) && WaitingOk(s.waiting[i]))
    && (forall i :: 0 <= i < |s.sending| ==> EntryOk(s.attr, s.sending[i]) && SendingOk(s.sending[i]))
  }

  ghost predicate SubmittedOk(s: Sq) {
    forall i :: 0 <= i < |s.submitted| ==>
      && s.submitted[i].status == Success
      && s.submitted[i].wr.length <= MAX_PAYLOAD_LEN
      && (IsAtomic(s.submitted[i].wr.opcode) ==> s.submitted[i].wr.length == 8)
  }

  function CountRd(q: seq<Swqe>): nat {
    if q == [] then 0
    else CountRd(q[..|q| - 1]) + if IsRdAtomic(q[|q| - 1].wr.opcode) then 1 else 0
  }

  /** nr_rd_atomic counts the RDMA READs and atomics in flight and respects the limit. */
  ghost predicate RdCounted(s: Sq) {
    s.nrRdAtomic == CountRd(Flight(s)) <= s.attr.maxRdAtomic
  }

  /** No fenced request is in flight behind an RDMA READ or atomic. */
  ghost predicate Fenced(q: seq<Swqe>) {
    forall i, j :: 0 <= i < j < |q| && q[j].wr.fence ==> !IsRdAtomic(q[i].wr.opcode)
  }

  /** `q` holds the latest items of `plan`. */
  ghost predicate EndsPlan(plan: seq<Item>, q: seq<Swqe>) {
    && |q| <= |plan|
    && forall i :: 0 <= i < |q| ==> plan[|plan| - |q| + i] == ItemOf(q[i])
  }

  /** The requests in flight are the latest ones that were given PSNs. */
  ghost predicate Planned(s: Sq) {
    && |s.plan| <= |s.accepted|
    && (forall i :: 0 <= i < |s.plan| ==> s.plan[i].wr == s.accepted[i])
    && (s.state !in {ERR, SQE} ==> |s.plan| == |s.retired| + |Flight(s)|)
    && EndsPlan(s.plan, Flight(s))
  }

  /** The ranges of `plan` follow each other from `origin` to `end` without gap or overlap. */
  ghost predicate Tiles(plan: seq<Item>, origin: int, end: int) {
    if plan == [] then origin == end
    else
      && plan[0].base == origin
      && (forall i, j :: 0 <= i < j < |plan| && j == i + 1 ==> plan[j].base == plan[i].End())
      && plan[|plan| - 1].End() == end
  }

  ghost predicate PlanTiled(s: Sq) {
    && (forall i :: 0 <= i < |s.plan| ==> ItemOk(s.attr.mtu, s.plan[i]) && s.plan[i].wr.length <= MAX_PAYLOAD_LEN)
    && Tiles(s.plan, s.attr.origin, s.expectedPsn)
  }

  ghost predicate Inv(s: Sq) {
    && Counted(s)
    && Conserved(s)
    && FlightOk(s)
    && SubmittedOk(s)
    && RdCounted(s)
    && Fenced(Flight(s))
    && Planned(s)
    && PlanTiled(s)
  }

  // ---------------------------------------------------------------------------
  // Counting and reporting over joined lists

  lemma {:induction false} CountRdJoin(a: seq<Swqe>, b: seq<Swqe>)
    ensures CountRd(a + b) == CountRd(a) + CountRd(b)
  {
    if b == [] {
      assert a + b == a;
    } else {
      CountRdJoin(a, b[..|b| - 1]);
      assert (a + b)[..|a + b| - 1] == a + b[..|b| - 1];
    }
  }

  lemma {:induction false} CountRdSame(a: seq<Swqe>, b: seq<Swqe>)
    requires |a| == |b| && forall i :: 0 <= i < |a| ==> a[i].wr.opcode == b[i].wr.opcode
    ensures CountRd(a) == CountRd(b)
  {
    if a != [] {
      CountRdSame(a[..|a| - 1], b[..|b| - 1]);
    }
  }

  lemma {:induction false} CountRdNone(q: seq<Swqe>)
    requires CountRd(q) == 0
    ensures forall i :: 0 <= i < |q| ==> !IsRdAtomic(q[i].wr.opcode)
  {
    if q != [] {
      CountRdNone(q[..|q| - 1]);
    }
  }

  lemma {:induction false} CountRdZero(q: seq<Swqe>)
    requires forall i :: 0 <= i < |q| ==> !IsRdAtomic(q[i].wr.opcode)
    ensures CountRd(q) == 0
  {
    if q != [] {
      CountRdZero(q[..|q| - 1]);
    }
  }

  lemma {:induction false} ReportsJoin(attr: Attr, a: seq<Retired>, b: seq<Retired>)
    ensures Reports(attr, a + b) == Reports(attr, a) + Reports(attr, b)
  {
    if b == [] {
      assert a + b == a;
    } else {
      ReportsJoin(attr, a, b[..|b| - 1]);
      assert (a + b)[..|a + b| - 1] == a + b[..|b| - 1];
    }
  }

  // ---------------------------------------------------------------------------
  // Building blocks

  /** The same requests with the same PSNs; progress, times and status may differ. */
  ghost predicate SameShape(a: seq<Swqe>, b: seq<Swqe>) {
    |a| == |b| && forall i :: 0 <= i < |a| ==> ItemOf(a[i]) == ItemOf(b[i])
  }

  lemma ReshapeList(plan: seq<Item>, a: seq<Swqe>, b: seq<Swqe>)
    requires SameShape(a, b)
    ensures EntryWrs(a) == EntryWrs(b)
    ensures CountRd(a) == CountRd(b)
    ensures Fenced(a) ==> Fenced(b)
    ensures EndsPlan(plan, a) ==> EndsPlan(plan, b)
  {
    forall i | 0 <= i < |a| ensures a[i].wr == b[i].wr {
      assert ItemOf(a[i]) == ItemOf(b[i]);
    }
    assert EntryWrs(a) == EntryWrs(b);
    CountRdSame(a, b);
  }

  lemma SameShapeJoin(a: seq<Swqe>, b: seq<Swqe>, c: seq<Swqe>)
    requires SameShape(a, b)
    ensures SameShape(a + c, b + c)
  {
  }

  /** `t` is `s` with other progress, times and status in its lists. */
  ghost predicate Reshaped(s: Sq, t: Sq) {
    && SameShape(Flight(s), Flight(t))
    && s.submitted == t.submitted
    && t == s.(waiting := t.waiting, nrWaiting := t.nrWaiting, sending := t.sending, nrSending := t.nrSending,
               nrContig := t.nrContig, nrContigReads := t.nrContigReads, cnps := t.cnps, psn := t.psn)
  }

  lemma ReshapeParts(s: Sq, t: Sq)
    requires Reshaped(s, t)
    ensures Conserved(s) ==> Conserved(t)
    ensures RdCounted(s) ==> RdCounted(t)
    ensures Fenced(Flight(s)) ==> Fenced(Flight(t))
    ensures Planned(s) ==> Planned(t)
    ensures PlanTiled(s) ==> PlanTiled(t)
    ensures SubmittedOk(s) ==> SubmittedOk(t)
  {
    ReshapeList(s.plan, Flight(s), Flight(t));
    SameShapeJoin(Flight(s), Flight(t), s.submitted);
    ReshapeList(s.plan, Queued(s), Queued(t));
  }

  lemma ReshapeKeeps(s: Sq, t: Sq)
    requires Inv(s) && Reshaped(s, t)
    requires Counted(t) && FlightOk(t)
    ensures Inv(t)
  {
    hide Conserved, RdCounted, Fenced, Planned, PlanTiled, SubmittedOk, Counted, FlightOk;
    ReshapeParts(s, t);
  }

  /** Changing an entry in flight without touching its request or its PSNs. */
  lemma SetFlightKeeps(s: Sq, i: nat, e: Swqe)
    requires Inv(s) && i < |Flight(s)|
    requires ItemOf(e) == ItemOf(Flight(s)[i]) && EntryOk(s.attr, e)
    requires if i < |s.waiting| then WaitingOk(e) else SendingOk(e)
    ensures Inv(SetFlight(s, i, e)) && Flight(SetFlight(s, i, e)) == Flight(s)[i := e]
  {
    hide Conserved, RdCounted, Fenced, Planned, PlanTiled, SubmittedOk, EntryOk;
    var t := SetFlight(s, i, e);
    assert Flight(t) == Flight(s)[i := e];
    assert Reshaped(s, t);
    ReshapeKeeps(s, t);
  }

  lemma RewindKeeps(s: Sq)
    requires Inv(s)
    ensures Inv(Rewind(s))
  {
    hide Inv, Unsend, EntryOk, SendingOk, Counted, FlightOk, SameShape;
    RewindLists(s);
    RewindFlight(s);
    ReshapeKeeps(s, Rewind(s));
  }

  lemma RewindLists(s: Sq)
    requires Inv(s)
    ensures Counted(Rewind(s)) && Reshaped(s, Rewind(s))
  {
    hide Conserved, RdCounted, Fenced, Planned, PlanTiled, SubmittedOk, FlightOk;
    assert Flight(Rewind(s)) == Unsend(Flight(s));
  }

  /** An entry with its sent packets taken back can be sent again. */
  lemma UnsentOk(attr: Attr, e: Swqe)
    requires EntryOk(attr, e)
    ensures var e' := e.(sent := e.ack); EntryOk(attr, e') && SendingOk(e')
  {
    hide ItemOk;
  }

  lemma RewindFlight(s: Sq)
    requires Inv(s)
    ensures FlightOk(Rewind(s))
  {
    hide Conserved, RdCounted, Fenced, Planned, PlanTiled, SubmittedOk, Counted, EntryOk, SendingOk, WaitingOk;
    var q := Flight(s);
    forall i | 0 <= i < |q| ensures EntryOk(s.attr, Unsend(q)[i]) && SendingOk(Unsend(q)[i]) {
      assert if i < |s.waiting| then q[i] == s.waiting[i] else q[i] == s.sending[i - |s.waiting|];
      UnsentOk(s.attr, q[i]);
    }
  }

  lemma PostponeKeeps(s: Sq, now: int)
    requires Inv(s)
    ensures Inv(Postpone(s, now))
  {
    hide Conserved, RdCounted, Fenced, Planned, PlanTiled, SubmittedOk;
    assert Reshaped(s, Postpone(s, now));
    ReshapeKeeps(s, Postpone(s, now));
  }

  /** Retiring a prefix of the requests in flight. */
  function Retire(s: Sq, k: nat, status: WcStatus): Sq
    requires k <= |Flight(s)|
  {
    Complete(DropFlight(s, k), Flight(s)[..k], status).(nrRdAtomic := s.nrRdAtomic - CountRd(Flight(s)[..k]))
  }

  lemma LedgerMoves(recs: seq<Retired>, q: seq<Swqe>, k: nat, status: WcStatus)
    requires k <= |q|
    ensures RetiredWrs(recs + Records(q[..k], status)) + EntryWrs(q[k..]) == RetiredWrs(recs) + EntryWrs(q)
  {
  }

  lemma DropFlightTail(s: Sq, k: nat)
    requires k <= |Flight(s)|
    ensures Flight(DropFlight(s, k)) == Flight(s)[k..]
    ensures Queued(DropFlight(s, k)) == Queued(s)[k..]
    ensures Queued(s)[..k] == Flight(s)[..k]
  {
    assert Flight(DropFlight(s, k)) == Flight(s)[k..];
  }

  lemma DropFlightOk(s: Sq, k: nat)
    requires FlightOk(s) && k <= |Flight(s)|
    ensures FlightOk(DropFlight(s, k))
  {
    hide EntryOk, WaitingOk, SendingOk;
    var s' := DropFlight(s, k);
    forall i | 0 <= i < |s'.waiting| ensures EntryOk(s.attr, s'.waiting[i]) && WaitingOk(s'.waiting[i]) {
      assert s'.waiting[i] == s.waiting[k + i];
    }
    forall i | 0 <= i < |s'.sending| ensures EntryOk(s.attr, s'.sending[i]) && SendingOk(s'.sending[i]) {
      assert s'.sending[i] == s.sending[|s.sending| - |s'.sending| + i];
    }
  }

  lemma RetireConserves(s: Sq, k: nat, status: WcStatus)
    requires Conserved(s) && k <= |Flight(s)|
    ensures Conserved(Retire(s, k, status))
  {
    DropFlightTail(s, k);
    LedgerMoves(s.retired, Queued(s), k, status);
    ReportsJoin(s.attr, s.retired, Records(Flight(s)[..k], status));
  }

  lemma TailList(plan: seq<Item>, q: seq<Swqe>, k: nat)
    requires k <= |q|
    ensures Fenced(q) ==> Fenced(q[k..])
    ensures EndsPlan(plan, q) ==> EndsPlan(plan, q[k..])
    ensures CountRd(q) == CountRd(q[..k]) + CountRd(q[k..])
  {
    TailOrder(plan, q, k);
    hide Fenced, EndsPlan, CountRd;
    assert q == q[..k] + q[k..];
    CountRdJoin(q[..k], q[k..]);
  }

  lemma TailOrder(plan: seq<Item>, q: seq<Swqe>, k: nat)
    requires k <= |q|
    ensures Fenced(q) ==> Fenced(q[k..])
    ensures EndsPlan(plan, q) ==> EndsPlan(plan, q[k..])
  {
    hide IsRdAtomic, ItemOf;
  }

  lemma RetireParts(s: Sq, k: nat, status: WcStatus)
    requires k <= |Flight(s)|
    ensures var t := Retire(s, k, status);
      && (Counted(s) ==> Counted(t))
      && (FlightOk(s) ==> FlightOk(t))
      && (SubmittedOk(s) ==> SubmittedOk(t))
      && (PlanTiled(s) ==> PlanTiled(t))
  {
    if FlightOk(s) {
      DropFlightOk(s, k);
    }
    hide EntryOk, Tiles;
  }

  lemma RetireKeeps(s: Sq, k: nat, status: WcStatus)
    requires Inv(s) && k <= |Flight(s)|
    ensures Inv(Retire(s, k, status))
  {
    hide Conserved, FlightOk, SubmittedOk, PlanTiled, Counted, Fenced, EndsPlan, CountRd;
    DropFlightTail(s, k);
    RetireConserves(s, k, status);
    RetireParts(s, k, status);
    TailList(s.plan, Flight(s), k);
  }

  lemma FlushConserves(s: Sq)
    requires Conserved(s)
    ensures Conserved(Flush(s))
  {
    var q := Queued(s);
    assert q[..|q|] == q;
    LedgerMoves(s.retired, q, |q|, WrFlushErr);
    ReportsJoin(s.attr, s.retired, Records(q, WrFlushErr));
  }

  /** Flushing while entering ERR. */
  lemma FlushKeeps(s: Sq)
    requires Inv(s)
    ensures Inv(Flush(s.(state := ERR)))
  {
    var t := s.(state := ERR);
    assert Queued(t) == Queued(s);
    FlushConserves(t);
    assert Flight(Flush(t)) == [];
  }

  lemma FailHeadKeeps(s: Sq, status: WcStatus)
    requires Inv(s) && Flight(s) != []
    ensures Inv(FailHead(s, status))
  {
    hide Inv, Records, Reports, CountRd, DropFlight;
    var s1 := Retire(s, 1, status);
    RetireKeeps(s, 1, status);
    FlushKeeps(s1);
    assert FailHead(s, status) == Flush(s1.(state := ERR));
  }

  /** Fields outside the invariant. */
  lemma SideFieldsKeep(s: Sq, psn: int, contig: int)
    requires Inv(s)
    ensures Inv(s.(psn := psn, nrContig := contig))
  {
    hide Conserved, RdCounted, Fenced, Planned, PlanTiled, SubmittedOk;
    ReshapeKeeps(s, s.(psn := psn, nrContig := contig));
  }

  /** The counters of flow control. */
  lemma FlowKeeps(s: Sq)
    requires Inv(s)
    ensures Inv(GetReady(s)) && Inv(CountRead(s))
  {
    hide Conserved, RdCounted, Fenced, Planned, PlanTiled, SubmittedOk;
    ReshapeKeeps(s, GetReady(s));
    ReshapeKeeps(s, CountRead(s));
  }

  // ---------------------------------------------------------------------------
  // Posting and enqueueing

  lemma AppendLedger(recs: seq<Retired>, q: seq<Swqe>, e: Swqe)
    ensures EntryWrs(q + [e]) == EntryWrs(q) + [e.wr]
    ensures RetiredWrs(recs) + EntryWrs(q + [e]) == (RetiredWrs(recs) + EntryWrs(q)) + [e.wr]
  {
    assert EntryWrs(q + [e]) == EntryWrs(q) + [e.wr];
  }

  lemma PostQueuedKeeps(s: Sq, e: Swqe)
    requires Inv(s) && s.state !in {ERR, SQE} && s.free > 0
    requires e.status == Success && e.wr.length <= MAX_PAYLOAD_LEN && (IsAtomic(e.wr.opcode) ==> e.wr.length == 8)
    ensures Inv(s.(free := s.free - 1, submitted := s.submitted + [e],
                   nrSubmitted := s.nrSubmitted + 1, accepted := s.accepted + [e.wr]))
  {
    hide CountRd, Fenced, EntryOk, Tiles, Reports;
    var t := s.(free := s.free - 1, submitted := s.submitted + [e],
                nrSubmitted := s.nrSubmitted + 1, accepted := s.accepted + [e.wr]);
    assert Queued(t) == Queued(s) + [e];
    AppendLedger(s.retired, Queued(s), e);
    assert Flight(t) == Flight(s);
  }

  /** Posting to a queue pair in error completes at once. */
  lemma PostFlushedKeeps(s: Sq, wr: Wr)
    requires Inv(s) && s.state in {ERR, SQE}
    ensures Inv(Complete(s, [FreshEntry(wr)], WrFlushErr).(free := s.free, accepted := s.accepted + [wr]))
  {
    hide EntryOk, Tiles, Conserved, Records, Reports;
    PostFlushedConserves(s, wr);
    assert Flight(s) == [];
  }

  lemma PostFlushedConserves(s: Sq, wr: Wr)
    requires Conserved(s) && Queued(s) == []
    ensures Conserved(Complete(s, [FreshEntry(wr)], WrFlushErr).(free := s.free, accepted := s.accepted + [wr]))
  {
    hide Reports, FreshEntry;
    var recs := Records([FreshEntry(wr)], WrFlushErr);
    ReportsJoin(s.attr, s.retired, recs);
    LedgerAppends(s.retired, wr);
    var t := Complete(s, [FreshEntry(wr)], WrFlushErr).(free := s.free, accepted := s.accepted + [wr]);
    assert Queued(t) == [];
  }

  lemma LedgerAppends(recs: seq<Retired>, wr: Wr)
    ensures RetiredWrs(recs + Records([FreshEntry(wr)], WrFlushErr)) == RetiredWrs(recs) + [wr]
  {
  }

  lemma PostOneKeeps(s: Sq, wr: Wr, carry: nat)
    requires Inv(s)
    ensures Inv(PostOne(s, wr, carry).0)
  {
    hide Conserved, FlightOk, RdCounted, Fenced, Planned, PlanTiled, SubmittedOk;
    var total := RecordedLength(wr, carry);
    if s.state in {ERR, SQE} {
      PostFlushedKeeps(s, wr);
    } else if s.free > 0 && total <= MAX_PAYLOAD_LEN {
      PostQueuedKeeps(s, FreshEntry(wr.(length := total)));
    }
  }

  lemma {:induction false} PostChainKeeps(s: Sq, wrs: seq<Wr>, carry: nat)
    requires Inv(s)
    ensures Inv(PostChain(s, wrs, carry).0)
    decreases |wrs|
  {
    hide Inv, PostOne;
    if wrs != [] {
      PostOneKeeps(s, wrs[0], carry);
      var (s', carry', r) := PostOne(s, wrs[0], carry);
      PostChainKeeps(s', wrs[1..], carry');
    }
  }

  lemma PostSendKeeps(s: Sq, wrs: seq<Wr>)
    requires Inv(s)
    ensures Inv(PostSend(s, wrs).0)
  {
    hide Inv, PostChain, GetReady;
    PostChainKeeps(s, wrs, 0);
    FlowKeeps(PostChain(s, wrs, 0).0);
  }

  lemma EightBytesOnePacket(mtu: Mtu)
    ensures NumPackets(mtu, 8) == 1
  {
    assert 7 / mtu == 0;
  }

  lemma {:induction false} TilesExtend(plan: seq<Item>, origin: int, end: int, item: Item)
    requires Tiles(plan, origin, end) && item.base == end
    ensures Tiles(plan + [item], origin, item.End())
  {
  }

  lemma FenceExtend(q: seq<Swqe>, e: Swqe)
    requires Fenced(q) && (e.wr.fence ==> CountRd(q) == 0)
    ensures Fenced(q + [e])
  {
    if e.wr.fence {
      CountRdNone(q);
    }
  }

  /** Giving the oldest submitted request its PSNs. */
  lemma EnqueueParts(s: Sq, now: int)
    requires Inv(s) && CanEnqueue(s)
    ensures var t := Enqueue(s, now);
      && Flight(t) == Flight(s) + [t.sending[|s.sending|]]
      && Counted(t) && Conserved(t) && SubmittedOk(t) && PlanTiled(t)
  {
    hide RdCounted, Fenced, EntryOk, Reports, Conserved, PlanTiled, FlightOk, Planned, NumPackets;
    var t := Enqueue(s, now);
    assert Flight(t) == Flight(s) + [t.sending[|s.sending|]];
    EnqueueConserves(s, now);
    EnqueueTiles(s, now);
  }

  lemma EnqueueConserves(s: Sq, now: int)
    requires Conserved(s) && CanEnqueue(s)
    ensures Conserved(Enqueue(s, now))
  {
    hide Reports, NumPackets, EntryWrs;
    var t := Enqueue(s, now);
    var e, e' := s.submitted[0], t.sending[|s.sending|];
    assert Queued(s) == Flight(s) + [e] + s.submitted[1..];
    assert Queued(t) == Flight(s) + [e'] + s.submitted[1..];
    SameWrs(Queued(s), Queued(t));
  }

  lemma EnqueueTiles(s: Sq, now: int)
    requires Inv(s) && CanEnqueue(s)
    ensures PlanTiled(Enqueue(s, now))
  {
    hide Counted, Conserved, FlightOk, RdCounted, Fenced, Planned, NumPackets, Tiles;
    var e := s.submitted[0];
    if IsAtomic(e.wr.opcode) {
      EightBytesOnePacket(s.attr.mtu);
    }
    var n := NumPackets(s.attr.mtu, e.wr.length);
    TilesExtend(s.plan, s.attr.origin, s.expectedPsn, Item(e.wr, s.expectedPsn, n));
  }

  ghost predicate SameRequests(a: seq<Swqe>, b: seq<Swqe>) {
    |a| == |b| && forall i :: 0 <= i < |a| ==> a[i].wr == b[i].wr
  }

  lemma SameWrs(a: seq<Swqe>, b: seq<Swqe>)
    requires SameRequests(a, b)
    ensures EntryWrs(a) == EntryWrs(b)
  {
  }

  lemma EnqueuePlanned(s: Sq, now: int)
    requires Inv(s) && CanEnqueue(s)
    ensures Planned(Enqueue(s, now))
  {
    hide RdCounted, Fenced, EntryOk, Reports, Tiles;
    var t := Enqueue(s, now);
    assert Flight(t) == Flight(s) + [t.sending[|s.sending|]];
    var n := |s.plan|;
    assert s.accepted[n] == s.submitted[0].wr by {
      var q := Queued(s);
      assert q[|Flight(s)|] == s.submitted[0];
      assert |RetiredWrs(s.retired)| + |Flight(s)| == n;
      assert EntryWrs(q)[|Flight(s)|] == s.submitted[0].wr;
    }
    assert |s.accepted| == |s.retired| + |Queued(s)|;
  }

  lemma EnqueueRdCounted(s: Sq, now: int)
    requires Inv(s) && CanEnqueue(s)
    ensures RdCounted(Enqueue(s, now)) && Fenced(Flight(Enqueue(s, now)))
  {
    hide Conserved, Planned, PlanTiled, SubmittedOk, FlightOk;
    var t := Enqueue(s, now);
    var e' := t.sending[|s.sending|];
    assert Flight(t) == Flight(s) + [e'];
    FenceExtend(Flight(s), e');
    CountRdJoin(Flight(s), [e']);
    assert [e'][..0] == [];
    assert CountRd([e']) == if IsRdAtomic(e'.wr.opcode) then 1 else 0;
  }

  lemma EnqueueFlightOk(s: Sq, now: int)
    requires Inv(s) && CanEnqueue(s)
    ensures FlightOk(Enqueue(s, now))
  {
    hide Conserved, Planned, PlanTiled, RdCounted, Fenced;
    if IsAtomic(s.submitted[0].wr.opcode) {
      EightBytesOnePacket(s.attr.mtu);
    }
  }

  lemma EnqueueKeeps(s: Sq, now: int)
    requires Inv(s) && CanEnqueue(s)
    ensures Inv(Enqueue(s, now))
  {
    EnqueueParts(s, now);
    EnqueuePlanned(s, now);
    EnqueueRdCounted(s, now);
    EnqueueFlightOk(s, now);
    hide Conserved, Planned, PlanTiled, SubmittedOk, Fenced, Counted, FlightOk, RdCounted;
  }

  // ---------------------------------------------------------------------------
  // Sending

  lemma TimeoutRewindKeeps(s: Sq, now: int)
    requires Inv(s) && s.waiting != []
    ensures Inv(TimeoutRewind(s, now))
  {
    hide Conserved, RdCounted, Fenced, Planned, PlanTiled, SubmittedOk;
    var t := TimeoutRewind(s, now);
    assert SameShape(Flight(s), Flight(t)) by {
      assert |Flight(t)| == |Flight(s)|;
    }
    ReshapeKeeps(s, t);
  }

  lemma PrepareKeeps(s: Sq, now: int)
    requires Inv(s)
    ensures Inv(Prepare(s, now))
  {
    hide Inv, Enqueue, TimeoutRewind, CanEnqueue;
    if TimedOut(s, now) {
      TimeoutRewindKeeps(s, now);
    }
    var s1 := if TimedOut(s, now) then TimeoutRewind(s, now) else s;
    if s1.sending == [] && CanEnqueue(s1) {
      EnqueueKeeps(s1, now);
    }
  }

  /** The head of sending goes to the end of waiting. */
  lemma MoveHeadKeeps(s: Sq, e: Swqe, contig: int)
    requires Inv(s) && s.sending != []
    requires ItemOf(e) == ItemOf(s.sending[0]) && EntryOk(s.attr, e) && WaitingOk(e)
    ensures Inv(s.(sending := s.sending[1..], nrSending := s.nrSending - 1,
                   waiting := s.waiting + [e], nrWaiting := s.nrWaiting + 1, nrContig := contig))
  {
    hide Conserved, RdCounted, Fenced, Planned, PlanTiled, SubmittedOk, EntryOk;
    var t := s.(sending := s.sending[1..], nrSending := s.nrSending - 1,
                waiting := s.waiting + [e], nrWaiting := s.nrWaiting + 1, nrContig := contig);
    assert Flight(t) == Flight(s)[|s.waiting| := e];
    ReshapeKeeps(s, t);
  }

  lemma SetHeadKeeps(s: Sq, e: Swqe, contig: int)
    requires Inv(s) && s.sending != []
    requires ItemOf(e) == ItemOf(s.sending[0]) && EntryOk(s.attr, e) && SendingOk(e)
    ensures Inv(s.(sending := s.sending[0 := e], nrContig := contig))
  {
    hide Inv;
    SetFlightKeeps(s, |s.waiting|, e);
    SideFieldsKeep(SetFlight(s, |s.waiting|, e), s.psn, contig);
  }

  lemma TransmitKeeps(s: Sq, now: int, mem: WcStatus)
    requires Inv(s) && s.sending != []
    ensures Inv(Transmit(s, now, mem).0)
  {
    hide Conserved, RdCounted, Fenced, Planned, PlanTiled, SubmittedOk, Counted;
    var e := s.sending[0];
    var status := SendStatus(s.attr, e, mem);
    var contig := if RestartsContig(e) then 0 else s.nrContig;
    if status != Success {
      SetHeadKeeps(s, e.(status := status), contig);
    } else if e.wr.opcode == WrRead {
      MoveHeadKeeps(s, e.(localAckTime := now + s.attr.ackTimeout), contig);
    } else if e.sent + 1 < e.all {
      SetHeadKeeps(s, e.(sent := e.sent + 1), contig + 1);
    } else {
      MoveHeadKeeps(s, e.(sent := e.sent + 1, localAckTime := now + s.attr.ackTimeout), contig + 1);
    }
  }

  lemma HeadSound(s: Sq)
    requires Inv(s) && s.sending != []
    ensures EntryOk(s.attr, s.sending[0]) && SendingOk(s.sending[0])
  {
    hide Conserved, RdCounted, Fenced, Planned, PlanTiled, SubmittedOk, Counted;
  }

  lemma ScheduleKeeps(s: Sq, now: int, mem: WcStatus)
    requires Inv(s)
    ensures Inv(Schedule(s, now, mem).0)
  {
    hide Inv, Prepare, Transmit, FailHead;
    var s1 := Prepare(s, now);
    PrepareKeeps(s, now);
    if s.state in {RTS, SQD} && HeadReady(s1, now) {
      var e := s1.sending[0].(scheduleTime := now);
      var s2 := s1.(sending := s1.sending[0 := e]);
      HeadSound(s1);
      SetHeadKeeps(s1, e, s1.nrContig);
      if e.status != Success {
        FailHeadKeeps(s2, e.status);
      } else {
        TransmitKeeps(s2, now, mem);
      }
    }
  }

  // ---------------------------------------------------------------------------
  // Responses

  lemma {:induction false} AckRunJudged(q: seq<Swqe>, psn: int)
    ensures forall i :: 0 <= i < AckRun(q, psn) ==> JudgeAck(q[i], psn).0 == Completed
    ensures AckRun(q, psn) < |q| ==> JudgeAck(q[AckRun(q, psn)], psn).0 != Completed
  {
    if q != [] && JudgeAck(q[0], psn).0 == Completed {
      AckRunJudged(q[1..], psn);
      forall i | 0 <= i < AckRun(q, psn) ensures JudgeAck(q[i], psn).0 == Completed {
        if i > 0 { assert q[i] == q[1..][i - 1]; }
      }
    }
  }

  lemma CompleteRunKeeps(s: Sq, psn: int)
    requires Inv(s)
    ensures Inv(CompleteRun(s, AckRun(Flight(s), psn)))
  {
    hide Inv;
    var q := Flight(s);
    var k := AckRun(q, psn);
    AckRunJudged(q, psn);
    CountRdZero(q[..k]) by {
      forall i | 0 <= i < k ensures !IsRdAtomic(q[..k][i].wr.opcode) {
        assert JudgeAck(q[i], psn).0 == Completed;
      }
    }
    RetireKeeps(s, k, Success);
    var t := CompleteRun(s, k);
    SideFieldsKeep(Retire(s, k, Success), t.psn, t.nrContig);
  }

  /** What is done to the head just before it is retired does not show. */
  lemma HeadForgotten(s: Sq, e: Swqe, status: WcStatus)
    requires Flight(s) != [] && e.wr == Flight(s)[0].wr
    ensures Flight(SetFlight(s, 0, e)) == Flight(s)[0 := e]
    ensures DropFlight(SetFlight(s, 0, e), 1) == DropFlight(s, 1)
    ensures Records(Flight(SetFlight(s, 0, e))[..1], status) == Records(Flight(s)[..1], status)
    ensures FailHead(SetFlight(s, 0, e), status) == FailHead(s, status)
  {
    var t := SetFlight(s, 0, e);
    assert Flight(t) == Flight(s)[0 := e];
    assert DropFlight(t, 1) == DropFlight(s, 1);
    assert Records(Flight(t)[..1], status) == Records(Flight(s)[..1], status);
  }

  lemma ReceiveAckKeeps(s: Sq, psn: int, now: int)
    requires Inv(s)
    ensures Inv(ReceiveAck(s, psn, now))
  {
    hide Inv, FailHead, Postpone, SetFlight, AckRun, JudgeAck;
    var q := Flight(s);
    var k := AckRun(q, psn);
    var s1 := CompleteRun(s, k);
    CompleteRunKeeps(s, psn);
    DropFlightTail(s, k);
    assert Flight(s1) == q[k..];
    PostponeKeeps(s1, now);
    if k < |q| {
      AckRunJudged(q, psn);
      assert Flight(s1)[0] == q[k];
      var (verdict, e) := JudgeAck(q[k], psn);
      JudgeKeepsRequest(q[k], psn);
      HeadForgotten(s1, e, e.status);
      FailHeadKeeps(s1, e.status);
      ProgressKeeps(s1, psn);
      if verdict == Progressed {
        PostponeKeeps(SetFlight(s1, 0, e), now);
      }
    }
  }

  lemma JudgeKeepsRequest(e: Swqe, psn: int)
    ensures var e' := JudgeAck(e, psn).1; e' == e.(ack := e'.ack, status := e'.status)
  {
  }

  lemma ProgressKeeps(s: Sq, psn: int)
    requires Inv(s) && Flight(s) != []
    ensures var (verdict, e) := JudgeAck(Flight(s)[0], psn);
      verdict == Progressed ==> Inv(SetFlight(s, 0, e))
  {
    hide Conserved, RdCounted, Fenced, Planned, PlanTiled, SubmittedOk, Counted;
    var (verdict, e) := JudgeAck(Flight(s)[0], psn);
    if verdict == Progressed {
      assert if s.waiting != [] then Flight(s)[0] == s.waiting[0] else Flight(s)[0] == s.sending[0];
      SetFlightKeeps(s, 0, e);
    }
  }

  /** An entry in flight can be marked with any status. */
  lemma MarkKeeps(s: Sq, i: nat, status: WcStatus)
    requires Inv(s) && i < |Flight(s)|
    ensures Inv(SetFlight(s, i, Flight(s)[i].(status := status)))
  {
    hide Conserved, RdCounted, Fenced, Planned, PlanTiled, SubmittedOk, Counted;
    var e := Flight(s)[i];
    assert if i < |s.waiting| then e == s.waiting[i] else e == s.sending[i - |s.waiting|];
    SetFlightKeeps(s, i, e.(status := status));
  }

  lemma OneRd(q: seq<Swqe>)
    requires |q| == 1 && IsRdAtomic(q[0].wr.opcode)
    ensures CountRd(q) == 1
  {
    assert q[..0] == [];
  }

  lemma CompleteHeadKeeps(s: Sq, now: int)
    requires Inv(s) && Flight(s) != [] && IsRdAtomic(Flight(s)[0].wr.opcode)
    ensures Inv(CompleteHead(s, now))
  {
    hide Inv, Postpone, Records, Reports, CountRd, DropFlight, IsRdAtomic, Mask24;
    var t := Retire(s, 1, Success);
    RetireKeeps(s, 1, Success);
    OneRd(Flight(s)[..1]);
    var u := CompleteRun(s, 1).(nrRdAtomic := s.nrRdAtomic - 1);
    SideFieldsKeep(t, u.psn, u.nrContig);
    assert u == t.(psn := u.psn, nrContig := u.nrContig);
    PostponeKeeps(u, now);
  }

  /** One more RDMA READ response for the head. */
  lemma ReadProgressKeeps(s: Sq, e: Swqe)
    requires Inv(s) && Flight(s) != [] && Flight(s)[0].wr.opcode == WrRead
    requires var h := Flight(s)[0];
      e == h.(localAckTime := e.localAckTime, sent := h.sent + 1, ack := h.ack + 1) && e.sent < h.all
    ensures Inv(SetFlight(s, 0, e))
  {
    hide Conserved, RdCounted, Fenced, Planned, PlanTiled, SubmittedOk, Counted;
    assert if s.waiting != [] then Flight(s)[0] == s.waiting[0] else Flight(s)[0] == s.sending[0];
    SetFlightKeeps(s, 0, e);
  }

  lemma HeadCompletion(s: Sq, e: Swqe, now: int)
    requires Flight(s) != [] && e.wr == Flight(s)[0].wr && e.expected == Flight(s)[0].expected
    ensures Flight(SetFlight(s, 0, e)) != [] && CompleteHead(SetFlight(s, 0, e), now) == CompleteHead(s, now)
  {
    hide Records, Reports, DropFlight, FailHead, Postpone, Mask24;
    HeadForgotten(s, e, Success);
  }

  lemma ReceiveReadKeeps(s: Sq, psn: int, now: int, mem: WcStatus)
    requires Inv(s)
    ensures Inv(ReceiveRead(s, psn, now, mem))
  {
    hide Inv, CompleteHead, CountRead;
    var q := Flight(s);
    var i := Match(q, psn);
    if i < |q| {
      var e := q[i];
      MarkKeeps(s, i, BadRespErr);
      MarkKeeps(s, i, mem);
      if e.wr.opcode == WrRead && i == 0 {
        var e' := e.(localAckTime := now + s.attr.ackTimeout, sent := e.sent + 1, ack := e.ack + 1);
        HeadCompletion(s, e', now);
        CompleteHeadKeeps(s, now);
        FlowKeeps(CompleteHead(s, now));
        if e'.sent < e.all {
          ReadProgressKeeps(s, e');
          FlowKeeps(SetFlight(s, 0, e'));
        }
      }
    }
  }

  lemma ReceiveAtomicKeeps(s: Sq, psn: int, size: int, now: int, mem: WcStatus)
    requires Inv(s)
    ensures Inv(ReceiveAtomic(s, psn, size, now, mem))
  {
    hide Inv, CompleteHead;
    var q := Flight(s);
    var i := Match(q, psn);
    if i < |q| {
      MarkKeeps(s, i, BadRespErr);
      MarkKeeps(s, i, mem);
      if IsAtomic(q[i].wr.opcode) && i == 0 {
        CompleteHeadKeeps(s, now);
      }
    }
  }

  lemma RewindAttr(s: Sq)
    ensures Rewind(s).attr == s.attr
  {
  }

  lemma RetryKeeps(s: Sq, rnr: nat)
    requires Inv(s)
    ensures Inv(Retry(s, rnr))
  {
    hide Inv, Rewind;
    var s1 := Rewind(s);
    RewindKeeps(s);
    RewindAttr(s);
    if rnr != 0 && s1.sending != [] {
      var e := s1.sending[0];
      var e' := if s.attr.rnrRetry < 7 then e.(scheduleTime := rnr, rnrRetry := e.rnrRetry - 1, rnrs := e.rnrs + 1)
                else e.(scheduleTime := rnr);
      HeadSound(s1);
      SetHeadKeeps(s1, e', s1.nrContig);
    }
  }

  lemma DispatchKeeps(s: Sq, r: Response, now: int, mem: WcStatus)
    requires Inv(s)
    ensures Inv(Dispatch(s, r, now, mem))
  {
    hide Inv, ReceiveAck, ReceiveRead, ReceiveAtomic;
    ReceiveAckKeeps(s, r.psn, now);
    ReceiveReadKeeps(s, r.psn, now, mem);
    ReceiveAtomicKeeps(s, r.psn, r.size - AETH_SIZE, now, mem);
  }

  lemma MarkErrorKeeps(s: Sq, psn: int, status: WcStatus)
    requires Inv(s)
    ensures Inv(MarkError(s, psn, status))
  {
    hide Inv;
    var i := Match(Flight(s), psn);
    if i < |Flight(s)| {
      MarkKeeps(s, i, status);
    }
  }

  lemma ReceiveResponseKeeps(s: Sq, r: Response, now: int, rnrDelay: nat, mem: WcStatus)
    requires Inv(s)
    ensures Inv(ReceiveResponse(s, r, now, rnrDelay, mem))
  {
    hide Inv, Dispatch, Retry, MarkError;
    var s0 := s.(nrContig := 0);
    SideFieldsKeep(s, s.psn, 0);
    assert s.(psn := s.psn, nrContig := 0) == s0;
    DispatchKeeps(s0, r, now, mem);
    RetryKeeps(s0, rnrDelay);
    RetryKeeps(s0, 0);
    match NakStatus(r.syndrome)
    case Some(status) =>
      MarkErrorKeeps(s0, r.psn, status);
      DispatchKeeps(MarkError(s0, r.psn, status), r, now, mem);
    case None =>
  }

  lemma StateKeeps(s: Sq, target: QpState)
    requires Inv(s) && s.state !in {ERR, SQE} && target !in {ERR, SQE}
    ensures Inv(s.(state := target))
  {
    hide CountRd, Fenced, EndsPlan, EntryOk, Tiles, EntryWrs, RetiredWrs, Reports;
    assert Flight(s.(state := target)) == Flight(s);
  }

  lemma ModifyKeeps(s: Sq, target: QpState)
    requires Inv(s)
    ensures Inv(Modify(s, target))
  {
    hide Inv, Flush, GetReady;
    if s.state !in {ERR, SQE} {
      if target == ERR {
        FlushKeeps(s);
      } else if target in {RTR, RTS, SQD} {
        StateKeeps(s, target);
        FlowKeeps(s.(state := target));
      }
    }
  }
}
