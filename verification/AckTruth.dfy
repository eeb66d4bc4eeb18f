/**
  What an acknowledge may say.  Every scheduled acknowledge and every response packet speaks
  only of requests that were executed, and says of them what was recorded at execution.
 */
module AckTruth {
  import opened Psn
  import opened OpCode
  import opened WorkRequest
  import opened SendQueue
  import opened ReceiveQueue
  import opened ReceiveQueueInvariant
  import opened ResponderExecution

  /** What was executed so far: whole items, the next PSN, and the slots written. */
  datatype Past = Past(mtu: Mtu, items: seq<Item>, psn: int, records: seq<Slot>)

  function PastOf(r: Rq, plan: seq<Item>, done: nat): Past
    requires done <= |plan|
  {
    Past(r.attr.mtu, plan[..done], r.psn, r.records)
  }

  ghost predicate Later(p: Past, q: Past) {
    q.mtu == p.mtu && p.items <= q.items && p.psn <= q.psn && p.records <= q.records
  }

  /** The tail of an executed RDMA READ from `psn`: its address range and length. */
  ghost predicate TailOf(mtu: Mtu, item: Item, psn: int, expected: int, vaddr: int, rkey: int, size: int) {
    && ItemOk(mtu, item) && item.wr.opcode == WrRead
    && item.base <= psn < item.End() == expected
    && rkey == item.wr.rkey
    && vaddr == Add64(item.wr.raddr, (psn - item.base) * mtu)
    && size == item.wr.length - (psn - item.base) * mtu
  }

  ghost predicate AtomicDone(p: Past, psn: int, result: int) {
    exists j :: 0 <= j < |p.records| && p.records[j].op in {CompareSwap, FetchAdd}
                && p.records[j].psn == psn && p.records[j].result == result && psn < p.psn
  }

  ghost predicate AckTrue(p: Past, a: Ack) {
    match a
    case NormalAck(psn, _, syndrome) => SyndromeClass(syndrome) == SYND_ACK ==> psn < p.psn
    case ReadAck(psn, expected, vaddr, rkey, size, offset) =>
      && expected <= p.psn
      && offset >= 0 && (offset == 0 || offset < size) && (exists k: nat :: offset == k * p.mtu)
      && exists i :: 0 <= i < |p.items| && TailOf(p.mtu, p.items[i], psn, expected, vaddr, rkey, size)
    case AtomicAck(psn, _, result) => AtomicDone(p, psn, result)
  }

  ghost predicate AcksTrue(p: Past, acks: seq<Ack>) {
    forall i :: 0 <= i < |acks| ==> AckTrue(p, acks[i])
  }

  /** Queued RDMA READ replies cover ascending, disjoint PSN ranges. */
  ghost predicate ReadsAscend(acks: seq<Ack>) {
    forall i, j :: 0 <= i < j < |acks| && acks[i].ReadAck? && acks[j].ReadAck? ==> acks[i].expected <= acks[j].psn
  }

  lemma AckTrueLater(p: Past, q: Past, a: Ack)
    requires AckTrue(p, a) && Later(p, q)
    ensures AckTrue(q, a)
  {
    match a
    case NormalAck(_, _, _) =>
    case ReadAck(psn, expected, vaddr, rkey, size, offset) =>
      var i :| 0 <= i < |p.items| && TailOf(p.mtu, p.items[i], psn, expected, vaddr, rkey, size);
      assert q.items[i] == p.items[i];
    case AtomicAck(psn, _, result) =>
      AtomicDoneLater(p, q, psn, result);
  }

  lemma AtomicDoneLater(p: Past, q: Past, psn: int, result: int)
    requires AtomicDone(p, psn, result) && Later(p, q)
    ensures AtomicDone(q, psn, result)
  {
    var j :| 0 <= j < |p.records| && p.records[j].op in {CompareSwap, FetchAdd}
                && p.records[j].psn == psn && p.records[j].result == result && psn < p.psn;
    assert q.records[j] == p.records[j];
  }

  lemma AcksTrueLater(p: Past, q: Past, acks: seq<Ack>)
    requires AcksTrue(p, acks) && Later(p, q)
    ensures AcksTrue(q, acks)
  {
    forall i | 0 <= i < |acks| ensures AckTrue(q, acks[i]) {
      AckTrueLater(p, q, acks[i]);
    }
  }

  lemma PushAckTrue(p: Past, r: Rq, psn: int, syndrome: int)
    requires AcksTrue(p, r.acks) && ReadsAscend(r.acks)
    requires SyndromeClass(syndrome) == SYND_ACK ==> psn < p.psn
    ensures AcksTrue(p, PushAck(r, psn, syndrome).acks) && ReadsAscend(PushAck(r, psn, syndrome).acks)
  {
    hide SyndromeClass, TailOf, AtomicDone;
  }

  /** What remains after removing overlaps keeps its order. */
  lemma {:induction false} KeepAscends(p: Past, acks: seq<Ack>, psn: int, expected: int)
    requires AcksTrue(p, acks) && ReadsAscend(acks)
    ensures AcksTrue(p, Keep(acks, psn, expected)) && ReadsAscend(Keep(acks, psn, expected))
  {
    hide Overlaps, AckTrue;
    if acks != [] {
      var n := |acks| - 1;
      var front := Keep(acks[..n], psn, expected);
      KeepAscends(p, acks[..n], psn, expected);
      forall i | 0 <= i < |front| && front[i].ReadAck? && acks[n].ReadAck? ensures front[i].expected <= acks[n].psn {
        KeepMembers(acks[..n], psn, expected, front[i]);
      }
    }
  }

  /**
    Replies for the tail of item `i` displace those for the same or a later item, so what is
    left ends before it.
   */
  lemma TailDisplaces(p: Past, a: Ack, origin: int, end: int, i: nat, psn: int, plan: seq<Item>, m: nat)
    requires PlanOk(p.mtu, plan, origin, end) && m <= |plan| && plan[..m] == p.items && i < |plan|
    requires plan[i].base <= psn < plan[i].End()
    requires a.ReadAck? && AckTrue(p, a) && Close(psn, p.psn)
    requires i < m || (p.psn == psn == plan[i].base)
    requires !Overlaps(a, psn, plan[i].End())
    ensures a.expected <= psn
  {
    var i' :| 0 <= i' < |p.items| && TailOf(p.mtu, p.items[i'], a.psn, a.expected, a.vaddr, a.rkey, a.size);
    assert p.items[i'] == plan[i'];
    if i' < i {
      PlanOrdered(p.mtu, plan, origin, end, i', i);
      StartsAtBase(p.mtu, plan, origin, end, i);
    } else if i < m {
      DiffExact(a.expected, psn);
      DiffExact(a.expected, plan[i].End());
      DiffExact(a.psn, plan[i].End());
      if i < i' {
        PlanOrdered(p.mtu, plan, origin, end, i, i');
        StartsAtBase(p.mtu, plan, origin, end, i');
      }
    }
  }

  lemma ServeReadTrue(p: Past, r: Rq, packet: Request, plan: seq<Item>, origin: int, end: int, m: nat, i: nat, q: Past)
    requires PlanOk(p.mtu, plan, origin, end) && m <= |plan| && plan[..m] == p.items && i < |plan|
    requires plan[i].base <= packet.psn < plan[i].End() && Close(packet.psn, p.psn)
    requires i < m || (p.psn == packet.psn == plan[i].base)
    requires AcksTrue(p, r.acks) && ReadsAscend(r.acks)
    requires Later(p, q) && plan[i] in q.items && plan[i].End() <= q.psn
    requires TailOf(q.mtu, plan[i], packet.psn, plan[i].End(), packet.vaddr, packet.rkey, packet.dmalen)
    ensures var t := ServeRead(r, packet, plan[i].End()); AcksTrue(q, t.acks) && ReadsAscend(t.acks)
  {
    var kept := Keep(r.acks, packet.psn, plan[i].End());
    KeepAscends(p, r.acks, packet.psn, plan[i].End());
    AcksTrueLater(p, q, kept);
    var a := ReadAck(packet.psn, plan[i].End(), packet.vaddr, packet.rkey, packet.dmalen, 0);
    assert AckTrue(q, a) by {
      assert 0 == 0 * q.mtu;
      var x :| 0 <= x < |q.items| && q.items[x] == plan[i];
    }
    forall x | 0 <= x < |kept| && kept[x].ReadAck? ensures kept[x].expected <= packet.psn {
      KeepMembers(r.acks, packet.psn, plan[i].End(), kept[x]);
      assert AckTrue(p, kept[x]);
      TailDisplaces(p, kept[x], origin, end, i, packet.psn, plan, m);
    }
    hide AckTrue, Keep, CountReplies, TailOf;
  }

  // ---------------------------------------------------------------------------
  // Response packets

  /** One response of an executed RDMA READ: the bytes its PSN stands for in the original request. */
  ghost predicate PieceOf(mtu: Mtu, item: Item, r: Response) {
    && ItemOk(mtu, item) && item.wr.opcode == WrRead
    && item.base <= r.psn < item.End()
    && r.rkey == item.wr.rkey
    && r.vaddr == Add64(item.wr.raddr, (r.psn - item.base) * mtu)
    && r.length == PayloadSize(mtu, item.wr.length, item.all, r.psn - item.base)
  }

  ghost predicate ResponseTrue(p: Past, r: Response) {
    match r.kind
    case AckKind => Retryable(r.syndrome) && (SyndromeClass(r.syndrome) == SYND_ACK ==> r.psn < p.psn)
    case AtomicKind => r.syndrome == SYND_ACK && AtomicDone(p, r.psn, r.result)
    case _ =>
      && r.syndrome == SYND_ACK && r.psn < p.psn
      && exists i :: 0 <= i < |p.items| && PieceOf(p.mtu, p.items[i], r)
  }

  lemma ResponseTrueLater(p: Past, q: Past, r: Response)
    requires ResponseTrue(p, r) && Later(p, q)
    ensures ResponseTrue(q, r)
  {
    match r.kind
    case AckKind =>
    case AtomicKind => AtomicDoneLater(p, q, r.psn, r.result);
    case _ =>
      var i :| 0 <= i < |p.items| && PieceOf(p.mtu, p.items[i], r);
      assert q.items[i] == p.items[i];
  }

  lemma Add64Twice(x: int, a: int, b: int)
    ensures Add64(Add64(x, a), b) == Add64(x, a + b)
  {
  }

  lemma MulCancelLess(a: nat, b: nat, m: nat)
    requires a * m < b * m
    ensures a < b
  {
    if b <= a {
      MulMono(b, a, m);
    }
  }

  lemma DivExact(k: nat, m: nat)
    requires m > 0
    ensures (k * m) / m == k
  {
    DivBounds(k * m, m);
    var q := (k * m) / m;
    if q < k {
      MulMono(q + 1, k, m);
    }
  }

  /** The piece at byte offset k * mtu of a tail starting at packet j is packet j + k of the read. */
  lemma PieceInTail(mtu: Mtu, item: Item, j: nat, k: nat)
    requires ItemOk(mtu, item) && j < item.all
    requires k == 0 || j * mtu + k * mtu < item.wr.length
    ensures j + k < item.all
    ensures var rest := item.wr.length - j * mtu - k * mtu;
      (if rest < mtu then rest else mtu) == PayloadSize(mtu, item.wr.length, item.all, j + k)
  {
    assert (j + k) * mtu == j * mtu + k * mtu;
    NumPacketsBounds(mtu, item.wr.length);
    if k > 0 {
      MulCancelLess(j + k, item.all, mtu);
    }
    PacketFits(mtu, item.wr.length, j + k);
    assert (j + k + 1) * mtu == (j + k) * mtu + mtu;
  }

  lemma ReadResponseTrue(p: Past, a: Ack)
    requires a.ReadAck? && AckTrue(p, a)
    ensures ResponseTrue(p, ReadResponse(p.mtu, a))
    ensures var n := ReadResponse(p.mtu, a).length;
      a.offset + n < a.size ==> AckTrue(p, a.(offset := a.offset + n))
  {
    hide PsnDiff, NumPackets;
    var i :| 0 <= i < |p.items| && TailOf(p.mtu, p.items[i], a.psn, a.expected, a.vaddr, a.rkey, a.size);
    var item := p.items[i];
    var k: nat :| a.offset == k * p.mtu;
    var j := a.psn - item.base;
    if k == 0 { assert a.offset == 0; }
    PieceInTail(p.mtu, item, j, k);
    DivExact(k, p.mtu);
    Add64Twice(item.wr.raddr, j * p.mtu, k * p.mtu);
    assert (j + k) * p.mtu == j * p.mtu + k * p.mtu;
    assert (k + 1) * p.mtu == k * p.mtu + p.mtu;
    var r := ReadResponse(p.mtu, a);
    assert r.psn == a.psn + k;
    hide Add64, PayloadSize, NumPackets, PsnDiff;
    assert PieceOf(p.mtu, item, r);
  }

  /** What the responder sends is true, and what stays queued remains true. */
  lemma GenerateTrue(p: Past, r: Rq, memOk: bool)
    requires AcksTrue(p, r.acks) && ReadsAscend(r.acks) && NoFatalNak(r.acks) && p.mtu == r.attr.mtu
    ensures var (t, out) := Generate(r, memOk);
      && AcksTrue(p, t.acks) && ReadsAscend(t.acks)
      && (out.Some? ==> ResponseTrue(p, out.value))
  {
    if RecvOk(r.state) && r.acks != [] {
      var a := r.acks[0];
      assert AckTrue(p, a);
      if a.ReadAck? {
        ReadResponseTrue(p, a);
      }
      GenerateOrder(p, r, memOk);
      AckCodes();
      hide AckTrue, ReadResponse, AtomicDone, Retryable, SyndromeClass;
    }
  }

  lemma GenerateOrder(p: Past, r: Rq, memOk: bool)
    requires AcksTrue(p, r.acks) && ReadsAscend(r.acks) && r.acks != []
    ensures var t := Generate(r, memOk).0;
      && ReadsAscend(t.acks)
      && (t.acks == r.acks || t.acks == r.acks[1..] ==> AcksTrue(p, t.acks))
      && (forall a :: AckTrue(p, a) ==> AcksTrue(p, r.acks[0 := a]))
  {
    hide AckTrue, ReadResponse;
  }
}
