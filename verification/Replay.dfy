/**
  Retransmitted RDMA READs and atomics: which of them the responder still answers, and with what.
 */
module Replay {
  import opened Psn
  import opened OpCode
  import opened WorkRequest
  import opened SendQueue
  import opened ReceiveQueue
  import opened ReceiveQueueInvariant
  import opened Protocol
  import opened ResponderExecution
  import opened SlotSearch
  import opened AckTruth
  import opened ProtocolRequests
  import opened ResponderOutcomes

  // ---------------------------------------------------------------------------
  // What is remembered

  /** Fewer than max_dest_rd_atomic RDMA READs and atomics were executed after item `i`. */
  predicate Remembered(r: Rq, plan: seq<Item>, done: nat, i: nat)
    requires i < done <= |plan|
  {
    |RdItems(plan[i + 1..done])| < r.attr.maxDest
  }

  lemma {:induction false} RdItemsJoin(a: seq<Item>, b: seq<Item>)
    ensures RdItems(a + b) == RdItems(a) + RdItems(b)
    decreases |b|
  {
    if b == [] {
      assert a + b == a;
    } else {
      var n := |b| - 1;
      RdItemsJoin(a, b[..n]);
      assert (a + b)[..|a + b| - 1] == a + b[..n];
    }
  }

  /** What comes after item `i` in the list of records. */
  lemma RecordsAfter(r: Rq, plan: seq<Item>, done: nat, i: nat)
    requires i < done <= |plan| && IsRdAtomic(plan[i].wr.opcode) && RecordsMatch(plan[..done], r.records)
    ensures |r.records| == RdIndex(plan, i) + 1 + |RdItems(plan[i + 1..done])|
  {
    hide RecordOf;
    assert plan[..done] == plan[..i + 1] + plan[i + 1..done];
    RdItemsJoin(plan[..i + 1], plan[i + 1..done]);
    RdIndexStep(plan, i);
  }

  /** The record of item `i`. */
  function RecordAt(r: Rq, plan: seq<Item>, i: nat): Slot
    requires i <= |plan| && RdIndex(plan, i) < |r.records|
  {
    r.records[RdIndex(plan, i)]
  }

  // ---------------------------------------------------------------------------
  // What is queued

  /** The replies that stay when those for [psn, expected) are queued anew leave room for one more. */
  predicate Room(r: Rq, psn: int, expected: int) {
    CountReplies(Keep(r.acks, psn, expected)) < r.attr.maxDest
  }

  /** The reply to packet `k` of an RDMA READ: all its bytes from that packet on. */
  function ReadReply(mtu: Mtu, item: Item, k: nat): Ack {
    ReadAck(item.base + k, item.End(), Add64(item.wr.raddr, k * mtu), item.wr.rkey, item.wr.length - k * mtu, 0)
  }

  lemma ReplyIsTail(mtu: Mtu, item: Item, k: nat)
    requires ItemOk(mtu, item) && item.wr.opcode == WrRead && k < item.all
    ensures var a := ReadReply(mtu, item, k); TailOf(mtu, item, a.psn, a.expected, a.vaddr, a.rkey, a.size)
  {
    hide NumPackets, Add64;
  }

  lemma ServedAnew(r: Rq, packet: Request, expected: int)
    requires LocalInv(r) && RecvOk(r.state)
    ensures var t := ServeRead(r, packet, expected);
      if Room(r, packet.psn, expected)
      then t == r.(acks := Keep(r.acks, packet.psn, expected) + [ReadAck(packet.psn, expected, packet.vaddr, packet.rkey, packet.dmalen, 0)],
                   nrRdAtomic := t.nrRdAtomic, nrContigReads := 0)
      else Refused(r, t)
  {
    hide Keep, CountReplies, NoFatalNak, RingOk;
  }

  /** The answer to a retransmitted packet is at the end of the queue. */
  ghost predicate Answered(r: Rq, t: Rq, item: Item, k: nat, slot: Slot) {
    && NothingDone(r, t) && t.acks != []
    && var a := t.acks[|t.acks| - 1];
       if item.wr.opcode == WrRead
       then a == ReadReply(r.attr.mtu, item, k) && t.acks == Keep(r.acks, item.base + k, item.End()) + [a] && t.nrContigReads == 0
       else a == AtomicAck(item.base, item.base + 1, slot.result) && t.acks == r.acks + [a]
  }

  lemma ReadAnswered(r: Rq, item: Item, k: nat, slot: Slot, mem: WcStatus)
    requires LocalInv(r) && RecvOk(r.state) && ItemOk(r.attr.mtu, item) && item.wr.length <= MAX_PAYLOAD_LEN
    requires item.wr.opcode == WrRead && k < item.all && RecordOf(item, slot)
    ensures var t := ReceiveRetriedRead(r, PacketOf(r.attr.mtu, item, k), slot, mem);
      if mem == Success && Room(r, item.base + k, item.End()) then Answered(r, t, item, k, slot) else Refused(r, t)
  {
    hide Keep, CountReplies, LocalInv, RetryValid, NumPackets, Add64, ServeRead, Room;
    PartialRetryValid(r, item, slot, k);
    PacketFits(r.attr.mtu, item.wr.length, k);
    ServedAnew(r, PacketOf(r.attr.mtu, item, k), slot.expected);
  }

  /**
    A retransmitted packet of an executed RDMA READ or atomic is answered if and only if fewer than
    max_dest_rd_atomic others were executed after it and, for an RDMA READ, its range can still be read
    and the queue has room once the replies it replaces are gone.  The answer is then last in the queue:
    the result recorded for the atomic, or all bytes of the RDMA READ from that packet on.  Otherwise the
    queue pair goes to error.
   */
  lemma DuplicateAnsweredIff(r: Rq, plan: seq<Item>, end: int, done: nat, part: nat, q: Sent, mem: WcStatus, result: int)
    requires ResponderOk(r, plan, end, done, part) && Genuine(r.attr.mtu, plan, q) && RecvOk(r.state)
    requires IsRdAtomic(plan[q.item].wr.opcode) && -TWO23 < q.packet.psn - r.psn < 0
    ensures SlotsOk(r) && q.item < done <= |plan| && RdIndex(plan, q.item) < |r.records|
    ensures var t, item := ReceiveRequest(r, q.packet, mem, result), plan[q.item];
      if Remembered(r, plan, done, q.item) && (item.wr.opcode == WrRead ==> mem == Success && Room(r, q.packet.psn, item.End()))
      then Answered(r, t, item, q.k, RecordAt(r, plan, q.item))
      else Refused(r, t)
  {
    hide ReceiveRequest, ResponderOk, PacketOf, GatherOk, RdIndex, RecordOf, Answered, Refused, RequestOpcode, FindSlot, Room, RecvOk;
    GenuineFacts(r.attr.mtu, plan, q);
    OldFacts(r, plan, end, done, part, q.item, q.k);
    var slot := RecordAt(r, plan, q.item);
    RecordsAfter(r, plan, done, q.item);
    GoesToOld(r, q.packet, mem, result);
    if plan[q.item].wr.opcode == WrRead {
      ReadAnswered(r, plan[q.item], q.k, slot, mem);
      if !Remembered(r, plan, done, q.item) {
        OldForgotten(r, q.packet, mem);
      } else {
        OldRead(r, q.packet, slot, mem);
      }
    } else {
      if !Remembered(r, plan, done, q.item) {
        OldForgotten(r, q.packet, mem);
      } else {
        OldAtomic(r, q.packet, slot, mem);
        AtomicAnswered(r, plan[q.item], q.k, slot);
      }
    }
  }

  /** What is known of the packet's item. */
  lemma OldFacts(r: Rq, plan: seq<Item>, end: int, done: nat, part: nat, i: nat, k: nat)
    requires ResponderOk(r, plan, end, done, part) && i < |plan| && k < plan[i].all && IsRdAtomic(plan[i].wr.opcode)
    requires -TWO23 < plan[i].base + k - r.psn < 0
    ensures LocalInv(r) && SlotsOk(r) && i < done <= |plan| && RecordsMatch(plan[..done], r.records)
    ensures ItemOk(r.attr.mtu, plan[i]) && plan[i].wr.length <= MAX_PAYLOAD_LEN
    ensures RdIndex(plan, i) < |r.records| && RecordOf(plan[i], RecordAt(r, plan, i))
    ensures FindSlot(r, RequestOpcode(plan[i].wr.opcode, plan[i].all, k), plan[i].base + k, 1)
            == if |r.records| - RdIndex(plan, i) <= r.attr.maxDest then Some(RecordAt(r, plan, i)) else None
  {
    hide AcksTrue, ReadsAscend, IdealEffects, EffectsOf, IdealMessages, MidMessage, RdIndex, RecordOf, RequestOpcode, FindSlot;
    BehindFromOk(r, plan, end, done, part);
    OldIsExecuted(r, plan, end, done, part, i, k);
    SearchExact(r, plan, end, done, i, k);
    PoisedSlots(r, plan, end, done, part);
  }

  lemma GoesToOld(r: Rq, packet: Request, mem: WcStatus, result: int)
    requires SlotsOk(r) && RecvOk(r.state) && -TWO23 < packet.psn - r.psn < 0
    ensures ReceiveRequest(r, packet, mem, result) == ReceiveOld(r, packet, mem)
  {
    hide ReceiveOld, ReceiveExpected, PushAck, PsnDiff;
    DiffExact(packet.psn, r.psn);
  }

  lemma OldForgotten(r: Rq, packet: Request, mem: WcStatus)
    requires SlotsOk(r) && packet.op in {ReadRequest, CompareSwap, FetchAdd} && FindSlot(r, packet.op, packet.psn, 1) == None
    ensures Refused(r, ReceiveOld(r, packet, mem))
  {
    hide FindSlot;
  }

  lemma OldRead(r: Rq, packet: Request, slot: Slot, mem: WcStatus)
    requires SlotsOk(r) && packet.op == ReadRequest && FindSlot(r, packet.op, packet.psn, 1) == Some(slot)
    ensures ReceiveOld(r, packet, mem) == ReceiveRetriedRead(r, packet, slot, mem)
  {
    hide FindSlot, ReceiveRetriedRead;
  }

  lemma OldAtomic(r: Rq, packet: Request, slot: Slot, mem: WcStatus)
    requires SlotsOk(r) && packet.op in {CompareSwap, FetchAdd} && FindSlot(r, packet.op, packet.psn, 1) == Some(slot)
    ensures ReceiveOld(r, packet, mem) == PushAtomic(r, packet.psn, slot.result)
  {
    hide FindSlot, PushAtomic;
  }

  lemma AtomicAnswered(r: Rq, item: Item, k: nat, slot: Slot)
    requires IsAtomic(item.wr.opcode) && k < item.all && ItemOk(r.attr.mtu, item)
    ensures Answered(r, PushAtomic(r, item.base + k, slot.result), item, k, slot)
  {
    hide Keep, NumPackets;
  }

  // ---------------------------------------------------------------------------
  // Which replies are replaced

  /** The entries that stay: those that end by `psn`, and any that reach around [psn, expected). */
  function Staying(acks: seq<Ack>, psn: int, expected: int): seq<Ack> {
    if acks == [] then []
    else
      var n := |acks| - 1;
      var a := acks[n];
      Staying(acks[..n], psn, expected) + if a.expected <= psn || (a.psn < psn && expected < a.expected) then [a] else []
  }

  /** The entry is a range of PSNs near enough to compare. */
  predicate NearEntry(a: Ack, psn: int, expected: int) {
    && a.psn < a.expected && psn < expected
    && Close(a.psn, psn) && Close(a.psn, expected) && Close(a.expected, psn) && Close(a.expected, expected)
  }

  lemma OverlapsExact(a: Ack, psn: int, expected: int)
    requires NearEntry(a, psn, expected)
    ensures Overlaps(a, psn, expected) <==> !(a.expected <= psn || (a.psn < psn && expected < a.expected))
  {
    DiffExact(a.psn, psn);
    DiffExact(a.psn, expected);
    DiffExact(a.expected, psn);
    DiffExact(a.expected, expected);
    hide PsnDiff;
  }

  /** Among entries near enough to compare, a new RDMA READ reply replaces exactly those that overlap or follow it. */
  lemma {:induction false} KeepExact(acks: seq<Ack>, psn: int, expected: int)
    requires forall i :: 0 <= i < |acks| ==> NearEntry(acks[i], psn, expected)
    ensures Keep(acks, psn, expected) == Staying(acks, psn, expected)
  {
    hide Overlaps, NearEntry;
    if acks != [] {
      KeepExact(acks[..|acks| - 1], psn, expected);
      OverlapsExact(acks[|acks| - 1], psn, expected);
    }
  }

  // ---------------------------------------------------------------------------
  // Retries that ask for something else

  /** `packet` asks for the remembered RDMA READ from packet `k` on, no more and no less. */
  predicate AsksForTail(mtu: Mtu, slot: Slot, packet: Request, k: nat) {
    packet.rkey == slot.rkey && packet.vaddr == Add64(slot.vaddr, k * mtu) && packet.dmalen == slot.dmalen - k * mtu
  }

  lemma RetryValidIff(mtu: Mtu, slot: Slot, packet: Request, k: nat)
    requires packet.psn == slot.psn + k && k < TWO23 && k * mtu <= slot.dmalen <= MAX_PAYLOAD_LEN
    ensures RetryValid(mtu, slot, packet) <==> AsksForTail(mtu, slot, packet, k)
  {
    DiffExact(packet.psn, slot.psn);
    hide PsnDiff, Add64;
    assert (k * mtu) % TWO32 == k * mtu && (slot.dmalen - k * mtu) % TWO32 == slot.dmalen - k * mtu;
  }

  /**
    A retransmitted RDMA READ, from whomever, that finds a record is served if and only if it asks for
    exactly the rest of what is recorded, with a whole header, readable memory and room in the queue;
    otherwise the queue pair goes to error.
   */
  lemma RetryServedIff(r: Rq, packet: Request, slot: Slot, k: nat, mem: WcStatus, result: int)
    requires LocalInv(r) && SlotsOk(r) && RecvOk(r.state) && -TWO23 < packet.psn - r.psn < 0 && packet.op == ReadRequest
    requires FindSlot(r, packet.op, packet.psn, 1) == Some(slot)
    requires packet.psn == slot.psn + k && k < TWO23 && k * r.attr.mtu <= slot.dmalen <= MAX_PAYLOAD_LEN
    ensures var t := ReceiveRequest(r, packet, mem, result);
      if packet.size == 16 && mem == Success && AsksForTail(r.attr.mtu, slot, packet, k) && Room(r, packet.psn, slot.expected)
      then NothingDone(r, t)
           && t.acks == Keep(r.acks, packet.psn, slot.expected) + [ReadAck(packet.psn, slot.expected, packet.vaddr, packet.rkey, packet.dmalen, 0)]
      else Refused(r, t)
  {
    hide ReceiveRequest, FindSlot, LocalInv, ServeRead, RetryValid, Room, Keep, RecvOk, AsksForTail;
    GoesToOld(r, packet, mem, result);
    OldRead(r, packet, slot, mem);
    RetryValidIff(r.attr.mtu, slot, packet, k);
    TailAsked(r.attr.mtu, slot, packet, k);
    ServedAnew(r, packet, slot.expected);
  }

  lemma TailAsked(mtu: Mtu, slot: Slot, packet: Request, k: nat)
    requires k * mtu <= slot.dmalen <= MAX_PAYLOAD_LEN
    ensures AsksForTail(mtu, slot, packet, k) ==> 0 <= packet.dmalen <= MAX_PAYLOAD_LEN
  {
    hide Add64;
  }
}
