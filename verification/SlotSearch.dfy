/**
  The responder's ring of sixteen slots: which retransmitted RDMA READs and atomics still
  find their record, and what they find.
 */
module SlotSearch {
  import opened Psn
  import opened OpCode
  import opened WorkRequest
  import opened SendQueue
  import opened ReceiveQueue
  import opened ReceiveQueueInvariant
  import opened Protocol
  import opened ResponderExecution

  // ---------------------------------------------------------------------------
  // Positions among the RDMA READs and atomics of a plan

  /** How many RDMA READs and atomics come before item `i`. */
  function RdIndex(plan: seq<Item>, i: nat): nat
    requires i <= |plan|
  {
    |RdItems(plan[..i])|
  }

  lemma RdIndexStep(plan: seq<Item>, i: nat)
    requires i < |plan|
    ensures RdItems(plan[..i + 1]) == RdItems(plan[..i]) + if IsRdAtomic(plan[i].wr.opcode) then [plan[i]] else []
  {
    assert plan[..i + 1] == plan[..i] + [plan[i]];
    RdItemsLast(plan[..i], plan[i]);
  }

  lemma {:induction false} RdPrefix(plan: seq<Item>, i: nat, m: nat)
    requires i <= m <= |plan|
    ensures RdItems(plan[..i]) <= RdItems(plan[..m])
  {
    if i < m {
      RdPrefix(plan, i, m - 1);
      RdIndexStep(plan, m - 1);
    }
  }

  /** Item `i` sits at its index in the list of RDMA READs and atomics. */
  lemma RdHere(plan: seq<Item>, i: nat, m: nat)
    requires i < m <= |plan| && IsRdAtomic(plan[i].wr.opcode)
    ensures RdIndex(plan, i) < RdIndex(plan, m)
    ensures RdItems(plan[..m])[RdIndex(plan, i)] == plan[i]
  {
    RdIndexStep(plan, i);
    RdPrefix(plan, i + 1, m);
  }

  /** Entry `j` of that list is some item of the plan. */
  lemma {:induction false} RdWhere(plan: seq<Item>, m: nat, j: nat) returns (i: nat)
    requires m <= |plan| && j < RdIndex(plan, m)
    ensures i < m && IsRdAtomic(plan[i].wr.opcode) && RdIndex(plan, i) == j
    ensures plan[i] == RdItems(plan[..m])[j]
  {
    RdIndexStep(plan, m - 1);
    if j < RdIndex(plan, m - 1) {
      i := RdWhere(plan, m - 1, j);
    } else {
      i := m - 1;
    }
  }

  // ---------------------------------------------------------------------------
  // The search

  /** The responder has executed the first `done` items of `plan`. */
  ghost predicate Behind(r: Rq, plan: seq<Item>, end: int, done: nat) {
    && PlanOk(r.attr.mtu, plan, r.attr.origin, end)
    && done <= |plan|
    && RingOk(r)
    && RecordsMatch(plan[..done], r.records)
    && StartOf(plan, r.attr.origin, done) <= r.psn
  }

  /** The slot `i` steps back from the newest. */
  lemma SlotBack(r: Rq, i: nat)
    requires RingOk(r) && 1 <= i <= MAX_RD_ATOM
    ensures r.slots[SlotAt(r.slotIndex, i)] == if i <= |r.records| then r.records[|r.records| - i] else EMPTY_SLOT
  {
    SlotAtMod(r.slotIndex, i);
    var n := |r.records|;
    if i > n {
      assert (n - i) % MAX_RD_ATOM == n - i + MAX_RD_ATOM;
    }
  }

  /** A newer record does not match: its PSNs all lie after `psn`. */
  lemma NewerSkipped(r: Rq, plan: seq<Item>, end: int, done: nat, item: nat, psn: int, j: nat, op: OpCode)
    requires Behind(r, plan, end, done) && item < done && psn < plan[item].End()
    requires Close(psn, r.psn) && IsRdAtomic(plan[item].wr.opcode)
    requires RdIndex(plan, item) < j < |r.records|
    ensures !SlotMatches(r.records[j], op, psn)
  {
    var later := RdWhere(plan, done, j);
    assert RecordOf(RdItems(plan[..done])[j], r.records[j]);
    assert item < later by {
      if later <= item {
        RdPrefix(plan, later, item);
      }
    }
    PlanOrdered(r.attr.mtu, plan, r.attr.origin, end, item, later);
    StartsAtBase(r.attr.mtu, plan, r.attr.origin, end, later);
    PlanOrdered(r.attr.mtu, plan, r.attr.origin, end, later, done);
    DiffExact(psn, r.records[j].psn);
  }

  /** The item's own record matches. */
  lemma OwnFound(r: Rq, plan: seq<Item>, end: int, done: nat, item: nat, k: nat)
    requires Behind(r, plan, end, done) && item < done && k < plan[item].all
    requires IsRdAtomic(plan[item].wr.opcode)
    ensures RdIndex(plan, item) < |r.records|
    ensures RecordOf(plan[item], r.records[RdIndex(plan, item)])
    ensures SlotMatches(r.records[RdIndex(plan, item)], RequestOpcode(plan[item].wr.opcode, plan[item].all, k), plan[item].base + k)
  {
    RdHere(plan, item, done);
    var j := RdIndex(plan, item);
    assert RecordOf(RdItems(plan[..done])[j], r.records[j]);
    NumPacketsLimit(r.attr.mtu, plan[item].wr.length);
    DiffExact(plan[item].base + k, plan[item].base);
    DiffExact(plan[item].base + k, plan[item].End());
  }

  lemma {:induction false} SearchFrom(r: Rq, plan: seq<Item>, end: int, done: nat, item: nat, k: nat, i: nat)
    requires Behind(r, plan, end, done) && item < done && k < plan[item].all
    requires IsRdAtomic(plan[item].wr.opcode) && Close(plan[item].base + k, r.psn)
    requires 1 <= i <= |r.records| - RdIndex(plan, item)
    ensures FindSlot(r, RequestOpcode(plan[item].wr.opcode, plan[item].all, k), plan[item].base + k, i)
            == if |r.records| - RdIndex(plan, item) <= r.attr.maxDest then Some(r.records[RdIndex(plan, item)]) else None
    decreases |r.records| - i
  {
    hide PlanOk, RingOk, RecordsMatch, StartOf, RequestOpcode, RecordOf, PsnDiff, SlotMatches, SlotAt, RdIndex;
    var j := RdIndex(plan, item);
    OwnFound(r, plan, end, done, item, k);
    if i <= r.attr.maxDest {
      SlotBack(r, i);
      if i < |r.records| - j {
        NewerSkipped(r, plan, end, done, item, plan[item].base + k, |r.records| - i,
                     RequestOpcode(plan[item].wr.opcode, plan[item].all, k));
        SearchFrom(r, plan, end, done, item, k, i + 1);
      }
    }
  }

  /**
    A retransmitted packet of an executed RDMA READ or atomic finds its own record if fewer
    than max_dest_rd_atomic others were executed after it, and otherwise finds nothing: the
    search never returns the record of another request.
   */
  lemma SearchExact(r: Rq, plan: seq<Item>, end: int, done: nat, item: nat, k: nat)
    requires Behind(r, plan, end, done) && item < done && k < plan[item].all
    requires IsRdAtomic(plan[item].wr.opcode) && Close(plan[item].base + k, r.psn)
    ensures RdIndex(plan, item) < |r.records| && RecordOf(plan[item], r.records[RdIndex(plan, item)])
    ensures FindSlot(r, RequestOpcode(plan[item].wr.opcode, plan[item].all, k), plan[item].base + k, 1)
            == if |r.records| - RdIndex(plan, item) <= r.attr.maxDest then Some(r.records[RdIndex(plan, item)]) else None
  {
    OwnFound(r, plan, end, done, item, k);
    SearchFrom(r, plan, end, done, item, k, 1);
  }

  /** A retry of an RDMA READ from any packet `k` passes the slot validation. */
  lemma PartialRetryValid(r: Rq, item: Item, slot: Slot, k: nat)
    requires ItemOk(r.attr.mtu, item) && item.wr.length <= MAX_PAYLOAD_LEN && k < item.all
    requires item.wr.opcode == WrRead && RecordOf(item, slot)
    ensures RetryValid(r.attr.mtu, slot, PacketOf(r.attr.mtu, item, k))
  {
    hide PsnDiff, NumPackets, Chunk, RequestOpcode, Add64, PayloadSize;
    var off := k * r.attr.mtu;
    assert PsnDiff(item.base + k, item.base) == k by {
      NumPacketsLimit(r.attr.mtu, item.wr.length);
      DiffExact(item.base + k, item.base);
    }
    assert 0 <= off <= item.wr.length by {
      PacketFits(r.attr.mtu, item.wr.length, k);
    }
    assert off % TWO32 == off && (item.wr.length - off) % TWO32 == item.wr.length - off;
  }
}
