/**
  Delivering a request packet: whatever packet of the log arrives, and however late, the
  responder either executes exactly the next step of the stream or executes nothing.
 */
module ProtocolRequests {
  import opened Psn
  import opened OpCode
  import opened WorkRequest
  import opened SendQueue
  import opened ReceiveQueue
  import opened ReceiveQueueInvariant
  import opened Protocol
  import opened ResponderExecution
  import opened SlotSearch
  import opened AckTruth

  /** A packet the requester really sent: packet `k` of an item of its plan. */
  ghost predicate Genuine(mtu: Mtu, plan: seq<Item>, q: Sent) {
    && 0 <= q.item < |plan|
    && 0 <= q.k < plan[q.item].all
    && q.packet == PacketOf(mtu, plan[q.item], q.k)
    && plan[q.item].wr.opcode != WrUnsupported
    && (IsSend(plan[q.item].wr.opcode) || IsWrite(plan[q.item].wr.opcode) ==>
          GatherOk(mtu, plan[q.item].wr, plan[q.item].all, q.k))
  }

  lemma GenuineGrows(mtu: Mtu, plan: seq<Item>, plan': seq<Item>, q: Sent)
    requires Genuine(mtu, plan, q) && plan <= plan'
    ensures Genuine(mtu, plan', q)
  {
    hide PacketOf, GatherOk;
    assert plan'[q.item] == plan[q.item];
  }

  /** The responder's side of the system. */
  ghost predicate ResponderOk(r: Rq, plan: seq<Item>, end: int, done: nat, part: nat) {
    && LocalInv(r)
    && PlanOk(r.attr.mtu, plan, r.attr.origin, end)
    && Executed(r, plan, done, part)
    && AcksTrue(PastOf(r, plan, done), r.acks)
    && ReadsAscend(r.acks)
  }

  ghost predicate ReceivedOk(r: Rq, t: Rq, plan: seq<Item>, end: int, done: nat, part: nat) {
    var (done', part') := if t.psn == r.psn then (done, part) else NextPosition(plan, done, part);
    && t.attr == r.attr
    && (t.psn != r.psn ==> done < |plan|)
    && Executed(t, plan, done', part')
    && AcksTrue(PastOf(t, plan, done'), t.acks)
    && ReadsAscend(t.acks)
    && Later(PastOf(r, plan, done), PastOf(t, plan, done'))
  }

  /** Only the acknowledge queue, its counters, the state and the receive count changed. */
  ghost predicate OnlyReplies(r: Rq, t: Rq) {
    t == r.(acks := t.acks, nrRdAtomic := t.nrRdAtomic, state := t.state, receives := t.receives,
            nrContigReads := t.nrContigReads)
  }

  lemma RepliesOnly(r: Rq, t: Rq, plan: seq<Item>, end: int, done: nat, part: nat)
    requires ResponderOk(r, plan, end, done, part) && OnlyReplies(r, t)
    requires AcksTrue(PastOf(r, plan, done), t.acks) && ReadsAscend(t.acks)
    ensures ReceivedOk(r, t, plan, end, done, part)
  {
    hide AcksTrue, ReadsAscend, LocalInv, PlanOk, IdealEffects, EffectsOf, IdealMessages, RecordsMatch;
  }

  lemma AheadReceived(r: Rq, packet: Request, plan: seq<Item>, end: int, done: nat, part: nat)
    requires ResponderOk(r, plan, end, done, part)
    ensures ReceivedOk(r, PushAck(r, packet.psn, SYND_PSN_SEQ_ERR), plan, end, done, part)
  {
    AckCodes();
    PushAckTrue(PastOf(r, plan, done), r, packet.psn, SYND_PSN_SEQ_ERR);
    PushAckFields(r, packet.psn, SYND_PSN_SEQ_ERR);
    hide PushAck, Executed, AcksTrue, ReadsAscend, LocalInv, PlanOk;
    RepliesOnly(r, PushAck(r, packet.psn, SYND_PSN_SEQ_ERR), plan, end, done, part);
  }

  lemma FatalReceived(r: Rq, plan: seq<Item>, end: int, done: nat, part: nat)
    requires ResponderOk(r, plan, end, done, part)
    ensures ReceivedOk(r, Fatal(r), plan, end, done, part)
  {
    hide Executed, LocalInv, PlanOk;
    RepliesOnly(r, Fatal(r), plan, end, done, part);
  }

  /** An item with a PSN before the expected one, if it is an RDMA READ or atomic, was executed in full. */
  lemma OldIsExecuted(r: Rq, plan: seq<Item>, end: int, done: nat, part: nat, item: nat, k: nat)
    requires PlanOk(r.attr.mtu, plan, r.attr.origin, end) && Executed(r, plan, done, part)
    requires item < |plan| && k < plan[item].all && plan[item].base + k < r.psn
    requires IsRdAtomic(plan[item].wr.opcode)
    ensures item < done && plan[item].End() <= r.psn
  {
    hide IdealEffects, EffectsOf, IdealMessages, RecordsMatch;
    if done < item {
      PlanOrdered(r.attr.mtu, plan, r.attr.origin, end, done, item);
      StartsAtBase(r.attr.mtu, plan, r.attr.origin, end, done);
    }
    StartsAtBase(r.attr.mtu, plan, r.attr.origin, end, item);
    if item < done {
      PlanOrdered(r.attr.mtu, plan, r.attr.origin, end, item, done);
    }
  }

  lemma BehindFromOk(r: Rq, plan: seq<Item>, end: int, done: nat, part: nat)
    requires ResponderOk(r, plan, end, done, part)
    ensures Behind(r, plan, end, done)
  {
    hide AcksTrue, ReadsAscend, PlanOk, IdealEffects, EffectsOf, IdealMessages, RecordsMatch;
  }

  lemma OldReadReceived(r: Rq, plan: seq<Item>, end: int, done: nat, part: nat, item: nat, k: nat, slot: Slot, mem: WcStatus)
    requires ResponderOk(r, plan, end, done, part)
    requires item < done && k < plan[item].all && plan[item].End() <= r.psn && plan[item].wr.opcode == WrRead
    requires Close(plan[item].base + k, r.psn) && RecordOf(plan[item], slot)
    ensures ReceivedOk(r, ReceiveRetriedRead(r, PacketOf(r.attr.mtu, plan[item], k), slot, mem), plan, end, done, part)
    ensures RetryValid(r.attr.mtu, slot, PacketOf(r.attr.mtu, plan[item], k))
  {
    hide AcksTrue, ReadsAscend, ServeRead, ReceivedOk, Fatal, RetryValid, MidMessage, IdealEffects, IdealMessages, RecordsMatch, EffectsOf;
    var packet := PacketOf(r.attr.mtu, plan[item], k);
    var past := PastOf(r, plan, done);
    PartialRetryValid(r, plan[item], slot, k);
    FatalReceived(r, plan, end, done, part);
    assert plan[item] in past.items by {
      assert past.items[item] == plan[item];
    }
    assert TailOf(r.attr.mtu, plan[item], packet.psn, plan[item].End(), packet.vaddr, packet.rkey, packet.dmalen);
    ServeReadTrue(past, r, packet, plan, r.attr.origin, end, done, item, past);
    ServeReadFields(r, packet, slot.expected);
    hide Executed, AcksTrue, ReadsAscend, LocalInv, PlanOk, ServeRead, PacketOf, ReceivedOk, Fatal;
    RepliesOnly(r, ServeRead(r, packet, slot.expected), plan, end, done, part);
  }

  lemma OldAtomicReceived(r: Rq, plan: seq<Item>, end: int, done: nat, part: nat, item: nat, j: nat)
    requires ResponderOk(r, plan, end, done, part)
    requires item < done && plan[item].End() <= r.psn && IsAtomic(plan[item].wr.opcode)
    requires j < |r.records| && RecordOf(plan[item], r.records[j]) && plan[item].all == 1
    ensures ReceivedOk(r, PushAtomic(r, plan[item].base, r.records[j].result), plan, end, done, part)
  {
    var past := PastOf(r, plan, done);
    var a := AtomicAck(plan[item].base, plan[item].base + 1, r.records[j].result);
    assert AckTrue(past, a);
    hide Executed, LocalInv, PlanOk, AckTrue, ReceivedOk;
    RepliesOnly(r, PushAtomic(r, plan[item].base, r.records[j].result), plan, end, done, part);
  }

  lemma GenuineFacts(mtu: Mtu, plan: seq<Item>, q: Sent)
    requires Genuine(mtu, plan, q)
    ensures q.packet.psn == plan[q.item].base + q.k
    ensures q.packet.op == RequestOpcode(plan[q.item].wr.opcode, plan[q.item].all, q.k)
    ensures q.packet.op == ReadRequest <==> plan[q.item].wr.opcode == WrRead
    ensures q.packet.op in {CompareSwap, FetchAdd} <==> IsAtomic(plan[q.item].wr.opcode)
  {
    hide Chunk;
  }

  lemma OldRdReceived(r: Rq, plan: seq<Item>, end: int, done: nat, part: nat, q: Sent, mem: WcStatus)
    requires ResponderOk(r, plan, end, done, part) && Genuine(r.attr.mtu, plan, q)
    requires IsRdAtomic(plan[q.item].wr.opcode)
    requires Close(q.packet.psn, r.psn) && q.packet.psn < r.psn
    ensures SlotsOk(r) && ReceivedOk(r, ReceiveOld(r, q.packet, mem), plan, end, done, part)
  {
    hide ReceivedOk, Fatal, FindSlot, PacketOf, RecordOf, GatherOk, RdIndex, ReceiveRetriedRead, RequestOpcode, PushAtomic;
    hide AcksTrue, ReadsAscend, Executed;
    GenuineFacts(r.attr.mtu, plan, q);
    BehindFromOk(r, plan, end, done, part);
    OldIsExecuted(r, plan, end, done, part, q.item, q.k);
    SearchExact(r, plan, end, done, q.item, q.k);
    FatalReceived(r, plan, end, done, part);
    var j := RdIndex(plan, q.item);
    if plan[q.item].wr.opcode == WrRead {
      OldReadReceived(r, plan, end, done, part, q.item, q.k, r.records[j], mem);
    } else {
      assert ItemOk(r.attr.mtu, plan[q.item]);
      OldAtomicReceived(r, plan, end, done, part, q.item, j);
    }
  }

  lemma OldPlainReceived(r: Rq, plan: seq<Item>, end: int, done: nat, part: nat, q: Sent, mem: WcStatus)
    requires ResponderOk(r, plan, end, done, part) && Genuine(r.attr.mtu, plan, q)
    requires !IsRdAtomic(plan[q.item].wr.opcode) && q.packet.psn < r.psn
    ensures SlotsOk(r) && ReceivedOk(r, ReceiveOld(r, q.packet, mem), plan, end, done, part)
  {
    hide AcksTrue, ReadsAscend, PlanOk, PushAck, PacketOf, ReceivedOk, RequestOpcode, FindSlot;
    hide IdealEffects, EffectsOf, IdealMessages, RecordsMatch, MidMessage;
    AckCodes();
    GenuineFacts(r.attr.mtu, plan, q);
    PushAckTrue(PastOf(r, plan, done), r, q.packet.psn, SYND_ACK);
    PushAckFields(r, q.packet.psn, SYND_ACK);
    RepliesOnly(r, PushAck(r, q.packet.psn, SYND_ACK), plan, end, done, part);
  }

  // ---------------------------------------------------------------------------
  // The expected packet

  /** The responder is poised before the packet that has its expected PSN. */
  lemma ExpectedIsNext(r: Rq, plan: seq<Item>, end: int, done: nat, part: nat, q: Sent)
    requires ResponderOk(r, plan, end, done, part) && Genuine(r.attr.mtu, plan, q) && q.packet.psn == r.psn
    ensures q.item == done && q.k == part && Poised(r, plan[done], part)
    ensures plan[done].base == StartOf(plan, r.attr.origin, done) && part < StepsOf(plan[done])
    ensures IsRdAtomic(plan[done].wr.opcode) ==> part == 0 && r.psn == plan[done].base
  {
    hide AcksTrue, ReadsAscend, LocalInv, IdealEffects, EffectsOf, IdealMessages, RecordsMatch, PacketOf, GatherOk, RequestOpcode;
    GenuineFacts(r.attr.mtu, plan, q);
    PositionUnique(r.attr.mtu, plan, r.attr.origin, end, q.item, q.k, done, part);
    StartsAtBase(r.attr.mtu, plan, r.attr.origin, end, done);
  }

  /** Replies after executing a SEND or RDMA WRITE packet, or refusing to. */
  ghost predicate AdvanceReplies(r: Rq, t: Rq) {
    || (exists x: Rq, psn :: x.acks == r.acks && t.acks == PushAck(x, psn, SYND_ACK).acks && psn < t.psn)
    || (exists x: Rq, psn, syndrome :: x.acks == r.acks && t.acks == PushAck(x, psn, syndrome).acks
                                       && SyndromeClass(syndrome) == SYND_RNR_NAK)
    || t.acks == []
  }

  lemma RnrClass(r: Rq)
    ensures SyndromeClass(RnrSyndrome(r.attr)) == SYND_RNR_NAK
  {
  }

  lemma SendReplies(r: Rq, packet: Request, mem: WcStatus)
    requires packet.psn == r.psn
    ensures AdvanceReplies(r, ReceiveSend(r, packet, mem))
  {
    hide PushAck, SizeOk, SyndromeClass, Fatal;
    RnrClass(r);
    var t := ReceiveSend(r, packet, mem);
    var r1 := if Initial(packet.op) then r.(offset := 0, partial := []) else r;
    assert Fatal(r1).acks == [] by { FatalEmpty(r1); }
    if t != Fatal(r1) {
      if r1.receives == 0 {
        assert t.acks == PushAck(r1, packet.psn, RnrSyndrome(r.attr)).acks;
      } else {
        var size := packet.size - (if CarriesImm(packet.op) then IMM_SIZE else 0);
        var r2 := r1.(offset := r1.offset + size, partial := r1.partial + packet.payload,
                      effects := r1.effects + [Placed(r1.offset, packet.payload, Final(packet.op))]);
        var r3 := if Final(packet.op) then r2.(receives := r2.receives - 1, inbox := r2.inbox + [r2.partial]) else r2;
        assert t == Advance(r3, packet);
        assert t.acks == PushAck(r3, packet.psn, SYND_ACK).acks && packet.psn < t.psn;
      }
    }
  }

  lemma FatalEmpty(r: Rq)
    ensures Fatal(r).acks == []
  {
  }

  lemma WriteReplies(r: Rq, packet: Request, mem: WcStatus)
    requires packet.psn == r.psn
    ensures AdvanceReplies(r, ReceiveWrite(r, packet, mem))
  {
    hide PushAck, SizeOk, SyndromeClass, Fatal;
    RnrClass(r);
    var t := ReceiveWrite(r, packet, mem);
    var r1 := if Initial(packet.op)
      then r.(offset := 0, writeVaddr := packet.vaddr, writeRkey := packet.rkey, writeLen := packet.dmalen) else r;
    FatalEmpty(r);
    FatalEmpty(r1);
    if t != Fatal(r1) && t != Fatal(r) {
      var imm := CarriesImm(packet.op);
      if imm && r1.receives == 0 {
        assert t.acks == PushAck(r1, packet.psn, RnrSyndrome(r.attr)).acks;
      } else {
        var size := packet.size - (if Initial(packet.op) then RETH_SIZE else 0) - (if imm then IMM_SIZE else 0);
        var notify := Final(packet.op) && imm;
        var r2 := r1.(offset := r1.offset + size,
                      effects := r1.effects + [Wrote(r1.writeRkey, Add64(r1.writeVaddr, r1.offset), packet.payload, notify)],
                      receives := if notify then r1.receives - 1 else r1.receives);
        assert t == Advance(r2, packet);
        assert t.acks == PushAck(r2, packet.psn, SYND_ACK).acks && packet.psn < t.psn;
      }
    }
  }

  /** Where the responder stands after a step, or where it stood. */
  lemma StepExecuted(r: Rq, t: Rq, plan: seq<Item>, done: nat, part: nat)
    requires Executed(r, plan, done, part) && done < |plan| && part < StepsOf(plan[done]) && part < plan[done].all
    requires plan[done].base == StartOf(plan, r.attr.origin, done)
    requires Held(r, t, plan[done], part) || Stepped(r, t, plan[done], part)
    ensures var (done', part') := if t.psn == r.psn then (done, part) else NextPosition(plan, done, part);
      && Executed(t, plan, done', part')
      && Later(PastOf(r, plan, done), PastOf(t, plan, done'))
      && t.attr == r.attr
  {
    hide EffectsOf, IdealEffects, IdealMessages, RecordsMatch, MidMessage, EffectOf, RecordOf;
    if Held(r, t, plan[done], part) {
      HeldExecuted(r, t, plan, done, part);
    } else {
      SteppedExecuted(r, t, plan, done, part);
      assert plan[..done] <= plan[..done + 1];
      assert r.records <= t.records by {
        assert IsRdAtomic(plan[done].wr.opcode) ==> t.records[..|r.records|] == r.records;
      }
    }
  }

  lemma RepliesTrue(p: Past, q: Past, r: Rq, t: Rq)
    requires AcksTrue(p, r.acks) && ReadsAscend(r.acks) && Later(p, q) && q.psn == t.psn
    requires AdvanceReplies(r, t)
    ensures AcksTrue(q, t.acks) && ReadsAscend(t.acks)
  {
    hide AckTrue, PushAck;
    AcksTrueLater(p, q, r.acks);
    AckCodes();
    if t.acks != [] {
      if x: Rq, psn :| x.acks == r.acks && t.acks == PushAck(x, psn, SYND_ACK).acks && psn < t.psn {
        PushAckTrue(q, x, psn, SYND_ACK);
      } else {
        var x: Rq, psn, syndrome :| x.acks == r.acks && t.acks == PushAck(x, psn, syndrome).acks
                                    && SyndromeClass(syndrome) == SYND_RNR_NAK;
        PushAckTrue(q, x, psn, syndrome);
      }
    }
  }

  lemma PlainReceived(r: Rq, t: Rq, plan: seq<Item>, end: int, done: nat, part: nat)
    requires ResponderOk(r, plan, end, done, part)
    requires done < |plan| && part < StepsOf(plan[done]) && part < plan[done].all
    requires plan[done].base == StartOf(plan, r.attr.origin, done)
    requires Held(r, t, plan[done], part) || Stepped(r, t, plan[done], part)
    requires AdvanceReplies(r, t)
    ensures ReceivedOk(r, t, plan, end, done, part)
  {
    hide AcksTrue, ReadsAscend, AdvanceReplies, Executed, Held, Stepped, PlanOk, LocalInv;
    StepExecuted(r, t, plan, done, part);
    var (done', part') := if t.psn == r.psn then (done, part) else NextPosition(plan, done, part);
    assert done <= |plan| && done' <= |plan|;
    RepliesTrue(PastOf(r, plan, done), PastOf(t, plan, done'), r, t);
  }

  lemma AtomicReceived(r: Rq, plan: seq<Item>, end: int, done: nat, mem: WcStatus, result: int)
    requires ResponderOk(r, plan, end, done, 0) && done < |plan| && Poised(r, plan[done], 0)
    requires plan[done].base == StartOf(plan, r.attr.origin, done) == r.psn && IsAtomic(plan[done].wr.opcode)
    ensures ReceivedOk(r, ReceiveAtomicRequest(r, PacketOf(r.attr.mtu, plan[done], 0), mem, result), plan, end, done, 0)
  {
    var packet := PacketOf(r.attr.mtu, plan[done], 0);
    var t := ReceiveAtomicRequest(r, packet, mem, result);
    AtomicStep(r, plan[done], mem, result);
    StepExecuted(r, t, plan, done, 0);
    var (done', part') := if t.psn == r.psn then (done, 0) else NextPosition(plan, done, 0);
    var p, q := PastOf(r, plan, done), PastOf(t, plan, done');
    AtomicAcks(r, packet, mem, result, p, q);
    hide AcksTrue, ReadsAscend, Executed, Held, Stepped, PlanOk, LocalInv, PacketOf, ReceiveAtomicRequest;
  }

  lemma AtomicAcks(r: Rq, packet: Request, mem: WcStatus, result: int, p: Past, q: Past)
    requires SlotsOk(r) && packet.op in {CompareSwap, FetchAdd} && packet.psn == r.psn
    requires AcksTrue(p, r.acks) && ReadsAscend(r.acks) && Later(p, q)
    requires var t := ReceiveAtomicRequest(r, packet, mem, result); q.psn == t.psn && q.records == t.records
    ensures var t := ReceiveAtomicRequest(r, packet, mem, result); AcksTrue(q, t.acks) && ReadsAscend(t.acks)
  {
    hide AckTrue, SlotAt;
    AcksTrueLater(p, q, r.acks);
    var t := ReceiveAtomicRequest(r, packet, mem, result);
    if t != Fatal(r) {
      var a := AtomicAck(packet.psn, packet.psn + 1, result);
      NewAtomicTrue(q, packet.op, packet.psn, result);
      assert t.acks == r.acks + [a];
    }
  }

  lemma NewAtomicTrue(q: Past, op: OpCode, psn: int, result: int)
    requires q.records != [] && psn < q.psn && op in {CompareSwap, FetchAdd}
    requires var slot := q.records[|q.records| - 1]; slot.op == op && slot.psn == psn && slot.result == result
    ensures AckTrue(q, AtomicAck(psn, psn + 1, result))
  {
  }

  lemma ReadAcks(r: Rq, plan: seq<Item>, end: int, done: nat, mem: WcStatus, q: Past)
    requires LocalInv(r) && RecvOk(r.state) && PlanOk(r.attr.mtu, plan, r.attr.origin, end)
    requires done < |plan| && plan[done].wr.opcode == WrRead && r.psn == plan[done].base
    requires var p := PastOf(r, plan, done); AcksTrue(p, r.acks) && ReadsAscend(r.acks) && Later(p, q)
    requires ReceiveNewRead(r, PacketOf(r.attr.mtu, plan[done], 0), mem).psn != r.psn ==>
               plan[done] in q.items && plan[done].End() <= q.psn
    ensures var t := ReceiveNewRead(r, PacketOf(r.attr.mtu, plan[done], 0), mem);
      AcksTrue(q, t.acks) && ReadsAscend(t.acks)
  {
    hide LocalInv, ServeRead, SlotAt;
    SlotsOkFromLocal(r);
    var packet := PacketOf(r.attr.mtu, plan[done], 0);
    FatalEmpty(r);
    if ReadRequestOk(packet, mem) && r.nrRdAtomic < r.attr.maxDest {
      FreshReadServed(r, packet, mem);
      var slot := Slot(ReadRequest, r.psn, plan[done].End(), packet.vaddr, packet.rkey, packet.dmalen, 0);
      ServeReadTrue(PastOf(r, plan, done), WriteSlot(r, slot), packet, plan, r.attr.origin, end, done, done, q);
    }
  }

  lemma ReadReceived(r: Rq, plan: seq<Item>, end: int, done: nat, mem: WcStatus)
    requires ResponderOk(r, plan, end, done, 0) && RecvOk(r.state) && done < |plan| && Poised(r, plan[done], 0)
    requires plan[done].base == StartOf(plan, r.attr.origin, done) == r.psn && plan[done].wr.opcode == WrRead
    ensures ReceivedOk(r, ReceiveNewRead(r, PacketOf(r.attr.mtu, plan[done], 0), mem), plan, end, done, 0)
  {
    hide AcksTrue, ReadsAscend, Held, Stepped, PlanOk, RepliesCounted, NoFatalNak, PacketOf, ReceiveNewRead;
    hide IdealEffects, EffectsOf, IdealMessages, RecordsMatch, MidMessage;
    var t := ReceiveNewRead(r, PacketOf(r.attr.mtu, plan[done], 0), mem);
    ReadStep(r, plan[done], mem);
    StepExecuted(r, t, plan, done, 0);
    var (done', part') := if t.psn == r.psn then (done, 0) else NextPosition(plan, done, 0);
    var q := PastOf(t, plan, done');
    if t.psn != r.psn {
      assert q.items[done] == plan[done];
    }
    ReadAcks(r, plan, end, done, mem, q);
  }

  lemma PlainExpected(r: Rq, plan: seq<Item>, end: int, done: nat, part: nat, q: Sent, mem: WcStatus)
    requires ResponderOk(r, plan, end, done, part) && Genuine(r.attr.mtu, plan, q)
    requires q.packet.psn == r.psn
    ensures q.item == done < |plan|
    ensures IsSend(plan[done].wr.opcode) ==> ReceivedOk(r, ReceiveSend(r, q.packet, mem), plan, end, done, part)
    ensures IsWrite(plan[done].wr.opcode) ==> ReceivedOk(r, ReceiveWrite(r, q.packet, mem), plan, end, done, part)
  {
    hide ReceiveSend, ReceiveWrite, Poised, PacketOf, ReceivedOk, GatherOk, Held, Stepped, AdvanceReplies, ResponderOk;
    ExpectedIsNext(r, plan, end, done, part, q);
    assert part < plan[done].all;
    if IsSend(plan[done].wr.opcode) {
      SendStep(r, plan[done], part, mem);
      SendReplies(r, q.packet, mem);
      PlainReceived(r, ReceiveSend(r, q.packet, mem), plan, end, done, part);
    } else if IsWrite(plan[done].wr.opcode) {
      WriteStep(r, plan[done], part, mem);
      WriteReplies(r, q.packet, mem);
      PlainReceived(r, ReceiveWrite(r, q.packet, mem), plan, end, done, part);
    }
  }

  lemma PoisedSlots(r: Rq, plan: seq<Item>, end: int, done: nat, part: nat)
    requires ResponderOk(r, plan, end, done, part)
    ensures SlotsOk(r)
  {
    hide Executed, AcksTrue, ReadsAscend, PlanOk;
  }

  /** The opcode of the expected packet always passes the order check, and its execution is the next step. */
  lemma ExpectedReceived(r: Rq, plan: seq<Item>, end: int, done: nat, part: nat, q: Sent, mem: WcStatus, result: int)
    requires ResponderOk(r, plan, end, done, part) && Genuine(r.attr.mtu, plan, q)
    requires q.packet.psn == r.psn && RecvOk(r.state)
    ensures InOrder(q.packet.op, r.lastOp)
    ensures SlotsOk(r) && ReceivedOk(r, ReceiveExpected(r, q.packet, mem, result), plan, end, done, part)
  {
    hide ReceiveNewRead, ReceiveAtomicRequest, ReceiveSend, ReceiveWrite, ResponderOk, Poised, PacketOf, ReceivedOk, GatherOk, InOrder;
    ExpectedIsNext(r, plan, end, done, part, q);
    PoisedSlots(r, plan, end, done, part);
    GenuineFacts(r.attr.mtu, plan, q);
    NextInOrder(r, plan[done], part);
    var opcode := plan[done].wr.opcode;
    if opcode == WrRead {
      ReadReceived(r, plan, end, done, mem);
    } else if IsAtomic(opcode) {
      AtomicReceived(r, plan, end, done, mem, result);
    } else {
      OpcodeShape(opcode, plan[done].all, part);
      PlainExpected(r, plan, end, done, part, q, mem);
    }
  }

  /** Only the expected packet moves the responder on. */
  lemma OldKeepsPsn(r: Rq, packet: Request, mem: WcStatus)
    requires SlotsOk(r)
    ensures ReceiveOld(r, packet, mem).psn == r.psn
  {
    hide FindSlot, RetryValid, Keep, CountReplies, SyndromeClass;
  }

  lemma MovesOnExpected(r: Rq, packet: Request, mem: WcStatus, result: int)
    requires SlotsOk(r)
    ensures ReceiveRequest(r, packet, mem, result).psn != r.psn ==> PsnDiff(packet.psn, r.psn) == 0
  {
    hide ReceiveOld, ReceiveExpected, PsnDiff, PushAck;
    OldKeepsPsn(r, packet, mem);
    PushAckFields(r, packet.psn, SYND_PSN_SEQ_ERR);
  }

  /** Any packet of the log, delivered at any time within its lifetime. */
  lemma RequestReceived(r: Rq, plan: seq<Item>, end: int, done: nat, part: nat, q: Sent, mem: WcStatus, result: int)
    requires ResponderOk(r, plan, end, done, part) && Genuine(r.attr.mtu, plan, q)
    requires Close(q.packet.psn, r.psn)
    ensures SlotsOk(r) && ReceivedOk(r, ReceiveRequest(r, q.packet, mem, result), plan, end, done, part)
  {
    DiffExact(q.packet.psn, r.psn);
    if !RecvOk(r.state) {
      RepliesOnly(r, r, plan, end, done, part);
    } else if q.packet.psn > r.psn {
      AheadReceived(r, q.packet, plan, end, done, part);
    } else if q.packet.psn < r.psn {
      if IsRdAtomic(plan[q.item].wr.opcode) {
        OldRdReceived(r, plan, end, done, part, q, mem);
      } else {
        OldPlainReceived(r, plan, end, done, part, q, mem);
      }
    } else {
      ExpectedReceived(r, plan, end, done, part, q, mem, result);
    }
    hide ReceivedOk, ReceiveExpected, ReceiveOld, PushAck, Executed, AcksTrue, ReadsAscend, PlanOk, Genuine, PsnDiff;
  }
}
