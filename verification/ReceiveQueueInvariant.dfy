/**
  What every operation of the responder keeps, for every request packet whatever it says.
 */
module ReceiveQueueInvariant {
  import opened OpCode
  import opened WorkRequest
  import opened SendQueue
  import opened ReceiveQueue

  /** nr_rd_atomic counts the queued RDMA READ and atomic acknowledges. */
  ghost predicate RepliesCounted(r: Rq) {
    r.nrRdAtomic == CountReplies(r.acks)
  }

  /** The three acknowledges that can wait in the queue: ACK, RNR NAK and PSN sequence error. */
  predicate Retryable(syndrome: int) {
    SyndromeClass(syndrome) == SYND_ACK || SyndromeClass(syndrome) == SYND_RNR_NAK || syndrome == SYND_PSN_SEQ_ERR
  }

  ghost predicate NoFatalNak(acks: seq<Ack>) {
    forall i :: 0 <= i < |acks| && acks[i].NormalAck? ==> Retryable(acks[i].syndrome)
  }

  /** The ring holds the latest sixteen slots ever written. */
  ghost predicate RingOk(r: Rq) {
    && |r.slots| == MAX_RD_ATOM
    && r.slotIndex == |r.records|
    && (forall i :: 0 <= i < |r.records| && |r.records| - MAX_RD_ATOM <= i ==>
          r.slots[i % MAX_RD_ATOM] == r.records[i])
    && (forall i :: |r.records| <= i < MAX_RD_ATOM ==> r.slots[i] == EMPTY_SLOT)
  }

  ghost predicate LocalInv(r: Rq) {
    RepliesCounted(r) && NoFatalNak(r.acks) && RingOk(r)
  }

  // ---------------------------------------------------------------------------

  lemma {:induction false} CountRepliesJoin(a: seq<Ack>, b: seq<Ack>)
    ensures CountReplies(a + b) == CountReplies(a) + CountReplies(b)
  {
    if b == [] {
      assert a + b == a;
    } else {
      CountRepliesJoin(a, b[..|b| - 1]);
      assert (a + b)[..|a + b| - 1] == a + b[..|b| - 1];
    }
  }

  lemma CountOne(a: Ack)
    ensures CountReplies([a]) == if a.NormalAck? then 0 else 1
  {
    assert [a][..0] == [];
  }

  lemma CountPush(acks: seq<Ack>, a: Ack)
    ensures CountReplies(acks + [a]) == CountReplies(acks) + if a.NormalAck? then 0 else 1
  {
    CountRepliesJoin(acks, [a]);
    CountOne(a);
  }

  lemma CountPop(acks: seq<Ack>)
    requires acks != []
    ensures CountReplies(acks) == CountReplies(acks[1..]) + if acks[0].NormalAck? then 0 else 1
  {
    CountRepliesJoin([acks[0]], acks[1..]);
    CountOne(acks[0]);
    assert [acks[0]] + acks[1..] == acks;
  }

  lemma {:induction false} KeepCount(acks: seq<Ack>, psn: int, expected: int)
    ensures CountReplies(Keep(acks, psn, expected)) <= CountReplies(acks)
  {
    hide Overlaps;
    if acks != [] {
      var n := |acks| - 1;
      var front := Keep(acks[..n], psn, expected);
      KeepCount(acks[..n], psn, expected);
      CountPush(front, acks[n]);
      assert front + [] == front;
    }
  }

  /** What is left is what does not overlap. */
  lemma {:induction false} KeepMembers(acks: seq<Ack>, psn: int, expected: int, a: Ack)
    ensures a in Keep(acks, psn, expected) <==> a in acks && !Overlaps(a, psn, expected)
  {
    hide Overlaps;
    if acks != [] {
      var n := |acks| - 1;
      KeepMembers(acks[..n], psn, expected, a);
      assert acks == acks[..n] + [acks[n]];
    }
  }

  lemma AckCodes()
    ensures SyndromeClass(SYND_ACK) == SYND_ACK && SyndromeClass(SYND_PSN_SEQ_ERR) == SYND_NAK
  {
  }

  lemma PushAckKeeps(r: Rq, psn: int, syndrome: int)
    requires LocalInv(r) && Retryable(syndrome)
    ensures LocalInv(PushAck(r, psn, syndrome))
  {
    var n := |r.acks|;
    var r' := PushAck(r, psn, syndrome);
    if r'.acks == r.acks + [NormalAck(psn, psn + 1, syndrome)] {
      CountPush(r.acks, NormalAck(psn, psn + 1, syndrome));
    } else if r' != r {
      var a := NormalAck(psn, psn + 1, r.acks[n - 1].syndrome);
      assert r.acks == r.acks[..n - 1] + [r.acks[n - 1]];
      assert r'.acks == r.acks[..n - 1] + [a];
      CountPush(r.acks[..n - 1], r.acks[n - 1]);
      CountPush(r.acks[..n - 1], a);
    }
  }

  lemma PushAtomicKeeps(r: Rq, psn: int, result: int)
    requires LocalInv(r)
    ensures LocalInv(PushAtomic(r, psn, result))
  {
    CountPush(r.acks, AtomicAck(psn, psn + 1, result));
  }

  lemma PushReadKeeps(r: Rq, psn: int, expected: int, vaddr: int, rkey: int, size: int)
    requires LocalInv(r)
    ensures LocalInv(PushRead(r, psn, expected, vaddr, rkey, size))
  {
    CountPush(r.acks, ReadAck(psn, expected, vaddr, rkey, size, 0));
  }

  lemma RemoveOverlappedKeeps(r: Rq, psn: int, expected: int)
    requires LocalInv(r)
    ensures LocalInv(RemoveOverlapped(r, psn, expected))
    ensures RemoveOverlapped(r, psn, expected).nrRdAtomic <= r.nrRdAtomic
  {
    hide Keep, Overlaps, CountReplies;
    KeepCount(r.acks, psn, expected);
    var kept := Keep(r.acks, psn, expected);
    forall i | 0 <= i < |kept| && kept[i].NormalAck? ensures Retryable(kept[i].syndrome) {
      KeepMembers(r.acks, psn, expected, kept[i]);
    }
  }

  lemma FatalKeeps(r: Rq)
    requires RingOk(r)
    ensures LocalInv(Fatal(r))
  {
  }

  lemma SlotAtMod(slotIndex: int, i: int)
    ensures SlotAt(slotIndex, i) == (slotIndex - i) % MAX_RD_ATOM
  {
    var x := slotIndex - i;
    SameMod16(x, x % 0x1_0000_0000, 0x1000_0000 * (x / 0x1_0000_0000));
  }

  lemma SameMod16(a: int, b: int, k: int)
    requires a == b + 16 * k
    ensures a % 16 == b % 16
  {
    assert a / 16 == b / 16 + k;
  }

  lemma RingDistinct(i: nat, n: nat)
    requires i < n && n - MAX_RD_ATOM < i
    ensures i % MAX_RD_ATOM != n % MAX_RD_ATOM
  {
  }

  lemma WriteSlotKeeps(r: Rq, slot: Slot)
    requires LocalInv(r)
    ensures LocalInv(WriteSlot(r, slot))
  {
    hide SlotAt, CountReplies;
    var r' := WriteSlot(r, slot);
    var n := |r.records|;
    SlotAtMod(r.slotIndex, 0);
    forall i | 0 <= i < n + 1 && n + 1 - MAX_RD_ATOM <= i
      ensures r'.slots[i % MAX_RD_ATOM] == r'.records[i]
    {
      if i < n {
        RingDistinct(i, n);
      }
    }
    forall i | n + 1 <= i < MAX_RD_ATOM ensures r'.slots[i] == EMPTY_SLOT {
    }
  }

  lemma ServeReadKeeps(r: Rq, packet: Request, expected: int)
    requires LocalInv(r)
    ensures LocalInv(ServeRead(r, packet, expected))
    ensures r.nrRdAtomic < r.attr.maxDest ==> ServeRead(r, packet, expected).state == r.state
  {
    var r1 := RemoveOverlapped(r, packet.psn, expected);
    RemoveOverlappedKeeps(r, packet.psn, expected);
    FatalKeeps(r1);
    PushReadKeeps(r1, packet.psn, expected, packet.vaddr, packet.rkey, packet.dmalen);
  }

  /** A new RDMA READ that passes the first limit check never fails the second. */
  lemma FreshReadServed(r: Rq, packet: Request, mem: WcStatus)
    requires LocalInv(r) && RecvOk(r.state)
    requires ReadRequestOk(packet, mem) && r.nrRdAtomic < r.attr.maxDest
    ensures RecvOk(ReceiveNewRead(r, packet, mem).state)
    ensures ReceiveNewRead(r, packet, mem).psn == r.psn + NumPackets(r.attr.mtu, packet.dmalen)
  {
    var n := NumPackets(r.attr.mtu, packet.dmalen);
    var slot := Slot(ReadRequest, r.psn, r.psn + n, packet.vaddr, packet.rkey, packet.dmalen, 0);
    WriteSlotKeeps(r, slot);
    ServeReadKeeps(WriteSlot(r, slot), packet, slot.expected);
  }

  lemma SideFields(r: Rq, t: Rq)
    requires LocalInv(r)
    requires t.nrRdAtomic == r.nrRdAtomic && t.acks == r.acks && t.slots == r.slots
    requires t.slotIndex == r.slotIndex && t.records == r.records
    ensures LocalInv(t)
  {
  }

  lemma SlotsOkFromLocal(r: Rq)
    requires LocalInv(r)
    ensures SlotsOk(r)
  {
  }

  lemma RnrRetryable(r: Rq)
    ensures Retryable(RnrSyndrome(r.attr))
  {
  }

  lemma ReceiveSendKeeps(r: Rq, packet: Request, mem: WcStatus)
    requires LocalInv(r)
    ensures LocalInv(ReceiveSend(r, packet, mem))
  {
    hide LocalInv, PushAck, SizeOk;
    var r1 := if Initial(packet.op) then r.(offset := 0, partial := []) else r;
    SideFields(r, r1);
    RnrRetryable(r);
    PushAckKeeps(r1, packet.psn, RnrSyndrome(r.attr));
    FatalFromLocal(r1);
    var size := packet.size - (if CarriesImm(packet.op) then IMM_SIZE else 0);
    var r2 := r1.(offset := r1.offset + size, partial := r1.partial + packet.payload,
                  effects := r1.effects + [Placed(r1.offset, packet.payload, Final(packet.op))]);
    var r3 := if Final(packet.op) && r2.receives > 0 then r2.(receives := r2.receives - 1, inbox := r2.inbox + [r2.partial]) else r2;
    SideFields(r1, r3);
    AdvanceKeeps(r3, packet);
  }

  lemma FatalFromLocal(r: Rq)
    requires LocalInv(r)
    ensures LocalInv(Fatal(r))
  {
    FatalKeeps(r);
  }

  lemma AdvanceKeeps(r: Rq, packet: Request)
    requires LocalInv(r)
    ensures LocalInv(Advance(r, packet))
  {
    AckCodes();
    PushAckKeeps(r, packet.psn, SYND_ACK);
    hide LocalInv, PushAck;
    SideFields(PushAck(r, packet.psn, SYND_ACK), Advance(r, packet));
  }

  lemma ReceiveWriteKeeps(r: Rq, packet: Request, mem: WcStatus)
    requires LocalInv(r)
    ensures LocalInv(ReceiveWrite(r, packet, mem))
  {
    hide LocalInv, PushAck, SizeOk, Advance, Fatal;
    var r1 := if Initial(packet.op)
      then r.(offset := 0, writeVaddr := packet.vaddr, writeRkey := packet.rkey, writeLen := packet.dmalen) else r;
    SideFields(r, r1);
    RnrRetryable(r);
    PushAckKeeps(r1, packet.psn, RnrSyndrome(r.attr));
    FatalFromLocal(r);
    FatalFromLocal(r1);
    if ReceiveWrite(r, packet, mem) != Fatal(r1) {
      var imm := CarriesImm(packet.op);
      var size := packet.size - (if Initial(packet.op) then RETH_SIZE else 0) - (if imm then IMM_SIZE else 0);
      var notify := Final(packet.op) && imm;
      if !(notify && r1.receives == 0) {
        var r2 := r1.(offset := r1.offset + size,
                      effects := r1.effects + [Wrote(r1.writeRkey, Add64(r1.writeVaddr, r1.offset), packet.payload, notify)],
                      receives := if notify then r1.receives - 1 else r1.receives);
        SideFields(r1, r2);
        AdvanceKeeps(r2, packet);
      }
    }
  }

  lemma ReceiveAtomicKeeps(r: Rq, packet: Request, mem: WcStatus, result: int)
    requires LocalInv(r)
    ensures LocalInv(ReceiveAtomicRequest(r, packet, mem, result))
  {
    FatalFromLocal(r);
    hide LocalInv, Fatal, SlotAt;
    var t := ReceiveAtomicRequest(r, packet, mem, result);
    if t != Fatal(r) {
      var slot := Slot(packet.op, r.psn, r.psn + 1, packet.vaddr, packet.rkey, 0, result);
      WriteSlotKeeps(r, slot);
      var u := WriteSlot(r, slot);
      PushAtomicKeeps(u, packet.psn, result);
      SideFields(PushAtomic(u, packet.psn, result), t);
    }
  }

  lemma ReceiveNewReadKeeps(r: Rq, packet: Request, mem: WcStatus)
    requires LocalInv(r)
    ensures LocalInv(ReceiveNewRead(r, packet, mem))
  {
    hide LocalInv, ServeRead, Fatal, SlotAt, NumPackets;
    SlotsOkFromLocal(r);
    FatalFromLocal(r);
    if ReadRequestOk(packet, mem) && r.nrRdAtomic < r.attr.maxDest {
      var n := NumPackets(r.attr.mtu, packet.dmalen);
      var slot := Slot(ReadRequest, r.psn, r.psn + n, packet.vaddr, packet.rkey, packet.dmalen, 0);
      WriteSlotKeeps(r, slot);
      var r1 := ServeRead(WriteSlot(r, slot), packet, slot.expected);
      ServeReadKeeps(WriteSlot(r, slot), packet, slot.expected);
      SideFields(r1, ReceiveNewRead(r, packet, mem));
    }
  }

  lemma ReceiveOldKeeps(r: Rq, packet: Request, mem: WcStatus)
    requires LocalInv(r)
    ensures SlotsOk(r) && LocalInv(ReceiveOld(r, packet, mem))
  {
    FatalKeeps(r);
    AckCodes();
    PushAckKeeps(r, packet.psn, SYND_ACK);
    hide LocalInv, ServeRead, Fatal, PushAck, PushAtomic, FindSlot, RetryValid;
    match FindSlot(r, packet.op, packet.psn, 1)
    case None =>
    case Some(slot) =>
      PushAtomicKeeps(r, packet.psn, slot.result);
      ServeReadKeeps(r, packet, slot.expected);
  }

  /** Every request packet, in any state. */
  lemma ReceiveRequestKeeps(r: Rq, packet: Request, mem: WcStatus, result: int)
    requires LocalInv(r)
    ensures SlotsOk(r) && LocalInv(ReceiveRequest(r, packet, mem, result))
  {
    hide LocalInv, Fatal, PushAck, ReceiveOld, ReceiveSend, ReceiveWrite, ReceiveAtomicRequest, ReceiveNewRead, InOrder;
    SlotsOkFromLocal(r);
    FatalFromLocal(r);
    AckCodes();
    PushAckKeeps(r, packet.psn, SYND_PSN_SEQ_ERR);
    ReceiveOldKeeps(r, packet, mem);
    ReceiveSendKeeps(r, packet, mem);
    ReceiveWriteKeeps(r, packet, mem);
    ReceiveAtomicKeeps(r, packet, mem, result);
    ReceiveNewReadKeeps(r, packet, mem);
  }

  lemma GenerateKeeps(r: Rq, memOk: bool)
    requires LocalInv(r)
    ensures LocalInv(Generate(r, memOk).0)
  {
    if RecvOk(r.state) && r.acks != [] {
      CountPop(r.acks);
      var (r', _) := Generate(r, memOk);
      if r'.acks != r.acks[1..] {
        CountPop(r'.acks);
        assert r'.acks[1..] == r.acks[1..];
      }
      hide RingOk, ReadResponse;
    }
  }
}
