/**
  The responder as the driver runs it: fields, a ring of slots and a list of acknowledges
  updated in place.  Each method is proved to take the queue pair to the state ReceiveQueue.dfy
  gives for the whole operation.
 */
module ResponderClass {
  import opened Psn
  import opened OpCode
  import opened WorkRequest
  import opened SendQueue
  import RQ = ReceiveQueue
  import opened ReceiveQueue
  import RQI = ReceiveQueueInvariant

  lemma {:induction false} KeepJoin(a: seq<Ack>, b: seq<Ack>, psn: int, expected: int)
    ensures Keep(a + b, psn, expected) == Keep(a, psn, expected) + Keep(b, psn, expected)
  {
    hide Overlaps;
    if b == [] {
      assert a + b == a;
    } else {
      KeepJoin(a, b[..|b| - 1], psn, expected);
      assert (a + b)[..|a + b| - 1] == a + b[..|b| - 1];
    }
  }

  lemma KeepOne(a: Ack, psn: int, expected: int)
    ensures Keep([a], psn, expected) == if Overlaps(a, psn, expected) then [] else [a]
  {
    assert [a][..0] == [];
  }

  /** Adding one entry in front of a list already filtered. */
  lemma KeepFront(acks: seq<Ack>, i: nat, psn: int, expected: int)
    requires i < |acks|
    ensures Keep(acks[i..], psn, expected)
            == (if Overlaps(acks[i], psn, expected) then [] else [acks[i]]) + Keep(acks[i + 1..], psn, expected)
    ensures CountReplies(acks[i..]) == CountReplies(acks[i + 1..]) + if acks[i].NormalAck? then 0 else 1
    ensures CountReplies(Keep(acks[i..], psn, expected)) == CountReplies(Keep(acks[i + 1..], psn, expected))
            + if acks[i].NormalAck? || Overlaps(acks[i], psn, expected) then 0 else 1
  {
    hide Overlaps;
    assert acks[i..] == [acks[i]] + acks[i + 1..];
    KeepJoin([acks[i]], acks[i + 1..], psn, expected);
    KeepOne(acks[i], psn, expected);
    RQI.CountRepliesJoin([acks[i]], acks[i + 1..]);
    RQI.CountOne(acks[i]);
    RQI.CountRepliesJoin(Keep([acks[i]], psn, expected), Keep(acks[i + 1..], psn, expected));
  }

  class Responder {
    const attr: RqAttr
    const slots: array<Slot>
    var state: QpState
    var psn: int
    var lastOp: OpCode
    var offset: int
    var receives: nat
    var writeVaddr: int
    var writeRkey: int
    var writeLen: int
    var slotIndex: int
    var acks: seq<Ack>
    var nrRdAtomic: int
    var nrContigReads: int
    ghost var effects: seq<Effect>
    ghost var records: seq<Slot>
    ghost var inbox: seq<seq<Byte>>
    ghost var partial: seq<Byte>

    ghost predicate Valid() {
      slots.Length == MAX_RD_ATOM
    }

    ghost function View(): Rq
      reads this, slots
    {
      Rq(attr, state, psn, lastOp, offset, receives, writeVaddr, writeRkey, writeLen,
         slotIndex, slots[..], acks, nrRdAtomic, nrContigReads, effects, records, inbox, partial)
    }

    constructor (a: RqAttr)
      ensures Valid() && fresh(slots)
      ensures View() == Rq(a, RTR, a.origin, RESET_OPCODE, 0, 0, 0, 0, 0, 0,
                           seq(MAX_RD_ATOM, _ => EMPTY_SLOT), [], 0, 0, [], [], [], [])
    {
      attr := a;
      slots := new Slot[MAX_RD_ATOM](_ => EMPTY_SLOT);
      state, psn, lastOp, offset, receives := RTR, a.origin, RESET_OPCODE, 0, 0;
      writeVaddr, writeRkey, writeLen, slotIndex := 0, 0, 0, 0;
      acks, nrRdAtomic, nrContigReads := [], 0, 0;
      effects, records, inbox, partial := [], [], [], [];
    }

    /** push_acknowledge. */
    method PushAck(psn': int, syndrome: int)
      modifies `acks, `nrContigReads
      ensures View() == RQ.PushAck(old(View()), psn', syndrome)
    {
      hide SyndromeClass;
      var n := |acks|;
      if n > 0 && acks[n - 1].NormalAck? {
        var c, l := SyndromeClass(syndrome), SyndromeClass(acks[n - 1].syndrome);
        if c == SYND_RNR_NAK && l == SYND_RNR_NAK {
          return;
        }
        if c == SYND_ACK && l == SYND_ACK {
          acks := acks[n - 1 := NormalAck(psn', psn' + 1, acks[n - 1].syndrome)];
          return;
        }
      }
      acks := acks + [NormalAck(psn', psn' + 1, syndrome)];
      if SyndromeClass(syndrome) != SYND_ACK {
        nrContigReads := 0;
      }
    }

    /** remove_overlapped_rdma_read_acknowledge: from the tail, deleting as it goes. */
    method RemoveOverlapped(psn': int, expected: int)
      modifies `acks, `nrRdAtomic
      ensures View() == RQ.RemoveOverlapped(old(View()), psn', expected)
    {
      hide Overlaps, Keep, CountReplies;
      ghost var r := View();
      RemoveLoop(psn', expected);
      assert View() == r.(acks := acks, nrRdAtomic := nrRdAtomic);
    }

    method RemoveLoop(psn': int, expected: int)
      modifies `acks, `nrRdAtomic
      ensures acks == Keep(old(acks), psn', expected)
      ensures nrRdAtomic == old(nrRdAtomic) - (CountReplies(old(acks)) - CountReplies(Keep(old(acks), psn', expected)))
    {
      hide Overlaps, Keep, CountReplies;
      ghost var all := acks;
      var i := |acks|;
      assert all[i..] == [] && Keep([], psn', expected) == [] by { KeepEmpty(psn', expected); }
      while i > 0
        invariant 0 <= i <= |all|
        invariant acks == all[..i] + Keep(all[i..], psn', expected)
        invariant nrRdAtomic == old(nrRdAtomic) - (CountReplies(all[i..]) - CountReplies(Keep(all[i..], psn', expected)))
      {
        i := i - 1;
        KeepFront(all, i, psn', expected);
        ghost var kept := Keep(all[i + 1..], psn', expected);
        DropOne(all, i, kept, acks);
        if Overlaps(acks[i], psn', expected) {
          if !acks[i].NormalAck? {
            nrRdAtomic := nrRdAtomic - 1;
          }
          acks := acks[..i] + acks[i + 1..];
        }
      }
      assert all[0..] == all;
    }

    /** Flushing with the queue pair in ERR: receive entries and acknowledges go. */
    method RaiseError(psn': int, syndrome: int)
      modifies `acks, `nrRdAtomic, `state, `receives, `nrContigReads
      ensures View() == Fatal(old(View()))
    {
      PushAck(psn', syndrome);
      state := ERR;
      receives := 0;
      acks := [];
      nrRdAtomic := 0;
      nrContigReads := 0;
    }

    /** The newest-first loop over the slots. */
    method FindSlot(op: OpCode, psn': int) returns (found: Option<Slot>)
      requires Valid()
      ensures found == RQ.FindSlot(View(), op, psn', 1)
    {
      hide SlotMatches, SlotAt;
      var i := 1;
      while i <= attr.maxDest
        invariant 1 <= i <= attr.maxDest + 1
        invariant RQ.FindSlot(View(), op, psn', 1) == RQ.FindSlot(View(), op, psn', i)
      {
        var k := SlotAt(slotIndex, i);
        SlotAtRange(slotIndex, i);
        if SlotMatches(slots[k], op, psn') {
          return Some(slots[k]);
        }
        i := i + 1;
      }
      return None;
    }

    /** slots[(slot_index++) % PIB_MAX_RD_ATOM] = slot. */
    method WriteSlot(slot: Slot)
      requires Valid()
      modifies `slotIndex, `records, slots
      ensures View() == RQ.WriteSlot(old(View()), slot)
    {
      hide SlotAt;
      var k := SlotAt(slotIndex, 0);
      SlotAtRange(slotIndex, 0);
      slots[k] := slot;
      slotIndex := slotIndex + 1;
      records := records + [slot];
      assert slots[..] == old(slots[..])[k := slot];
    }

    /** The end of receive_request for a packet that was executed. */
    method Advance(packet: Request)
      modifies `acks, `nrContigReads, `psn, `lastOp
      ensures View() == RQ.Advance(old(View()), packet)
    {
      hide SyndromeClass;
      PushAck(packet.psn, SYND_ACK);
      psn := psn + 1;
      lastOp := packet.op;
    }

    method PlaceSend(packet: Request, size: int)
      requires receives > 0
      modifies `effects, `offset, `partial, `inbox, `receives
      ensures View() == RQ.PlaceSend(old(View()), packet, size)
    {
      effects := effects + [Placed(offset, packet.payload, Final(packet.op))];
      offset, partial := offset + size, partial + packet.payload;
      if Final(packet.op) {
        inbox := inbox + [partial];
        receives := receives - 1;
      }
    }

    /** receive_SEND_request. */
    method ReceiveSend(packet: Request, mem: WcStatus)
      modifies `offset, `partial, `effects, `inbox, `receives, `acks, `nrRdAtomic, `nrContigReads, `state, `psn, `lastOp
      ensures View() == RQ.ReceiveSend(old(View()), packet, mem)
    {
      hide RQ.PushAck, SizeOk, RnrSyndrome, RQ.Advance, RQ.PlaceSend, Fatal;
      ghost var r := View();
      if Initial(packet.op) {
        offset, partial := 0, [];
      }
      ghost var r1 := View();
      assert r1 == if Initial(packet.op) then r.(offset := 0, partial := []) else r;
      var size := packet.size - (if CarriesImm(packet.op) then IMM_SIZE else 0);
      if receives == 0 {
        PushAck(packet.psn, RnrSyndrome(attr));
      } else if size < 0 || !SizeOk(attr.mtu, packet.op, size) || mem != Success {
        RaiseError(packet.psn, SYND_INV_REQ_ERR);
      } else {
        PlaceSend(packet, size);
        Advance(packet);
      }
    }

    method PlaceWrite(packet: Request, size: int)
      requires CarriesImm(packet.op) ==> receives > 0
      modifies `effects, `offset, `receives
      ensures View() == RQ.PlaceWrite(old(View()), packet, size)
    {
      hide Add64;
      var notify := Final(packet.op) && CarriesImm(packet.op);
      effects := effects + [Wrote(writeRkey, Add64(writeVaddr, offset), packet.payload, notify)];
      offset := offset + size;
      if notify {
        receives := receives - 1;
      }
    }

    /** The part of receive_RDMA_WRITE_request after the RDMA header. */
    method WriteBody(packet: Request, size1: int, mem: WcStatus)
      modifies this
      ensures View() == RQ.WriteBody(old(View()), packet, size1, mem)
    {
      hide RQ.PushAck, SizeOk, RnrSyndrome, RQ.Advance, RQ.PlaceWrite, Fatal;
      var size := size1;
      if CarriesImm(packet.op) {
        if receives == 0 {
          PushAck(packet.psn, RnrSyndrome(attr));
          return;
        }
        if size < IMM_SIZE {
          RaiseError(packet.psn, SYND_INV_REQ_ERR);
          return;
        }
        size := size - IMM_SIZE;
      }
      if !SizeOk(attr.mtu, packet.op, size)
         || writeLen < offset + size
         || (Final(packet.op) && writeLen != offset + size)
         || MAX_PAYLOAD_LEN < writeLen || mem != Success
      {
        RaiseError(packet.psn, SYND_REM_ACCESS_ERR);
        return;
      }
      PlaceWrite(packet, size);
      Advance(packet);
    }

    /** receive_RDMA_WRITE_request. */
    method ReceiveWrite(packet: Request, mem: WcStatus)
      modifies this
      ensures View() == RQ.ReceiveWrite(old(View()), packet, mem)
    {
      hide RQ.WriteBody, Fatal;
      var size := packet.size;
      if Initial(packet.op) {
        if size < RETH_SIZE {
          RaiseError(packet.psn, SYND_INV_REQ_ERR);
          return;
        }
        size := size - RETH_SIZE;
        OpenWrite(packet);
      }
      WriteBody(packet, size, mem);
    }

    /** The RDMA header names where the whole message goes. */
    method OpenWrite(packet: Request)
      modifies `offset, `writeVaddr, `writeRkey, `writeLen
      ensures View() == old(View()).(offset := 0, writeVaddr := packet.vaddr, writeRkey := packet.rkey, writeLen := packet.dmalen)
    {
      offset, writeVaddr, writeRkey, writeLen := 0, packet.vaddr, packet.rkey, packet.dmalen;
    }

    /** push_atomic_acknowledge. */
    method PushAtomic(psn': int, result: int)
      modifies `acks, `nrRdAtomic
      ensures View() == RQ.PushAtomic(old(View()), psn', result)
    {
      acks := acks + [AtomicAck(psn', psn' + 1, result)];
      nrRdAtomic := nrRdAtomic + 1;
    }

    /** receive_Atomic_request. */
    method ReceiveAtomicRequest(packet: Request, mem: WcStatus, result: int)
      requires Valid()
      modifies `slotIndex, `records, `acks, `nrRdAtomic, `state, `receives, `psn, `lastOp, `effects, `nrContigReads, slots
      ensures View() == RQ.ReceiveAtomicRequest(old(View()), packet, mem, result)
    {
      hide RQ.WriteSlot, RQ.PushAtomic, Fatal;
      if packet.size != ATOMIC_ETH_SIZE || packet.vaddr % 8 != 0 || attr.maxDest <= nrRdAtomic || mem != Success {
        RaiseError(packet.psn, SYND_INV_REQ_ERR);
        return;
      }
      ghost var s := View();
      WriteSlot(Slot(packet.op, psn, psn + 1, packet.vaddr, packet.rkey, 0, result));
      PushAtomic(packet.psn, result);
      AtomicFields(s, packet, result);
      MoveOn(1, packet.op, AtomicApplied(packet.rkey, packet.vaddr));
    }

    /** The end of receive_request for an executed RDMA READ or atomic. */
    method MoveOn(n: nat, op: OpCode, effect: Effect)
      modifies `psn, `lastOp, `effects
      ensures View() == old(View()).(psn := old(psn) + n, lastOp := op, effects := old(effects) + [effect])
    {
      psn := psn + n;
      lastOp := op;
      effects := effects + [effect];
    }

    /** The common end of receive_RDMA_READ_request. */
    method ServeRead(packet: Request, expected: int) returns (ok: bool)
      modifies `acks, `nrRdAtomic, `state, `receives, `nrContigReads
      ensures View() == RQ.ServeRead(old(View()), packet, expected)
      ensures ok == (RQ.RemoveOverlapped(old(View()), packet.psn, expected).nrRdAtomic < attr.maxDest)
    {
      hide RQ.RemoveOverlapped, Fatal;
      RemoveOverlapped(packet.psn, expected);
      RemoveFields(old(View()), packet.psn, expected);
      if attr.maxDest <= nrRdAtomic {
        RaiseError(packet.psn, SYND_INV_REQ_ERR);
        return false;
      }
      acks := acks + [ReadAck(packet.psn, expected, packet.vaddr, packet.rkey, packet.dmalen, 0)];
      nrRdAtomic := nrRdAtomic + 1;
      nrContigReads := 0;
      return true;
    }

    /** receive_RDMA_READ_request for a new request. */
    method ReceiveNewRead(packet: Request, mem: WcStatus)
      requires Valid()
      modifies this, slots
      ensures RecvOk(old(state)) ==> View() == RQ.ReceiveNewRead(old(View()), packet, mem)
    {
      hide RQ.ServeRead, RQ.WriteSlot, Fatal, RQ.RemoveOverlapped;
      if !ReadRequestOk(packet, mem) || attr.maxDest <= nrRdAtomic {
        RaiseError(packet.psn, SYND_INV_REQ_ERR);
        return;
      }
      ghost var s := View();
      var n := NumPackets(attr.mtu, packet.dmalen);
      var slot := Slot(ReadRequest, psn, psn + n, packet.vaddr, packet.rkey, packet.dmalen, 0);
      WriteSlot(slot);
      var ok := ServeRead(packet, slot.expected);
      NewReadFields(s, slot, packet);
      if ok {
        MoveOn(n, packet.op, ReadAccepted(packet.rkey, packet.vaddr, packet.dmalen));
      }
    }

    /** A request before the expected one. */
    method ReceiveOld(packet: Request, mem: WcStatus)
      requires Valid()
      modifies this
      ensures View() == RQ.ReceiveOld(old(View()), packet, mem)
    {
      hide RQ.ServeRead, Fatal, RQ.FindSlot, RQ.PushAck, RQ.PushAtomic, RetryValid;
      if packet.op in {ReadRequest, CompareSwap, FetchAdd} {
        var found := FindSlot(packet.op, packet.psn);
        if found.None? {
          RaiseError(packet.psn, SYND_INV_REQ_ERR);
        } else if packet.op == ReadRequest {
          if !ReadRequestOk(packet, mem) || !RetryValid(attr.mtu, found.value, packet) {
            RaiseError(packet.psn, SYND_INV_REQ_ERR);
          } else {
            var ok := ServeRead(packet, found.value.expected);
          }
        } else {
          PushAtomic(packet.psn, found.value.result);
        }
      } else {
        PushAck(packet.psn, SYND_ACK);
      }
    }

    /** receive_request. */
    method ReceiveRequest(packet: Request, mem: WcStatus, result: int)
      requires Valid()
      modifies this, slots
      ensures View() == RQ.ReceiveRequest(old(View()), packet, mem, result)
    {
      hide RQ.ReceiveOld, RQ.ReceiveExpected, RQ.PushAck, PsnDiff;
      if !RecvOk(state) {
        return;
      }
      var d := PsnDiff(packet.psn, psn);
      if d > 0 {
        PushAck(packet.psn, SYND_PSN_SEQ_ERR);
      } else if d < 0 {
        ReceiveOld(packet, mem);
      } else {
        ReceiveExpected(packet, mem, result);
      }
    }

    /** The dispatch of receive_request for the expected PSN. */
    method ReceiveExpected(packet: Request, mem: WcStatus, result: int)
      requires Valid() && RecvOk(state)
      modifies this, slots
      ensures View() == RQ.ReceiveExpected(old(View()), packet, mem, result)
    {
      hide Fatal, RQ.ReceiveNewRead, RQ.ReceiveAtomicRequest, RQ.ReceiveSend, RQ.ReceiveWrite, InOrder;
      if !InOrder(packet.op, lastOp) {
        RaiseError(packet.psn, SYND_INV_REQ_ERR);
        return;
      }
      if packet.op == ReadRequest {
        ReceiveNewRead(packet, mem);
      } else if packet.op == CompareSwap || packet.op == FetchAdd {
        ReceiveAtomicRequest(packet, mem, result);
      } else if packet.op in {SendFirst, SendMiddle, SendLast, SendLastImm, SendOnly, SendOnlyImm} {
        ReceiveSend(packet, mem);
      } else {
        ReceiveWrite(packet, mem);
      }
    }

    /** receive_cnp_notify. */
    method ReceiveCnp()
      modifies `nrContigReads
      ensures View() == RQ.ReceiveCnp(old(View()))
    {
      if RecvOk(state) {
        nrContigReads := 0;
      }
    }

    /** pib_generate_rc_qp_acknowledge. */
    method Generate(memOk: bool) returns (out: Option<Response>)
      modifies `acks, `nrRdAtomic, `nrContigReads
      ensures (View(), out) == RQ.Generate(old(View()), memOk)
    {
      hide ReadResponse;
      if !RecvOk(state) || acks == [] {
        return None;
      }
      var a := acks[0];
      match a
      case NormalAck(p, _, syndrome) =>
        acks := acks[1..];
        return Some(Response(p, AckKind, syndrome, AETH_SIZE, 0, 0, 0, 0));
      case AtomicAck(p, _, result) =>
        acks := acks[1..];
        nrRdAtomic := nrRdAtomic - 1;
        return Some(Response(p, AtomicKind, SYND_ACK, AETH_SIZE + ATOMIC_ACK_ETH_SIZE, 0, 0, 0, result));
      case ReadAck(p, x, v, rkey, size, off) =>
        if MAX_CONTIG_READ_ACKS < nrContigReads {
          return None;
        }
        out := None;
        if memOk {
          var rsp := ReadResponse(attr.mtu, a);
          out := Some(rsp);
          a := ReadAck(p, x, v, rkey, size, off + rsp.length);
          nrContigReads := nrContigReads + 1;
        }
        if a.offset < size {
          acks := acks[0 := a];
        } else {
          acks := acks[1..];
          nrRdAtomic := nrRdAtomic - 1;
        }
    }
  }

  lemma AtomicFields(s: Rq, packet: Request, result: int)
    requires SlotsOk(s)
    ensures var slot := Slot(packet.op, s.psn, s.psn + 1, packet.vaddr, packet.rkey, 0, result);
      var t := RQ.PushAtomic(RQ.WriteSlot(s, slot), packet.psn, result);
      t.psn == s.psn && t.effects == s.effects
  {
  }

  lemma RemoveFields(s: Rq, psn: int, expected: int)
    ensures RQ.RemoveOverlapped(s, psn, expected).attr == s.attr
  {
  }

  lemma NewReadFields(s: Rq, slot: Slot, packet: Request)
    requires SlotsOk(s)
    ensures var r := RQ.WriteSlot(s, slot);
      var t := RQ.ServeRead(r, packet, slot.expected);
      && t.psn == s.psn && t.effects == s.effects && r.attr == s.attr && r.state == s.state
      && (RQ.RemoveOverlapped(r, packet.psn, slot.expected).nrRdAtomic < s.attr.maxDest ==> t.state == s.state)
      && (RQ.RemoveOverlapped(r, packet.psn, slot.expected).nrRdAtomic >= s.attr.maxDest ==> t.state == ERR)
  {
    hide Keep, CountReplies;
  }

  lemma SlotAtRange(slotIndex: int, i: int)
    ensures 0 <= SlotAt(slotIndex, i) < MAX_RD_ATOM
  {
  }

  /** Entry `i` of a list whose later part was already sorted out. */
  lemma DropOne(all: seq<Ack>, i: nat, kept: seq<Ack>, acks: seq<Ack>)
    requires i < |all| && acks == all[..i + 1] + kept
    ensures acks[i] == all[i] && acks == all[..i] + ([all[i]] + kept) && acks[..i] + acks[i + 1..] == all[..i] + ([] + kept)
  {
  }

  lemma KeepEmpty(psn: int, expected: int)
    ensures Keep([], psn, expected) == []
  {
  }
}
