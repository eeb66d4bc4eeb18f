/**
  What the responder does with a request packet, case by case: the packet it expects, and packets no
  requester of this driver would send.
 */
module ResponderOutcomes {
  import opened Psn
  import opened OpCode
  import opened WorkRequest
  import opened SendQueue
  import opened ReceiveQueue
  import opened ReceiveQueueInvariant
  import opened Protocol
  import opened ResponderExecution
  import opened ProtocolRequests
  import opened ProtocolProgress

  // ---------------------------------------------------------------------------
  // No receive entry

  /** The queue of `t` is that of `r` with an RNR NAK for `psn` at its end, unless one was there already. */
  predicate RnrQueued(r: Rq, t: Rq, psn: int) {
    var n := |r.acks|;
    if n > 0 && r.acks[n - 1].NormalAck? && SyndromeClass(r.acks[n - 1].syndrome) == 0x20 then t.acks == r.acks
    else t.acks == r.acks + [NormalAck(psn, psn + 1, 0x20 + r.attr.rnrTimer % 0x20)] && t.nrContigReads == 0
  }

  /** Nothing was executed and the queue pair is as it was but for what is queued. */
  predicate NothingDone(r: Rq, t: Rq) {
    && t.state == r.state && t.psn == r.psn && t.lastOp == r.lastOp && t.receives == r.receives
    && t.effects == r.effects && t.inbox == r.inbox && t.records == r.records
  }

  lemma RnrPushed(r: Rq, r1: Rq, psn: int)
    requires r1.acks == r.acks && r1.attr == r.attr
    ensures RnrQueued(r, PushAck(r1, psn, RnrSyndrome(r.attr)), psn)
  {
    assert SyndromeClass(RnrSyndrome(r.attr)) == SYND_RNR_NAK;
  }

  /** The packet needs a receive entry, and nothing is wrong with it before that is looked at. */
  predicate AsksForEntry(packet: Request) {
    || packet.op in {SendFirst, SendMiddle, SendLast, SendLastImm, SendOnly, SendOnlyImm, WriteLastImm}
    || (packet.op == WriteOnlyImm && packet.size >= 16)
  }

  /**
    A packet in its turn that needs a receive entry when there is none is not executed; an RNR NAK with
    its PSN and the queue pair's min_rnr_timer is left at the end of the queue.
   */
  lemma NoEntryRefused(r: Rq, packet: Request, mem: WcStatus, result: int)
    requires SlotsOk(r) && RecvOk(r.state) && packet.psn == r.psn && InOrder(packet.op, r.lastOp)
    requires r.receives == 0 && AsksForEntry(packet)
    ensures var t := ReceiveRequest(r, packet, mem, result); RnrQueued(r, t, packet.psn) && NothingDone(r, t)
  {
    DiffExact(packet.psn, r.psn);
    hide PushAck, InOrder, SizeOk, ReceiveOld, RnrSyndrome, PsnDiff, RnrQueued;
    var sent := if Initial(packet.op) then r.(offset := 0, partial := []) else r;
    var written := if Initial(packet.op)
      then r.(offset := 0, writeVaddr := packet.vaddr, writeRkey := packet.rkey, writeLen := packet.dmalen) else r;
    RnrPushed(r, sent, packet.psn);
    RnrPushed(r, written, packet.psn);
    PushAckFields(sent, packet.psn, RnrSyndrome(r.attr));
    PushAckFields(written, packet.psn, RnrSyndrome(r.attr));
  }

  // ---------------------------------------------------------------------------
  // The expected packet of a requester

  /** Packet `k` of `item` needs a receive entry, and there is none. */
  predicate LacksEntry(r: Rq, item: Item, k: nat) {
    r.receives == 0 && (IsSend(item.wr.opcode) || (item.wr.opcode == WrWriteImm && k + 1 == item.all))
  }

  /** The queue pair is in error with nothing queued and nothing executed. */
  predicate Refused(r: Rq, t: Rq) {
    && t.state == ERR && t.acks == [] && t.receives == 0 && t.nrRdAtomic == 0
    && t.psn == r.psn && t.effects == r.effects && t.inbox == r.inbox
  }

  lemma SendRefused(r: Rq, item: Item, k: nat, mem: WcStatus)
    requires Poised(r, item, k) && IsSend(item.wr.opcode) && GatherOk(r.attr.mtu, item.wr, item.all, k)
    requires r.receives > 0 && mem != Success
    ensures Refused(r, ReceiveSend(r, PacketOf(r.attr.mtu, item, k), mem))
  {
    hide Chunk, RequestOpcode, SizeOk, PushAck, JoinChunks, NumPackets, Initial, Final, CarriesImm, HasReth, MidMessage;
  }

  lemma WriteRefused(r: Rq, item: Item, k: nat, mem: WcStatus)
    requires Poised(r, item, k) && IsWrite(item.wr.opcode) && GatherOk(r.attr.mtu, item.wr, item.all, k)
    requires !LacksEntry(r, item, k) && mem != Success
    ensures Refused(r, ReceiveWrite(r, PacketOf(r.attr.mtu, item, k), mem))
  {
    OpcodeShape(item.wr.opcode, item.all, k);
    hide Chunk, RequestOpcode, SizeOk, PushAck, JoinChunks, NumPackets, Initial, Final, CarriesImm, HasReth, MidMessage;
  }

  lemma RdRefused(r: Rq, item: Item, mem: WcStatus, result: int)
    requires LocalInv(r) && RecvOk(r.state) && Poised(r, item, 0) && IsRdAtomic(item.wr.opcode) && !Serves(r, item, 0, mem)
    ensures SlotsOk(r)
    ensures item.wr.opcode == WrRead ==> Refused(r, ReceiveNewRead(r, PacketOf(r.attr.mtu, item, 0), mem))
    ensures IsAtomic(item.wr.opcode) ==> Refused(r, ReceiveAtomicRequest(r, PacketOf(r.attr.mtu, item, 0), mem, result))
  {
    SlotsOkFromLocal(r);
    hide LocalInv, NumPackets, Chunk, MidMessage, ServeRead;
  }

  /**
    The expected packet of a requester has one of three outcomes: it is executed if the responder has
    what it needs; it is answered with an RNR NAK if a receive entry is all that is missing or is missed
    first; otherwise the queue pair goes to error with nothing done.
   */
  lemma ExpectedOutcome(r: Rq, plan: seq<Item>, end: int, done: nat, part: nat, q: Sent, mem: WcStatus, result: int)
    requires ResponderOk(r, plan, end, done, part) && Genuine(r.attr.mtu, plan, q) && q.packet.psn == r.psn && RecvOk(r.state)
    ensures SlotsOk(r)
    ensures var t, item := ReceiveRequest(r, q.packet, mem, result), plan[q.item];
      if Serves(r, item, q.k, mem) then t.psn > r.psn && RecvOk(t.state)
      else if LacksEntry(r, item, q.k) then RnrQueued(r, t, r.psn) && NothingDone(r, t)
      else Refused(r, t)
  {
    hide ReceiveRequest, Poised, PacketOf, GatherOk, InOrder, Serves, ResponderOk, RnrQueued, NothingDone, Refused, RecvOk;
    PoisedSlots(r, plan, end, done, part);
    ExpectedIsNext(r, plan, end, done, part, q);
    GenuineFacts(r.attr.mtu, plan, q);
    NextInOrder(r, plan[done], part);
    LocalFromResponder(r, plan, end, done, part);
    var item := plan[done];
    if Serves(r, item, part, mem) {
      ServedUp(r, plan, end, done, part, q, mem, result);
    } else if LacksEntry(r, item, part) {
      EntryAsked(r.attr.mtu, item, part);
      NoEntryRefused(r, q.packet, mem, result);
    } else {
      WhichHandler(r, q.packet, mem, result);
      if IsRdAtomic(item.wr.opcode) {
        RdRefused(r, item, mem, result);
      } else {
        OpcodeShape(item.wr.opcode, item.all, part);
        WhyNot(r, item, part, mem);
        if IsSend(item.wr.opcode) {
          SendRefused(r, item, part, mem);
        } else {
          WriteRefused(r, item, part, mem);
        }
      }
    }
  }

  lemma WhyNot(r: Rq, item: Item, k: nat, mem: WcStatus)
    requires !Serves(r, item, k, mem) && !LacksEntry(r, item, k) && !IsRdAtomic(item.wr.opcode)
    ensures mem != Success && (IsSend(item.wr.opcode) ==> r.receives > 0)
  {
  }

  lemma EntryAsked(mtu: Mtu, item: Item, k: nat)
    requires k < item.all && (IsSend(item.wr.opcode) || (item.wr.opcode == WrWriteImm && k + 1 == item.all))
    ensures AsksForEntry(PacketOf(mtu, item, k))
  {
    hide Chunk;
  }

  lemma WhichHandler(r: Rq, packet: Request, mem: WcStatus, result: int)
    requires SlotsOk(r) && RecvOk(r.state) && packet.psn == r.psn && InOrder(packet.op, r.lastOp)
    ensures var t := ReceiveRequest(r, packet, mem, result);
      t == match packet.op
        case ReadRequest => ReceiveNewRead(r, packet, mem)
        case CompareSwap | FetchAdd => ReceiveAtomicRequest(r, packet, mem, result)
        case SendFirst | SendMiddle | SendLast | SendLastImm | SendOnly | SendOnlyImm => ReceiveSend(r, packet, mem)
        case _ => ReceiveWrite(r, packet, mem)
  {
    hide ReceiveNewRead, ReceiveAtomicRequest, ReceiveSend, ReceiveWrite, ReceiveOld, PushAck, InOrder, PsnDiff;
    DiffExact(packet.psn, r.psn);
  }

  lemma ServedUp(r: Rq, plan: seq<Item>, end: int, done: nat, part: nat, q: Sent, mem: WcStatus, result: int)
    requires ResponderOk(r, plan, end, done, part) && Genuine(r.attr.mtu, plan, q) && q.packet.psn == r.psn && RecvOk(r.state)
    requires Serves(r, plan[q.item], q.k, mem)
    ensures SlotsOk(r)
    ensures var t := ReceiveRequest(r, q.packet, mem, result); t.psn > r.psn && RecvOk(t.state)
  {
    hide ReceiveRequest, Genuine, ResponderOk, RecvOk, Serves;
    ExecutedIff(r, plan, end, done, part, q, mem, result);
    MovedIsUp(r, q.packet, mem, result);
    RequestReceived(r, plan, end, done, part, q, mem, result);
    LaterPsn(r, ReceiveRequest(r, q.packet, mem, result), plan, end, done, part);
  }

  lemma LaterPsn(r: Rq, t: Rq, plan: seq<Item>, end: int, done: nat, part: nat)
    requires done <= |plan| && ReceivedOk(r, t, plan, end, done, part)
    ensures r.psn <= t.psn
  {
    hide Executed, AckTruth.AcksTrue, AckTruth.ReadsAscend;
  }

  // ---------------------------------------------------------------------------
  // Any packet at all

  /** A packet was executed, in order, and is remembered as the last one; or none was. */
  predicate OneInOrder(r: Rq, t: Rq, packet: Request) {
    && |t.slots| == |r.slots| && t.attr == r.attr
    && if t.psn == r.psn then t.lastOp == r.lastOp else t.lastOp == packet.op && t.state == r.state
  }

  lemma PushedUp(r: Rq, psn: int, syndrome: int)
    ensures var t := PushAck(r, psn, syndrome);
      && t.state == r.state && t.psn == r.psn && t.lastOp == r.lastOp && t.slots == r.slots && t.attr == r.attr
      && t.effects == r.effects && t.offset == r.offset && t.receives == r.receives
      && t.writeLen == r.writeLen && t.writeVaddr == r.writeVaddr && t.writeRkey == r.writeRkey
  {
  }

  lemma SendInOrder(r: Rq, packet: Request, mem: WcStatus)
    ensures OneInOrder(r, ReceiveSend(r, packet, mem), packet)
  {
    hide PushAck, SizeOk, Final, Initial, CarriesImm, RnrSyndrome;
    var r1 := if Initial(packet.op) then r.(offset := 0, partial := []) else r;
    PushedUp(r1, packet.psn, RnrSyndrome(r.attr));
    if r1.receives > 0 {
      PushedUp(PlaceSend(r1, packet, packet.size - (if CarriesImm(packet.op) then IMM_SIZE else 0)), packet.psn, SYND_ACK);
    }
  }

  lemma BodyInOrder(r: Rq, packet: Request, size1: int, mem: WcStatus)
    ensures OneInOrder(r, WriteBody(r, packet, size1, mem), packet)
  {
    hide PushAck, SizeOk, Final, CarriesImm, Add64, RnrSyndrome;
    PushedUp(r, packet.psn, RnrSyndrome(r.attr));
    if CarriesImm(packet.op) ==> r.receives > 0 {
      PushedUp(PlaceWrite(r, packet, size1 - (if CarriesImm(packet.op) then IMM_SIZE else 0)), packet.psn, SYND_ACK);
    }
  }

  lemma WriteInOrder(r: Rq, packet: Request, mem: WcStatus)
    ensures OneInOrder(r, ReceiveWrite(r, packet, mem), packet)
  {
    hide WriteBody, Initial;
    BodyInOrder(r, packet, packet.size, mem);
    var r1 := r.(offset := 0, writeVaddr := packet.vaddr, writeRkey := packet.rkey, writeLen := packet.dmalen);
    BodyInOrder(r1, packet, packet.size - RETH_SIZE, mem);
  }

  lemma RdInOrder(r: Rq, packet: Request, mem: WcStatus, result: int)
    requires SlotsOk(r)
    ensures OneInOrder(r, ReceiveAtomicRequest(r, packet, mem, result), packet)
    ensures OneInOrder(r, ReceiveNewRead(r, packet, mem), packet)
  {
    hide SlotAt, ServeRead, NumPackets, WriteSlot;
    var n := NumPackets(r.attr.mtu, if packet.dmalen < 0 then 0 else packet.dmalen);
    SlotWritten(r, Slot(packet.op, r.psn, r.psn + 1, packet.vaddr, packet.rkey, 0, result));
    var slot := Slot(ReadRequest, r.psn, r.psn + n, packet.vaddr, packet.rkey, packet.dmalen, 0);
    SlotWritten(r, slot);
    ServeReadFields(WriteSlot(r, slot), packet, slot.expected);
    ServeReadState(WriteSlot(r, slot), packet, slot.expected);
    SomePackets(r.attr.mtu, if packet.dmalen < 0 then 0 else packet.dmalen);
  }

  lemma ServeReadState(r: Rq, packet: Request, expected: int)
    ensures ServeRead(r, packet, expected).state in {r.state, ERR}
  {
    hide Keep, CountReplies;
  }

  lemma SlotWritten(r: Rq, slot: Slot)
    requires SlotsOk(r)
    ensures var t := WriteSlot(r, slot); t == r.(slots := t.slots, slotIndex := r.slotIndex + 1, records := r.records + [slot]) && SlotsOk(t)
  {
  }

  lemma SomePackets(mtu: Mtu, length: nat)
    ensures NumPackets(mtu, length) >= 1
  {
  }

  lemma OldInOrder(r: Rq, packet: Request, mem: WcStatus)
    requires SlotsOk(r)
    ensures var t := ReceiveOld(r, packet, mem); t.psn == r.psn && OneInOrder(r, t, packet)
  {
    hide FindSlot, RetryValid, Keep, CountReplies, PushAck;
    PushedUp(r, packet.psn, SYND_ACK);
  }

  /** Whatever packet arrives, it is executed only if it is in order. */
  lemma OnlyInOrder(r: Rq, packet: Request, mem: WcStatus, result: int)
    requires SlotsOk(r)
    ensures var t := ReceiveRequest(r, packet, mem, result);
      OneInOrder(r, t, packet) && (t.psn != r.psn ==> InOrder(packet.op, r.lastOp) && RecvOk(t.state) && PsnDiff(packet.psn, r.psn) == 0)
  {
    hide ReceiveNewRead, ReceiveAtomicRequest, ReceiveSend, ReceiveWrite, ReceiveOld, PushAck, InOrder, PsnDiff;
    OldInOrder(r, packet, mem);
    PushedUp(r, packet.psn, SYND_PSN_SEQ_ERR);
    SendInOrder(r, packet, mem);
    WriteInOrder(r, packet, mem);
    RdInOrder(r, packet, mem, result);
  }

  /** A packet that moves the responder on leaves the queue pair up. */
  lemma MovedIsUp(r: Rq, packet: Request, mem: WcStatus, result: int)
    requires SlotsOk(r)
    ensures var t := ReceiveRequest(r, packet, mem, result); t.psn != r.psn ==> t.state == r.state && RecvOk(t.state)
  {
    hide ReceiveRequest, InOrder, PsnDiff;
    OnlyInOrder(r, packet, mem, result);
  }

  /** A packet as it arrives, with the outcome of the memory access and the value an atomic finds. */
  datatype Arrival = Arrival(packet: Request, mem: WcStatus, result: int)

  /** The responder after the packets of `xs`. */
  function Fed(r: Rq, xs: seq<Arrival>): (t: Rq)
    requires SlotsOk(r)
    ensures SlotsOk(t)
  {
    if xs == [] then r
    else
      var n := |xs| - 1;
      var s := Fed(r, xs[..n]);
      OnlyInOrder(s, xs[n].packet, xs[n].mem, xs[n].result);
      ReceiveRequest(s, xs[n].packet, xs[n].mem, xs[n].result)
  }

  /** The opcodes of the packets among `xs` that were executed, in order. */
  function Performed(r: Rq, xs: seq<Arrival>): seq<OpCode>
    requires SlotsOk(r)
  {
    if xs == [] then []
    else
      var n := |xs| - 1;
      Performed(r, xs[..n]) + if Fed(r, xs).psn != Fed(r, xs[..n]).psn then [xs[n].packet.op] else []
  }

  lemma {:induction false} PerformedAccepted(r: Rq, xs: seq<Arrival>)
    requires SlotsOk(r) && r.lastOp == RESET_OPCODE
    ensures Accepts(Performed(r, xs)) && Fed(r, xs).lastOp == LastOf(Performed(r, xs))
    decreases |xs|
  {
    hide ReceiveRequest, Accepts, InOrder;
    if xs == [] {
      NothingAccepted();
    } else {
      var n := |xs| - 1;
      var s, ops := Fed(r, xs[..n]), Performed(r, xs[..n]);
      PerformedAccepted(r, xs[..n]);
      OnlyInOrder(s, xs[n].packet, xs[n].mem, xs[n].result);
      if Fed(r, xs).psn != s.psn {
        AcceptsAppend(ops, xs[n].packet.op);
      } else {
        assert ops + [] == ops;
      }
    }
  }

  lemma NothingAccepted()
    ensures Accepts([])
  {
  }

  /**
    Whatever packets arrive at a fresh responder, from whomever, the ones it executes make up whole
    messages and at most one unfinished one.
   */
  lemma OnlyMessagesPerformed(r: Rq, xs: seq<Arrival>) returns (messages: seq<seq<OpCode>>, tail: seq<OpCode>)
    requires SlotsOk(r) && r.lastOp == RESET_OPCODE
    ensures SplitsInto(Performed(r, xs), messages, tail)
  {
    hide SplitsInto, Accepts, Performed, Fed;
    PerformedAccepted(r, xs);
    messages, tail := AcceptedSplits(Performed(r, xs));
  }

  // ---------------------------------------------------------------------------
  // Sizes

  /** The bytes of the packet are its headers and its payload. */
  predicate AddsUp(packet: Request) {
    packet.size == ExtensionSize(packet.op) + |packet.payload|
  }

  /** A payload size the opcode allows: full packets at the start and in the middle, at least a byte at the end. */
  predicate PayloadAllowed(mtu: Mtu, op: OpCode, n: nat) {
    if op in {SendFirst, SendMiddle, WriteFirst, WriteMiddle} then n == mtu
    else if op in {SendLast, SendLastImm, WriteLast, WriteLastImm} then 1 <= n <= mtu
    else n <= mtu
  }

  lemma SendSizes(r: Rq, packet: Request, mem: WcStatus)
    requires AddsUp(packet) && packet.op in {SendFirst, SendMiddle, SendLast, SendLastImm, SendOnly, SendOnlyImm} && r.receives > 0
    ensures var t := ReceiveSend(r, packet, mem);
      var from := if packet.op in {SendFirst, SendOnly, SendOnlyImm} then 0 else r.offset;
      if PayloadAllowed(r.attr.mtu, packet.op, |packet.payload|) && mem == Success
      then t.psn == r.psn + 1 && t.effects == r.effects + [Placed(from, packet.payload, AttrOf(packet.op).ending)]
           && t.offset == from + |packet.payload|
      else t.state == ERR && t.effects == r.effects && t.psn == r.psn
  {
    hide PushAck;
    var r1 := if Initial(packet.op) then r.(offset := 0, partial := []) else r;
    PushedUp(PlaceSend(r1, packet, |packet.payload|), packet.psn, SYND_ACK);
  }

  /** Where an RDMA WRITE is to go: what its first packet says. */
  datatype Target = Target(rkey: int, vaddr: int, length: int, offset: int)

  function TargetOf(r: Rq, packet: Request): Target {
    if packet.op in {WriteFirst, WriteOnly, WriteOnlyImm} then Target(packet.rkey, packet.vaddr, packet.dmalen, 0)
    else Target(r.writeRkey, r.writeVaddr, r.writeLen, r.offset)
  }

  lemma WriteSizes(r: Rq, packet: Request, mem: WcStatus)
    requires AddsUp(packet) && packet.op in {WriteFirst, WriteMiddle, WriteLast, WriteLastImm, WriteOnly, WriteOnlyImm}
    requires packet.op in {WriteLastImm, WriteOnlyImm} ==> r.receives > 0
    ensures var t, to, n := ReceiveWrite(r, packet, mem), TargetOf(r, packet), |packet.payload|;
      if && PayloadAllowed(r.attr.mtu, packet.op, n) && to.offset + n <= to.length <= MAX_PAYLOAD_LEN
         && (AttrOf(packet.op).ending ==> to.offset + n == to.length) && mem == Success
      then && t.psn == r.psn + 1 && t.offset == to.offset + n
           && (t.writeRkey, t.writeVaddr, t.writeLen) == (to.rkey, to.vaddr, to.length)
           && t.effects == r.effects + [Wrote(to.rkey, Add64(to.vaddr, to.offset), packet.payload, packet.op in {WriteLastImm, WriteOnlyImm})]
      else t.state == ERR && t.effects == r.effects && t.psn == r.psn
  {
    WriteCodes(r.attr.mtu, packet.op, |packet.payload|);
    hide PushAck, Add64, SizeOk, Initial, Final, CarriesImm, AttrOf, PayloadAllowed, ExtensionSize, HasReth;
    var r1 := if Initial(packet.op)
      then r.(offset := 0, writeVaddr := packet.vaddr, writeRkey := packet.rkey, writeLen := packet.dmalen) else r;
    PushedUp(PlaceWrite(r1, packet, |packet.payload|), packet.psn, SYND_ACK);
    assert ReceiveWrite(r, packet, mem) == WriteBody(r1, packet, packet.size - (if Initial(packet.op) then RETH_SIZE else 0), mem);
  }

  /** The classes of the RDMA WRITE opcodes. */
  lemma WriteCodes(mtu: Mtu, op: OpCode, n: nat)
    requires op in {WriteFirst, WriteMiddle, WriteLast, WriteLastImm, WriteOnly, WriteOnlyImm}
    ensures (SizeOk(mtu, op, n) <==> PayloadAllowed(mtu, op, n)) && (Final(op) <==> AttrOf(op).ending)
    ensures Initial(op) <==> op in {WriteFirst, WriteOnly, WriteOnlyImm}
    ensures CarriesImm(op) <==> op in {WriteLastImm, WriteOnlyImm}
    ensures CarriesImm(op) ==> Final(op)
    ensures ExtensionSize(op) == (if Initial(op) then RETH_SIZE else 0) + (if CarriesImm(op) then IMM_SIZE else 0)
  {
  }

  lemma RdSizes(r: Rq, packet: Request, mem: WcStatus, result: int)
    requires LocalInv(r) && RecvOk(r.state) && SlotsOk(r) && packet.psn == r.psn
    ensures var t := ReceiveNewRead(r, packet, mem);
      if packet.size == 16 && 0 <= packet.dmalen <= MAX_PAYLOAD_LEN && mem == Success && CountReplies(r.acks) < r.attr.maxDest
      then t.psn == r.psn + NumPackets(r.attr.mtu, packet.dmalen) && RecvOk(t.state)
           && t.effects == r.effects + [ReadAccepted(packet.rkey, packet.vaddr, packet.dmalen)]
           && t.acks == Keep(r.acks, r.psn, t.psn) + [ReadAck(r.psn, t.psn, packet.vaddr, packet.rkey, packet.dmalen, 0)]
      else Refused(r, t)
    ensures var t := ReceiveAtomicRequest(r, packet, mem, result);
      if packet.size == 28 && packet.vaddr % 8 == 0 && mem == Success && CountReplies(r.acks) < r.attr.maxDest
      then t.psn == r.psn + 1 && t.state == r.state && t.effects == r.effects + [AtomicApplied(packet.rkey, packet.vaddr)]
           && t.acks == r.acks + [AtomicAck(r.psn, r.psn + 1, result)]
      else Refused(r, t)
  {
    assert r.nrRdAtomic == CountReplies(r.acks);
    if ReadRequestOk(packet, mem) && r.nrRdAtomic < r.attr.maxDest {
      FreshReadServed(r, packet, mem);
    }
    hide LocalInv, SlotAt, Keep, NumPackets, CountReplies;
  }

  // ---------------------------------------------------------------------------
  // Any packet with the expected PSN

  /** The responder can receive, and `packet` has the PSN it expects. */
  predicate InTurn(r: Rq, packet: Request) {
    SlotsOk(r) && RecvOk(r.state) && packet.psn == r.psn
  }

  /** A packet whose opcode does not follow the last one puts the queue pair in error. */
  lemma OutOfOrderRefused(r: Rq, packet: Request, mem: WcStatus, result: int)
    requires InTurn(r, packet) && !InOrder(packet.op, r.lastOp)
    ensures Refused(r, ReceiveRequest(r, packet, mem, result))
  {
    hide ReceiveNewRead, ReceiveAtomicRequest, ReceiveSend, ReceiveWrite, ReceiveOld, PushAck, InOrder, PsnDiff;
    DiffExact(packet.psn, r.psn);
  }

  /** A SEND packet is executed if and only if its opcode allows its payload and the buffer takes it; its bytes follow those before it. */
  lemma SendPacketOutcome(r: Rq, packet: Request, mem: WcStatus, result: int)
    requires InTurn(r, packet) && InOrder(packet.op, r.lastOp) && AddsUp(packet) && r.receives > 0
    requires packet.op in {SendFirst, SendMiddle, SendLast, SendLastImm, SendOnly, SendOnlyImm}
    ensures var t := ReceiveRequest(r, packet, mem, result);
      var from := if packet.op in {SendFirst, SendOnly, SendOnlyImm} then 0 else r.offset;
      if PayloadAllowed(r.attr.mtu, packet.op, |packet.payload|) && mem == Success
      then t.psn == r.psn + 1 && t.effects == r.effects + [Placed(from, packet.payload, AttrOf(packet.op).ending)]
           && t.offset == from + |packet.payload|
      else t.state == ERR && t.effects == r.effects && t.psn == r.psn
  {
    hide ReceiveRequest, ReceiveSend, ReceiveWrite, ReceiveNewRead, ReceiveAtomicRequest, InOrder, AttrOf, PayloadAllowed, AddsUp;
    WhichHandler(r, packet, mem, result);
    SendSizes(r, packet, mem);
  }

  /**
    An RDMA WRITE packet is executed if and only if its opcode allows its payload, it does not run past
    the length the first packet announced and reaches it exactly with the last one, and memory takes it;
    its bytes go to the announced range, behind those before it.
   */
  lemma WritePacketOutcome(r: Rq, packet: Request, mem: WcStatus, result: int)
    requires InTurn(r, packet) && InOrder(packet.op, r.lastOp) && AddsUp(packet)
    requires packet.op in {WriteFirst, WriteMiddle, WriteLast, WriteLastImm, WriteOnly, WriteOnlyImm}
    requires packet.op in {WriteLastImm, WriteOnlyImm} ==> r.receives > 0
    ensures var t, to, n := ReceiveRequest(r, packet, mem, result), TargetOf(r, packet), |packet.payload|;
      if && PayloadAllowed(r.attr.mtu, packet.op, n) && to.offset + n <= to.length <= MAX_PAYLOAD_LEN
         && (AttrOf(packet.op).ending ==> to.offset + n == to.length) && mem == Success
      then && t.psn == r.psn + 1 && t.offset == to.offset + n
           && (t.writeRkey, t.writeVaddr, t.writeLen) == (to.rkey, to.vaddr, to.length)
           && t.effects == r.effects + [Wrote(to.rkey, Add64(to.vaddr, to.offset), packet.payload, packet.op in {WriteLastImm, WriteOnlyImm})]
      else t.state == ERR && t.effects == r.effects && t.psn == r.psn
  {
    hide ReceiveRequest, ReceiveSend, ReceiveWrite, ReceiveNewRead, ReceiveAtomicRequest, InOrder, AttrOf, PayloadAllowed, AddsUp, Add64, TargetOf;
    WhichHandler(r, packet, mem, result);
    WriteSizes(r, packet, mem);
  }

  /**
    A new RDMA READ is accepted if and only if its header is whole, its length allowed, its range readable and
    the queue has room; the reply for its range is then last in the queue.
   */
  lemma ReadPacketOutcome(r: Rq, packet: Request, mem: WcStatus, result: int)
    requires LocalInv(r) && InTurn(r, packet) && InOrder(packet.op, r.lastOp) && packet.op == ReadRequest
    ensures var t := ReceiveRequest(r, packet, mem, result);
      if packet.size == 16 && 0 <= packet.dmalen <= MAX_PAYLOAD_LEN && mem == Success && CountReplies(r.acks) < r.attr.maxDest
      then t.psn == r.psn + NumPackets(r.attr.mtu, packet.dmalen) && RecvOk(t.state)
           && t.effects == r.effects + [ReadAccepted(packet.rkey, packet.vaddr, packet.dmalen)]
           && t.acks == Keep(r.acks, r.psn, t.psn) + [ReadAck(r.psn, t.psn, packet.vaddr, packet.rkey, packet.dmalen, 0)]
      else Refused(r, t)
  {
    hide ReceiveRequest, ReceiveSend, ReceiveWrite, ReceiveNewRead, ReceiveAtomicRequest, InOrder, NumPackets, CountReplies, LocalInv;
    WhichHandler(r, packet, mem, result);
    RdSizes(r, packet, mem, result);
  }

  /**
    A new atomic is applied if and only if its header is whole, its address aligned, the memory access works and
    the queue has room; the reply with its result is then last in the queue.
   */
  lemma AtomicPacketOutcome(r: Rq, packet: Request, mem: WcStatus, result: int)
    requires LocalInv(r) && InTurn(r, packet) && InOrder(packet.op, r.lastOp) && packet.op in {CompareSwap, FetchAdd}
    ensures var t := ReceiveRequest(r, packet, mem, result);
      if packet.size == 28 && packet.vaddr % 8 == 0 && mem == Success && CountReplies(r.acks) < r.attr.maxDest
      then t.psn == r.psn + 1 && t.state == r.state && t.effects == r.effects + [AtomicApplied(packet.rkey, packet.vaddr)]
           && t.acks == r.acks + [AtomicAck(r.psn, r.psn + 1, result)]
      else Refused(r, t)
  {
    hide ReceiveRequest, ReceiveSend, ReceiveWrite, ReceiveNewRead, ReceiveAtomicRequest, InOrder, CountReplies, LocalInv;
    WhichHandler(r, packet, mem, result);
    RdSizes(r, packet, mem, result);
  }

  // ---------------------------------------------------------------------------
  // Packets out of turn

  /** A packet ahead of its turn is answered with a sequence NAK for its PSN, nothing is done, and RDMA READ responses may flow again. */
  lemma AheadNaked(r: Rq, packet: Request, mem: WcStatus, result: int)
    requires SlotsOk(r) && RecvOk(r.state) && 0 < packet.psn - r.psn < TWO23
    ensures var t := ReceiveRequest(r, packet, mem, result);
      NothingDone(r, t) && t.acks == r.acks + [NormalAck(packet.psn, packet.psn + 1, 0x60)] && t.nrContigReads == 0
  {
    hide ReceiveOld, ReceiveExpected, PsnDiff;
    DiffExact(packet.psn, r.psn);
    AckCodes();
  }

  /** A SEND or RDMA WRITE packet already executed is acknowledged again; an ACK waiting last in the queue takes over its PSN. */
  lemma BehindAcked(r: Rq, packet: Request, mem: WcStatus, result: int)
    requires SlotsOk(r) && RecvOk(r.state) && -TWO23 < packet.psn - r.psn < 0 && packet.op !in {ReadRequest, CompareSwap, FetchAdd}
    ensures var t, n := ReceiveRequest(r, packet, mem, result), |r.acks|;
      && NothingDone(r, t)
      && if n > 0 && r.acks[n - 1].NormalAck? && SyndromeClass(r.acks[n - 1].syndrome) == SYND_ACK
         then t.acks == r.acks[..n - 1] + [NormalAck(packet.psn, packet.psn + 1, r.acks[n - 1].syndrome)]
         else t.acks == r.acks + [NormalAck(packet.psn, packet.psn + 1, SYND_ACK)]
  {
    hide ReceiveExpected, PsnDiff, FindSlot, ReceiveRetriedRead;
    DiffExact(packet.psn, r.psn);
    AckCodes();
  }

  // ---------------------------------------------------------------------------
  // Sending replies

  /**
    An RDMA READ at the head of the queue whose bytes cannot be fetched sends nothing.  With bytes left to
    send it stays at the head, in front of everything behind it; an empty one is dropped without a reply.
   */
  lemma UnfetchableRead(r: Rq)
    requires RecvOk(r.state) && r.acks != [] && r.acks[0].ReadAck? && r.nrContigReads <= MAX_CONTIG_READ_ACKS
    ensures var (t, out) := Generate(r, false);
      out == None && t.acks == if r.acks[0].offset < r.acks[0].size then r.acks else r.acks[1..]
  {
    hide ReadResponse;
  }

  /**
    A working responder whose memory is found is silent if and only if it has nothing queued, or an RDMA READ
    is next and more than 64 responses went out in a row; a congestion packet, or sending of its own, ends the latter.
   */
  lemma SilentIff(r: Rq)
    requires RecvOk(r.state)
    ensures Generate(r, true).1 == None <==> r.acks == [] || (r.acks[0].ReadAck? && r.nrContigReads > 64)
    ensures r.acks != [] ==> Generate(ReceiveCnp(r), true).1.Some? && Generate(ReadyToSend(r), true).1.Some?
  {
    hide ReadResponse;
  }
}
