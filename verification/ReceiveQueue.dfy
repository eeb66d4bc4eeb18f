/**
  The responder half of a queue pair, as a value and functions on it.

  `effects`, `records` and `inbox` are history: what was done to memory and the receive
  queue, every slot ever written, and the messages handed to the receiver.  No function
  reads them to decide anything.
 */
module ReceiveQueue {
  import opened Psn
  import opened OpCode
  import opened WorkRequest
  import opened SendQueue

  const MAX_RD_ATOM := 16

  /** pib_rd_atom_slot: a remembered RDMA READ or atomic. */
  datatype Slot = Slot(op: OpCode, psn: int, expected: int, vaddr: int, rkey: int, dmalen: int, result: int)

  /** A zeroed slot carries opcode 0, SEND FIRST, and matches no lookup. */
  const EMPTY_SLOT := Slot(SendFirst, 0, 0, 0, 0, 0, 0)

  /** pib_ack: a scheduled acknowledge. */
  datatype Ack =
    | NormalAck(psn: int, expected: int, syndrome: int)
    | ReadAck(psn: int, expected: int, vaddr: int, rkey: int, size: int, offset: int)
    | AtomicAck(psn: int, expected: int, result: int)

  /** max_dest_rd_atomic, which modify_qp_is_ok limits to the size of the ring. */
  type Depth = d: nat | d <= 16

  datatype RqAttr = RqAttr(mtu: Mtu, maxDest: Depth, rnrTimer: nat, origin: int)

  datatype Rq = Rq(attr: RqAttr, state: QpState, psn: int, lastOp: OpCode, offset: int,
                   receives: nat, writeVaddr: int, writeRkey: int, writeLen: int,
                   slotIndex: int, slots: seq<Slot>, acks: seq<Ack>, nrRdAtomic: int,
                   nrContigReads: int,
                   effects: seq<Effect>, records: seq<Slot>, inbox: seq<seq<Byte>>, partial: seq<Byte>)

  /** get_resources_not_ready. */
  function RnrSyndrome(attr: RqAttr): int {
    SYND_RNR_NAK + attr.rnrTimer % 0x20
  }

  // ---------------------------------------------------------------------------
  // Scheduling acknowledges

  /** push_acknowledge with its two coalescing rules; a new NAK lets RDMA READ responses flow again. */
  function PushAck(r: Rq, psn: int, syndrome: int): Rq {
    var n := |r.acks|;
    var c := SyndromeClass(syndrome);
    if n > 0 && r.acks[n - 1].NormalAck? && c == SYND_RNR_NAK && SyndromeClass(r.acks[n - 1].syndrome) == SYND_RNR_NAK then r
    else if n > 0 && r.acks[n - 1].NormalAck? && c == SYND_ACK && SyndromeClass(r.acks[n - 1].syndrome) == SYND_ACK then
      r.(acks := r.acks[n - 1 := NormalAck(psn, psn + 1, r.acks[n - 1].syndrome)])
    else r.(acks := r.acks + [NormalAck(psn, psn + 1, syndrome)],
            nrContigReads := if c == SYND_ACK then r.nrContigReads else 0)
  }

  function PushAtomic(r: Rq, psn: int, result: int): Rq {
    r.(acks := r.acks + [AtomicAck(psn, psn + 1, result)], nrRdAtomic := r.nrRdAtomic + 1)
  }

  function PushRead(r: Rq, psn: int, expected: int, vaddr: int, rkey: int, size: int): Rq {
    r.(acks := r.acks + [ReadAck(psn, expected, vaddr, rkey, size, 0)], nrRdAtomic := r.nrRdAtomic + 1,
       nrContigReads := 0)
  }

  /** The test of remove_overlapped_rdma_read_acknowledge: overlapping [psn, expected) or later. */
  predicate Overlaps(a: Ack, psn: int, expected: int) {
    || (PsnDiff(a.psn, psn) >= 0 && PsnDiff(a.psn, expected) < 0)
    || (PsnDiff(a.expected, psn) > 0 && PsnDiff(a.expected, expected) <= 0)
    || PsnDiff(a.psn, expected) >= 0
  }

  function Keep(acks: seq<Ack>, psn: int, expected: int): seq<Ack> {
    if acks == [] then []
    else
      var n := |acks| - 1;
      Keep(acks[..n], psn, expected) + if Overlaps(acks[n], psn, expected) then [] else [acks[n]]
  }

  /** RDMA READ and atomic entries of an acknowledge list. */
  function CountReplies(acks: seq<Ack>): nat {
    if acks == [] then 0
    else CountReplies(acks[..|acks| - 1]) + if acks[|acks| - 1].NormalAck? then 0 else 1
  }

  function RemoveOverlapped(r: Rq, psn: int, expected: int): Rq {
    var kept := Keep(r.acks, psn, expected);
    r.(acks := kept, nrRdAtomic := r.nrRdAtomic - (CountReplies(r.acks) - CountReplies(kept)))
  }

  /** Entering ERR: the flush also drops the acknowledges, including one just pushed. */
  function Fatal(r: Rq): Rq {
    r.(state := ERR, acks := [], nrRdAtomic := 0, receives := 0, nrContigReads := 0)
  }

  // ---------------------------------------------------------------------------
  // Slots

  /** (unsigned)(slot_index - i) % PIB_MAX_RD_ATOM. */
  function SlotAt(slotIndex: int, i: int): nat {
    ((slotIndex - i) % TWO32) % MAX_RD_ATOM
  }

  predicate SlotMatches(slot: Slot, op: OpCode, psn: int) {
    slot.op == op && PsnDiff(psn, slot.psn) >= 0 && PsnDiff(psn, slot.expected) < 0
  }

  predicate SlotsOk(r: Rq) {
    |r.slots| == MAX_RD_ATOM
  }

  /** Newest-first search; `i` is how many slots back to start. */
  function FindSlot(r: Rq, op: OpCode, psn: int, i: nat): Option<Slot>
    requires SlotsOk(r)
    decreases r.attr.maxDest - i
  {
    if r.attr.maxDest < i then None
    else
      var slot := r.slots[SlotAt(r.slotIndex, i)];
      if SlotMatches(slot, op, psn) then Some(slot) else FindSlot(r, op, psn, i + 1)
  }

  function WriteSlot(r: Rq, slot: Slot): Rq
    requires SlotsOk(r)
  {
    r.(slots := r.slots[SlotAt(r.slotIndex, 0) := slot], slotIndex := r.slotIndex + 1, records := r.records + [slot])
  }

  // ---------------------------------------------------------------------------
  // Executing requests

  predicate Initial(op: OpCode) {
    op in {SendFirst, SendOnly, SendOnlyImm, WriteFirst, WriteOnly, WriteOnlyImm}
  }
  predicate Final(op: OpCode) {
    op in {SendLast, SendLastImm, SendOnly, SendOnlyImm, WriteLast, WriteLastImm, WriteOnly, WriteOnlyImm}
  }

  /** Smallest and largest payload allowed in a SEND or RDMA WRITE packet. */
  function SizeRange(mtu: Mtu, op: OpCode): (int, int) {
    if op in {SendOnly, SendOnlyImm, WriteOnly, WriteOnlyImm} then (0, mtu as int)
    else if op in {SendLast, SendLastImm, WriteLast, WriteLastImm} then (1, mtu as int)
    else (mtu as int, mtu as int)
  }

  predicate SizeOk(mtu: Mtu, op: OpCode, size: int) {
    SizeRange(mtu, op).0 <= size <= SizeRange(mtu, op).1
  }

  /** One packet done: acknowledge it and expect the next. */
  function Advance(r: Rq, packet: Request): Rq {
    PushAck(r, packet.psn, SYND_ACK).(psn := r.psn + 1, lastOp := packet.op)
  }

  /** A SEND payload goes into the receive buffer; the last one uses up the receive entry. */
  function PlaceSend(r: Rq, packet: Request, size: int): Rq
    requires r.receives > 0
  {
    var r' := r.(offset := r.offset + size, partial := r.partial + packet.payload,
                 effects := r.effects + [Placed(r.offset, packet.payload, Final(packet.op))]);
    if Final(packet.op) then r'.(receives := r'.receives - 1, inbox := r'.inbox + [r'.partial]) else r'
  }

  /** receive_SEND_request. */
  function ReceiveSend(r: Rq, packet: Request, mem: WcStatus): Rq {
    var r1 := if Initial(packet.op) then r.(offset := 0, partial := []) else r;
    var size := packet.size - (if CarriesImm(packet.op) then IMM_SIZE else 0);
    if r1.receives == 0 then PushAck(r1, packet.psn, RnrSyndrome(r.attr))
    else if size < 0 || !SizeOk(r.attr.mtu, packet.op, size) then Fatal(r1)
    else if mem != Success then Fatal(r1)
    else Advance(PlaceSend(r1, packet, size), packet)
  }

  /** An RDMA WRITE payload goes to memory; with immediate data the last one uses up a receive entry. */
  function PlaceWrite(r: Rq, packet: Request, size: int): Rq
    requires CarriesImm(packet.op) ==> r.receives > 0
  {
    var notify := Final(packet.op) && CarriesImm(packet.op);
    r.(offset := r.offset + size,
       effects := r.effects + [Wrote(r.writeRkey, Add64(r.writeVaddr, r.offset), packet.payload, notify)],
       receives := if notify then r.receives - 1 else r.receives)
  }

  /** receive_RDMA_WRITE_request once the RDMA header is off; `size1` bytes are left. */
  function WriteBody(r: Rq, packet: Request, size1: int, mem: WcStatus): Rq {
    var imm := CarriesImm(packet.op);
    var size := size1 - (if imm then IMM_SIZE else 0);
    if imm && r.receives == 0 then PushAck(r, packet.psn, RnrSyndrome(r.attr))
    else if imm && size1 < IMM_SIZE then Fatal(r)
    else if !SizeOk(r.attr.mtu, packet.op, size) then Fatal(r)
    else if r.writeLen < r.offset + size then Fatal(r)
    else if Final(packet.op) && r.writeLen != r.offset + size then Fatal(r)
    else if MAX_PAYLOAD_LEN < r.writeLen || mem != Success then Fatal(r)
    else Advance(PlaceWrite(r, packet, size), packet)
  }

  /** receive_RDMA_WRITE_request. */
  function ReceiveWrite(r: Rq, packet: Request, mem: WcStatus): Rq {
    if !Initial(packet.op) then WriteBody(r, packet, packet.size, mem)
    else if packet.size < RETH_SIZE then Fatal(r)
    else
      var r1 := r.(offset := 0, writeVaddr := packet.vaddr, writeRkey := packet.rkey, writeLen := packet.dmalen);
      WriteBody(r1, packet, packet.size - RETH_SIZE, mem)
  }

  /** receive_Atomic_request; `result` is the value the memory operation returns. */
  function ReceiveAtomicRequest(r: Rq, packet: Request, mem: WcStatus, result: int): Rq
    requires SlotsOk(r)
  {
    if packet.size != ATOMIC_ETH_SIZE || packet.vaddr % 8 != 0 || r.attr.maxDest <= r.nrRdAtomic || mem != Success then Fatal(r)
    else
      var slot := Slot(packet.op, r.psn, r.psn + 1, packet.vaddr, packet.rkey, 0, result);
      PushAtomic(WriteSlot(r, slot), packet.psn, result)
        .(psn := r.psn + 1, lastOp := packet.op, effects := r.effects + [AtomicApplied(packet.rkey, packet.vaddr)])
  }

  /** The checks common to new and retried RDMA READ requests. */
  predicate ReadRequestOk(packet: Request, mem: WcStatus) {
    packet.size == RETH_SIZE && 0 <= packet.dmalen <= MAX_PAYLOAD_LEN && mem == Success
  }

  /** Schedule the responses for [psn, expected), replacing what they overlap. */
  function ServeRead(r: Rq, packet: Request, expected: int): Rq {
    var r1 := RemoveOverlapped(r, packet.psn, expected);
    if r.attr.maxDest <= r1.nrRdAtomic then Fatal(r1)
    else PushRead(r1, packet.psn, expected, packet.vaddr, packet.rkey, packet.dmalen)
  }

  /** receive_RDMA_READ_request for a new request. */
  function ReceiveNewRead(r: Rq, packet: Request, mem: WcStatus): Rq
    requires SlotsOk(r)
  {
    if !ReadRequestOk(packet, mem) || r.attr.maxDest <= r.nrRdAtomic then Fatal(r)
    else
      var n := NumPackets(r.attr.mtu, packet.dmalen);
      var slot := Slot(ReadRequest, r.psn, r.psn + n, packet.vaddr, packet.rkey, packet.dmalen, 0);
      var r1 := ServeRead(WriteSlot(r, slot), packet, slot.expected);
      if r1.state == ERR then r1
      else r1.(psn := r.psn + n, lastOp := packet.op,
               effects := r.effects + [ReadAccepted(packet.rkey, packet.vaddr, packet.dmalen)])
  }

  /** A retried RDMA READ must ask for exactly a tail of the remembered one. */
  predicate RetryValid(mtu: Mtu, slot: Slot, packet: Request) {
    var offset := (PsnDiff(packet.psn, slot.psn) * mtu) % TWO32;
    && slot.rkey == packet.rkey
    && Add64(slot.vaddr, offset) == packet.vaddr
    && (slot.dmalen - offset) % TWO32 == packet.dmalen
  }

  /** receive_RDMA_READ_request for a retried request that found `slot`. */
  function ReceiveRetriedRead(r: Rq, packet: Request, slot: Slot, mem: WcStatus): Rq {
    if !ReadRequestOk(packet, mem) || !RetryValid(r.attr.mtu, slot, packet) then Fatal(r)
    else ServeRead(r, packet, slot.expected)
  }

  /** A request the responder has already moved past. */
  function ReceiveOld(r: Rq, packet: Request, mem: WcStatus): Rq
    requires SlotsOk(r)
  {
    if packet.op in {ReadRequest, CompareSwap, FetchAdd} then
      match FindSlot(r, packet.op, packet.psn, 1)
      case None => Fatal(r)
      case Some(slot) =>
        if packet.op == ReadRequest then ReceiveRetriedRead(r, packet, slot, mem)
        else PushAtomic(r, packet.psn, slot.result)
    else PushAck(r, packet.psn, SYND_ACK)
  }

  /** The expected request. */
  function ReceiveExpected(r: Rq, packet: Request, mem: WcStatus, result: int): Rq
    requires SlotsOk(r)
  {
    if !InOrder(packet.op, r.lastOp) then Fatal(r)
    else match packet.op
      case ReadRequest => ReceiveNewRead(r, packet, mem)
      case CompareSwap | FetchAdd => ReceiveAtomicRequest(r, packet, mem, result)
      case SendFirst | SendMiddle | SendLast | SendLastImm | SendOnly | SendOnlyImm => ReceiveSend(r, packet, mem)
      case _ => ReceiveWrite(r, packet, mem)
  }

  /** receive_request. */
  function ReceiveRequest(r: Rq, packet: Request, mem: WcStatus, result: int): Rq
    requires SlotsOk(r)
  {
    var d := PsnDiff(packet.psn, r.psn);
    if !RecvOk(r.state) then r
    else if d > 0 then PushAck(r, packet.psn, SYND_PSN_SEQ_ERR)
    else if d < 0 then ReceiveOld(r, packet, mem)
    else ReceiveExpected(r, packet, mem, result)
  }

  /** pib_post_recv, one entry. */
  function PostReceive(r: Rq): Rq {
    if r.state in {RESET, ERR} then r else r.(receives := r.receives + 1)
  }

  /** receive_cnp_notify: the peer has seen enough responses to ask for more. */
  function ReceiveCnp(r: Rq): Rq {
    if RecvOk(r.state) then r.(nrContigReads := 0) else r
  }

  /** What get_ready_to_send, called when this queue pair's own sending starts, does to its responder half. */
  function ReadyToSend(r: Rq): Rq {
    r.(nrContigReads := 0)
  }

  // ---------------------------------------------------------------------------
  // Generating acknowledge packets

  /** The response packet for the part of an RDMA READ that comes next. */
  function ReadResponse(mtu: Mtu, a: Ack): Response
    requires a.ReadAck?
  {
    var k := a.offset / mtu;
    var n := if a.size - a.offset < mtu then a.size - a.offset else mtu;
    var kind :=
      if PsnDiff(a.expected, a.psn) == 1 then ReadOnlyKind
      else if k == 0 then ReadFirstKind
      else if PsnDiff(a.expected, a.psn + k) > 1 then ReadMiddleKind
      else ReadLastKind;
    Response(a.psn + k, kind, SYND_ACK, (if kind == ReadMiddleKind then 0 else AETH_SIZE) + n,
             a.rkey, Add64(a.vaddr, a.offset), n, 0)
  }

  /**
    pib_generate_rc_qp_acknowledge; `memOk` is whether the bytes of an RDMA READ can be fetched.
    RDMA READ responses stop when more than MAX_CONTIG_READ_ACKS went out in a row.
   */
  function Generate(r: Rq, memOk: bool): (Rq, Option<Response>) {
    if !RecvOk(r.state) || r.acks == [] then (r, None)
    else
      var a := r.acks[0];
      match a
      case NormalAck(psn, _, syndrome) =>
        (r.(acks := r.acks[1..]), Some(Response(psn, AckKind, syndrome, AETH_SIZE, 0, 0, 0, 0)))
      case AtomicAck(psn, _, result) =>
        (r.(acks := r.acks[1..], nrRdAtomic := r.nrRdAtomic - 1),
         Some(Response(psn, AtomicKind, SYND_ACK, AETH_SIZE + ATOMIC_ACK_ETH_SIZE, 0, 0, 0, result)))
      case ReadAck(psn, _, _, _, size, offset) =>
        if MAX_CONTIG_READ_ACKS < r.nrContigReads then (r, None)
        else
          var rsp := ReadResponse(r.attr.mtu, a);
          var a' := if memOk then a.(offset := offset + rsp.length) else a;
          var out := if memOk then Some(rsp) else None;
          var r1 := r.(nrContigReads := if memOk then r.nrContigReads + 1 else r.nrContigReads);
          if a'.offset < size then (r1.(acks := r.acks[0 := a']), out)
          else (r1.(acks := r.acks[1..], nrRdAtomic := r.nrRdAtomic - 1), out)
  }
}
