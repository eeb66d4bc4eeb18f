/**
  How the responder's state corresponds to its position in the requester's stream, and that
  executing the expected packet moves it one step further along that stream.
 */
module ResponderExecution {
  import opened OpCode
  import opened WorkRequest
  import opened SendQueue
  import opened SendQueueInvariant
  import opened ReceiveQueue
  import opened ReceiveQueueInvariant
  import opened Protocol

  // ---------------------------------------------------------------------------
  // Plans

  /** Where item `i` of a tiled plan starts. */
  function StartOf(plan: seq<Item>, origin: int, i: nat): int
    requires i <= |plan|
  {
    if i == 0 then origin else plan[i - 1].End()
  }

  ghost predicate PlanOk(mtu: Mtu, plan: seq<Item>, origin: int, end: int) {
    && Tiles(plan, origin, end)
    && forall i :: 0 <= i < |plan| ==> ItemOk(mtu, plan[i]) && plan[i].wr.length <= MAX_PAYLOAD_LEN
  }

  lemma StartsAtBase(mtu: Mtu, plan: seq<Item>, origin: int, end: int, i: nat)
    requires PlanOk(mtu, plan, origin, end) && i < |plan|
    ensures StartOf(plan, origin, i) == plan[i].base
  {
  }

  lemma {:induction false} PlanOrdered(mtu: Mtu, plan: seq<Item>, origin: int, end: int, i: nat, j: nat)
    requires PlanOk(mtu, plan, origin, end) && i < j <= |plan|
    ensures plan[i].End() <= StartOf(plan, origin, j)
    decreases j
  {
    if i < j - 1 {
      PlanOrdered(mtu, plan, origin, end, i, j - 1);
      StartsAtBase(mtu, plan, origin, end, j - 1);
    }
  }

  lemma PlanEnd(mtu: Mtu, plan: seq<Item>, origin: int, end: int)
    requires PlanOk(mtu, plan, origin, end)
    ensures StartOf(plan, origin, |plan|) == end
  {
  }

  /** A PSN inside item `i` that equals the position (done, part) is exactly that position. */
  lemma PositionUnique(mtu: Mtu, plan: seq<Item>, origin: int, end: int, i: nat, k: nat, done: nat, part: nat)
    requires PlanOk(mtu, plan, origin, end) && i < |plan| && k < plan[i].all
    requires done <= |plan| && (part > 0 ==> done < |plan|) && (done < |plan| ==> part < plan[done].all)
    requires plan[i].base + k == StartOf(plan, origin, done) + part
    ensures i == done && k == part
  {
    StartsAtBase(mtu, plan, origin, end, i);
    if i < done {
      PlanOrdered(mtu, plan, origin, end, i, done);
    } else if done < i {
      PlanOrdered(mtu, plan, origin, end, done, i);
      StartsAtBase(mtu, plan, origin, end, done);
    }
    if done < |plan| {
      StartsAtBase(mtu, plan, origin, end, done);
    }
  }

  // ---------------------------------------------------------------------------
  // Correspondence

  /** `slot` is the record of `item`. */
  ghost predicate RecordOf(item: Item, slot: Slot) {
    && slot.op == RequestOpcode(item.wr.opcode, item.all, 0)
    && slot.psn == item.base
    && slot.expected == item.End()
    && (item.wr.opcode == WrRead ==>
          slot.vaddr == item.wr.raddr && slot.rkey == item.wr.rkey && slot.dmalen == item.wr.length)
  }

  ghost predicate RecordsMatch(plan: seq<Item>, records: seq<Slot>) {
    && |RdItems(plan)| == |records|
    && forall j :: 0 <= j < |records| ==> RecordOf(RdItems(plan)[j], records[j])
  }

  /** The responder is `part` packets into `item`. */
  ghost predicate MidMessage(r: Rq, item: Item, part: nat) {
    && r.lastOp == RequestOpcode(item.wr.opcode, item.all, part - 1)
    && r.offset == part * r.attr.mtu
    && (IsSend(item.wr.opcode) ==> r.partial == JoinChunks(r.attr.mtu, item.wr, part))
    && (IsWrite(item.wr.opcode) ==>
          r.writeVaddr == item.wr.raddr && r.writeRkey == item.wr.rkey && r.writeLen == item.wr.length)
    && (IsSend(item.wr.opcode) || IsWrite(item.wr.opcode))
  }

  /** The responder has executed `done` items of the plan and `part` packets of the next one, and nothing else. */
  ghost predicate Executed(r: Rq, plan: seq<Item>, done: nat, part: nat) {
    && done <= |plan|
    && r.psn == StartOf(plan, r.attr.origin, done) + part
    && (part > 0 ==> done < |plan| && part < StepsOf(plan[done]))
    && (if part == 0 then AttrOf(r.lastOp).ending else MidMessage(r, plan[done], part))
    && r.effects == IdealEffects(r.attr.mtu, plan[..done])
                    + (if part == 0 then [] else EffectsOf(r.attr.mtu, plan[done], part))
    && r.inbox == IdealMessages(plan[..done])
    && RecordsMatch(plan[..done], r.records)
  }

  /** A longer plan changes nothing about what was executed. */
  lemma ExecutedGrows(r: Rq, plan: seq<Item>, plan': seq<Item>, done: nat, part: nat)
    requires Executed(r, plan, done, part) && plan <= plan'
    ensures Executed(r, plan', done, part)
  {
    assert plan'[..done] == plan[..done];
    assert done > 0 ==> plan'[done - 1] == plan[done - 1];
  }

  // ---------------------------------------------------------------------------
  // One step of execution

  /** What is recorded after one more step of `item`. */
  ghost predicate Stepped(r: Rq, t: Rq, item: Item, part: nat) {
    && t.attr == r.attr
    && t.effects == r.effects + [EffectOf(r.attr.mtu, item, part)]
    && (if part + 1 < StepsOf(item) then t.psn == r.psn + 1 && MidMessage(t, item, part + 1)
        else t.psn == r.psn + (item.all - part) && AttrOf(t.lastOp).ending)
    && (if part + 1 == StepsOf(item) && IsSend(item.wr.opcode)
        then t.inbox == r.inbox + [item.wr.data[..Clamp(item.wr.length, |item.wr.data|)]]
        else t.inbox == r.inbox)
    && (if IsRdAtomic(item.wr.opcode) then |t.records| == |r.records| + 1 && t.records[..|r.records|] == r.records
                                           && RecordOf(item, t.records[|r.records|])
        else t.records == r.records)
  }

  /** Nothing was executed. */
  ghost predicate Held(r: Rq, t: Rq, item: Item, part: nat) {
    && t.attr == r.attr
    && t.psn == r.psn && t.lastOp == r.lastOp
    && t.effects == r.effects && t.inbox == r.inbox && t.records == r.records
    && (part > 0 ==> t.offset == r.offset && t.partial == r.partial
                     && t.writeVaddr == r.writeVaddr && t.writeRkey == r.writeRkey && t.writeLen == r.writeLen)
  }

  lemma HeldExecuted(r: Rq, t: Rq, plan: seq<Item>, done: nat, part: nat)
    requires Executed(r, plan, done, part) && done < |plan| && Held(r, t, plan[done], part)
    ensures Executed(t, plan, done, part)
  {
    hide EffectsOf, IdealEffects, IdealMessages, RecordsMatch;
  }

  lemma RdItemsLast(plan: seq<Item>, item: Item)
    ensures RdItems(plan + [item]) == RdItems(plan) + if IsRdAtomic(item.wr.opcode) then [item] else []
  {
    assert (plan + [item])[..|plan|] == plan;
  }

  lemma IdealLast(mtu: Mtu, plan: seq<Item>, item: Item)
    ensures IdealEffects(mtu, plan + [item]) == IdealEffects(mtu, plan) + EffectsOf(mtu, item, StepsOf(item))
    ensures IdealMessages(plan + [item]) == IdealMessages(plan)
              + if IsSend(item.wr.opcode) then [item.wr.data[..Clamp(item.wr.length, |item.wr.data|)]] else []
  {
    assert (plan + [item])[..|plan|] == plan;
  }

  lemma RecordsStep(plan: seq<Item>, item: Item, r: Rq, t: Rq)
    requires RecordsMatch(plan, r.records)
    requires if IsRdAtomic(item.wr.opcode) then |t.records| == |r.records| + 1 && t.records[..|r.records|] == r.records
                                           && RecordOf(item, t.records[|r.records|])
             else t.records == r.records
    ensures RecordsMatch(plan + [item], t.records)
  {
    RdItemsLast(plan, item);
    hide RdItems, RecordOf;
    forall j | 0 <= j < |t.records| ensures RecordOf(RdItems(plan + [item])[j], t.records[j]) {
      if j < |r.records| {
        assert t.records[j] == t.records[..|r.records|][j];
      }
    }
  }

  lemma SteppedInside(r: Rq, t: Rq, plan: seq<Item>, done: nat, part: nat)
    requires Executed(r, plan, done, part) && done < |plan| && part + 1 < StepsOf(plan[done])
    requires Stepped(r, t, plan[done], part) && !IsRdAtomic(plan[done].wr.opcode)
    ensures Executed(t, plan, done, part + 1)
  {
    hide EffectsOf, IdealEffects, IdealMessages, RecordsMatch, MidMessage, EffectOf, Clamp, IsRdAtomic;
    var item := plan[done];
    EffectsStep(r.attr.mtu, item, part);
    assert t.effects == IdealEffects(r.attr.mtu, plan[..done]) + EffectsOf(r.attr.mtu, item, part + 1);
  }

  lemma SteppedOver(r: Rq, t: Rq, plan: seq<Item>, done: nat, part: nat)
    requires Executed(r, plan, done, part) && done < |plan| && part + 1 == StepsOf(plan[done])
    requires plan[done].base == StartOf(plan, r.attr.origin, done)
    requires Stepped(r, t, plan[done], part)
    ensures Executed(t, plan, done + 1, 0)
  {
    hide EffectsOf, IdealEffects, IdealMessages, RecordsMatch, MidMessage, EffectOf, Clamp, IsRdAtomic, RecordOf, AttrOf, IsSend;
    var item := plan[done];
    EffectsStep(r.attr.mtu, item, part);
    assert plan[..done + 1] == plan[..done] + [item];
    IdealLast(r.attr.mtu, plan[..done], item);
    RecordsStep(plan[..done], item, r, t);
    assert t.effects == IdealEffects(r.attr.mtu, plan[..done + 1]);
  }

  lemma SteppedExecuted(r: Rq, t: Rq, plan: seq<Item>, done: nat, part: nat)
    requires Executed(r, plan, done, part) && done < |plan| && part < StepsOf(plan[done])
    requires plan[done].base == StartOf(plan, r.attr.origin, done)
    requires Stepped(r, t, plan[done], part)
    ensures var (done', part') := NextPosition(plan, done, part); Executed(t, plan, done', part')
  {
    hide Executed, MidMessage, EffectOf;
    if part + 1 == StepsOf(plan[done]) {
      SteppedOver(r, t, plan, done, part);
    } else {
      MidIsMessage(t, plan[done], part + 1);
      SteppedInside(r, t, plan, done, part);
    }
  }

  lemma MidIsMessage(r: Rq, item: Item, part: nat)
    ensures MidMessage(r, item, part) ==> !IsRdAtomic(item.wr.opcode)
  {
    hide JoinChunks, RequestOpcode;
  }

  lemma EffectsStep(mtu: Mtu, item: Item, part: nat)
    ensures EffectsOf(mtu, item, part + 1) == EffectsOf(mtu, item, part) + [EffectOf(mtu, item, part)]
    ensures EffectsOf(mtu, item, 0) == []
  {
    hide EffectOf;
  }

  // ---------------------------------------------------------------------------
  // The packets of a work request pass every check

  /** The responder stands just before packet `part` of `item`. */
  ghost predicate Poised(r: Rq, item: Item, part: nat) {
    && ItemOk(r.attr.mtu, item) && item.wr.length <= MAX_PAYLOAD_LEN
    && part < item.all
    && (if part == 0 then AttrOf(r.lastOp).ending else MidMessage(r, item, part))
  }

  lemma NextInOrder(r: Rq, item: Item, part: nat)
    requires Poised(r, item, part) && item.wr.opcode != WrUnsupported
    ensures InOrder(RequestOpcode(item.wr.opcode, item.all, part), r.lastOp)
  {
    hide JoinChunks;
  }

  lemma OpcodeShape(opcode: WrOpcode, all: nat, k: nat)
    requires k < all && (IsSend(opcode) || IsWrite(opcode))
    ensures var op := RequestOpcode(opcode, all, k);
      && (Initial(op) <==> k == 0)
      && (Final(op) <==> k + 1 == all)
      && (CarriesImm(op) <==> HasImm(opcode) && k + 1 == all)
      && (HasReth(op) <==> IsWrite(opcode) && k == 0)
      && op !in {CompareSwap, FetchAdd, ReadRequest}
      && (IsSend(opcode) ==> op in {SendFirst, SendMiddle, SendLast, SendLastImm, SendOnly, SendOnlyImm})
      && (IsWrite(opcode) ==> op in {WriteFirst, WriteMiddle, WriteLast, WriteLastImm, WriteOnly, WriteOnlyImm})
  {
  }

  /** Segmentation produces only sizes the responder accepts. */
  lemma SizesAccepted(mtu: Mtu, item: Item, k: nat)
    requires ItemOk(mtu, item) && k < item.all && (IsSend(item.wr.opcode) || IsWrite(item.wr.opcode))
    requires GatherOk(mtu, item.wr, item.all, k)
    ensures SizeOk(mtu, RequestOpcode(item.wr.opcode, item.all, k), |Chunk(mtu, item.wr, item.all, k)|)
    ensures |Chunk(mtu, item.wr, item.all, k)| == PayloadSize(mtu, item.wr.length, item.all, k)
    ensures k + 1 < item.all ==> |Chunk(mtu, item.wr, item.all, k)| == mtu
    ensures k * mtu + |Chunk(mtu, item.wr, item.all, k)| <= item.wr.length
    ensures k + 1 == item.all ==> k * mtu + |Chunk(mtu, item.wr, item.all, k)| == item.wr.length
  {
    ChunkSize(mtu, item.wr, k);
    PacketFits(mtu, item.wr.length, k);
    hide Chunk, NumPackets;
  }

  lemma PushAckFields(r: Rq, psn: int, syndrome: int)
    ensures var t := PushAck(r, psn, syndrome); t == r.(acks := t.acks, nrContigReads := t.nrContigReads)
  {
  }

  /** The last packet of a SEND leaves the whole message in the receive buffer. */
  lemma MessageComplete(mtu: Mtu, item: Item)
    requires ItemOk(mtu, item)
    requires GatherOk(mtu, item.wr, item.all, item.all - 1)
    ensures JoinChunks(mtu, item.wr, item.all) == item.wr.data[..Clamp(item.wr.length, |item.wr.data|)]
  {
    PacketFits(mtu, item.wr.length, item.all - 1);
    assert item.wr.length <= |item.wr.data| by {
      hide Chunk;
    }
    JoinRebuilds(mtu, item.wr, item.all);
  }

  lemma SendStep(r: Rq, item: Item, part: nat, mem: WcStatus)
    requires Poised(r, item, part) && IsSend(item.wr.opcode)
    requires GatherOk(r.attr.mtu, item.wr, item.all, part)
    ensures var t := ReceiveSend(r, PacketOf(r.attr.mtu, item, part), mem);
      Held(r, t, item, part) || Stepped(r, t, item, part)
  {
    hide PushAck, Chunk, RequestOpcode, SizeOk, NumPackets, PayloadSize, Initial, Final, CarriesImm, HasReth, ReceiveSend, Held, Stepped;
    var mtu := r.attr.mtu;
    var packet := PacketOf(mtu, item, part);
    OpcodeShape(item.wr.opcode, item.all, part);
    SizesAccepted(mtu, item, part);
    var r1 := if Initial(packet.op) then r.(offset := 0, partial := []) else r;
    assert r1.offset == part * mtu;
    assert r1.partial == JoinChunks(mtu, item.wr, part);
    assert (part + 1) * mtu == part * mtu + mtu;
    assert JoinChunks(mtu, item.wr, part + 1) == JoinChunks(mtu, item.wr, part) + packet.payload;
    if part + 1 == item.all {
      MessageComplete(mtu, item);
    }
    SendOutcome(r, r1, item, part, mem);
  }

  lemma SendOutcome(r: Rq, r1: Rq, item: Item, part: nat, mem: WcStatus)
    requires Poised(r, item, part) && IsSend(item.wr.opcode)
    requires var mtu, packet := r.attr.mtu, PacketOf(r.attr.mtu, item, part);
      && r1 == (if Initial(packet.op) then r.(offset := 0, partial := []) else r)
      && (Initial(packet.op) <==> part == 0) && (Final(packet.op) <==> part + 1 == item.all)
      && SizeOk(mtu, packet.op, |packet.payload|)
      && !HasReth(packet.op) && packet.op !in {CompareSwap, FetchAdd}
      && r1.offset == part * mtu && r1.partial == JoinChunks(mtu, item.wr, part)
      && (part + 1) * mtu == part * mtu + mtu
      && JoinChunks(mtu, item.wr, part + 1) == JoinChunks(mtu, item.wr, part) + packet.payload
      && (part + 1 < item.all ==> |packet.payload| == mtu)
      && (part + 1 == item.all ==>
            JoinChunks(mtu, item.wr, item.all) == item.wr.data[..Clamp(item.wr.length, |item.wr.data|)])
    ensures var t := ReceiveSend(r, PacketOf(r.attr.mtu, item, part), mem);
      Held(r, t, item, part) || Stepped(r, t, item, part)
  {
    hide JoinChunks, Chunk, RequestOpcode, PushAck, SizeOk, NumPackets, Clamp;
    var packet := PacketOf(r.attr.mtu, item, part);
    PushAckFields(r1, packet.psn, RnrSyndrome(r.attr));
    if r1.receives > 0 && mem == Success {
      var r2 := r1.(offset := r1.offset + |packet.payload|, partial := r1.partial + packet.payload,
                    effects := r1.effects + [Placed(r1.offset, packet.payload, Final(packet.op))]);
      var r3 := if Final(packet.op) then r2.(receives := r2.receives - 1, inbox := r2.inbox + [r2.partial]) else r2;
      PushAckFields(r3, packet.psn, SYND_ACK);
      var t := ReceiveSend(r, packet, mem);
      assert t == Advance(r3, packet);
    }
  }

  lemma WriteStep(r: Rq, item: Item, part: nat, mem: WcStatus)
    requires Poised(r, item, part) && IsWrite(item.wr.opcode)
    requires GatherOk(r.attr.mtu, item.wr, item.all, part)
    ensures var t := ReceiveWrite(r, PacketOf(r.attr.mtu, item, part), mem);
      Held(r, t, item, part) || Stepped(r, t, item, part)
  {
    var mtu := r.attr.mtu;
    var packet := PacketOf(mtu, item, part);
    OpcodeShape(item.wr.opcode, item.all, part);
    SizesAccepted(mtu, item, part);
    var r1 := if Initial(packet.op)
      then r.(offset := 0, writeVaddr := packet.vaddr, writeRkey := packet.rkey, writeLen := packet.dmalen) else r;
    assert r1.offset == part * mtu;
    assert (part + 1) * mtu == part * mtu + mtu;
    WriteOutcome(r, r1, item, part, mem);
  }

  lemma WriteOutcome(r: Rq, r1: Rq, item: Item, part: nat, mem: WcStatus)
    requires Poised(r, item, part) && IsWrite(item.wr.opcode)
    requires var mtu, packet := r.attr.mtu, PacketOf(r.attr.mtu, item, part);
      && r1 == (if Initial(packet.op)
          then r.(offset := 0, writeVaddr := packet.vaddr, writeRkey := packet.rkey, writeLen := packet.dmalen) else r)
      && (Initial(packet.op) <==> part == 0) && (Final(packet.op) <==> part + 1 == item.all)
      && (HasReth(packet.op) <==> part == 0) && packet.op !in {CompareSwap, FetchAdd}
      && (CarriesImm(packet.op) <==> HasImm(item.wr.opcode) && part + 1 == item.all)
      && SizeOk(mtu, packet.op, |packet.payload|)
      && r1.offset == part * mtu
      && (part + 1) * mtu == part * mtu + mtu
      && (part + 1 < item.all ==> |packet.payload| == mtu)
      && part * mtu + |packet.payload| <= item.wr.length
      && (part + 1 == item.all ==> part * mtu + |packet.payload| == item.wr.length)
    ensures var t := ReceiveWrite(r, PacketOf(r.attr.mtu, item, part), mem);
      Held(r, t, item, part) || Stepped(r, t, item, part)
  {
    hide JoinChunks, Chunk, RequestOpcode, PushAck, SizeOk, NumPackets, Clamp, Add64, Initial, CarriesImm, HasReth;
    var packet := PacketOf(r.attr.mtu, item, part);
    var imm := CarriesImm(packet.op);
    PushAckFields(r1, packet.psn, RnrSyndrome(r.attr));
    if !(imm && r1.receives == 0) && mem == Success {
      var r2 := PlaceWrite(r1, packet, |packet.payload|);
      PushAckFields(r2, packet.psn, SYND_ACK);
      var t := Advance(r2, packet);
      assert ReceiveWrite(r, packet, mem) == t;
      assert t.effects == r.effects + [EffectOf(r.attr.mtu, item, part)];
      assert part + 1 < item.all ==> MidMessage(t, item, part + 1);
      assert part + 1 == item.all ==> AttrOf(t.lastOp).ending;
    }
  }

  lemma AtomicStep(r: Rq, item: Item, mem: WcStatus, result: int)
    requires SlotsOk(r) && Poised(r, item, 0) && IsAtomic(item.wr.opcode)
    requires r.psn == item.base
    ensures var t := ReceiveAtomicRequest(r, PacketOf(r.attr.mtu, item, 0), mem, result);
      Held(r, t, item, 0) || Stepped(r, t, item, 0)
  {
    hide SlotAt, NumPackets;
  }

  lemma ServeReadFields(r: Rq, packet: Request, expected: int)
    ensures var t := ServeRead(r, packet, expected);
      t == r.(acks := t.acks, nrRdAtomic := t.nrRdAtomic, state := t.state, receives := t.receives,
              nrContigReads := t.nrContigReads)
  {
    hide Keep, CountReplies;
  }

  lemma ReadStep(r: Rq, item: Item, mem: WcStatus)
    requires LocalInv(r) && RecvOk(r.state) && Poised(r, item, 0) && item.wr.opcode == WrRead
    requires r.psn == item.base
    ensures var t := ReceiveNewRead(r, PacketOf(r.attr.mtu, item, 0), mem);
      Held(r, t, item, 0) || Stepped(r, t, item, 0)
  {
    hide ServeRead, LocalInv, SlotAt, NumPackets, ReadRequestOk, Chunk, MidMessage;
    SlotsOkFromLocal(r);
    var packet := PacketOf(r.attr.mtu, item, 0);
    if ReadRequestOk(packet, mem) && r.nrRdAtomic < r.attr.maxDest {
      FreshReadServed(r, packet, mem);
      var slot := Slot(ReadRequest, r.psn, r.psn + item.all, packet.vaddr, packet.rkey, packet.dmalen, 0);
      ServeReadFields(WriteSlot(r, slot), packet, slot.expected);
    }
  }
}
