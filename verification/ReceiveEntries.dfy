/**
  Receive entries are conserved: in every run of both ends, what was posted is either used up by a message
  that needs an entry or still there, until the queue pair fails.
 */
module ReceiveEntries {
  import opened WorkRequest
  import opened SendQueue
  import opened ReceiveQueue
  import opened Protocol
  import opened RunMemory

  /** Of `posted` entries those not used up are there; a queue pair in error has none. */
  ghost predicate Held(r: Rq, posted: int) {
    && r.state != RESET
    && if r.state == ERR then r.receives == 0 else r.receives + CountUsed(r.effects) == posted
  }

  lemma UsedOne(effects: seq<Effect>, e: Effect)
    ensures CountUsed(effects + [e]) == CountUsed(effects) + if Consumes(e) then 1 else 0
  {
    assert (effects + [e])[..|effects|] == effects;
  }

  lemma SendHolds(r: Rq, packet: Request, mem: WcStatus, posted: int)
    requires Held(r, posted) && r.state != ERR
    ensures Held(ReceiveSend(r, packet, mem), posted)
  {
    hide CountUsed, SizeRange;
    var from := if Initial(packet.op) then 0 else r.offset;
    UsedOne(r.effects, Placed(from, packet.payload, Final(packet.op)));
  }

  lemma WriteBodyHolds(r: Rq, packet: Request, size1: int, mem: WcStatus, posted: int)
    requires Held(r, posted) && r.state != ERR
    ensures Held(WriteBody(r, packet, size1, mem), posted)
  {
    hide CountUsed, SizeRange, Add64;
    UsedOne(r.effects, Wrote(r.writeRkey, Add64(r.writeVaddr, r.offset), packet.payload, Final(packet.op) && CarriesImm(packet.op)));
  }

  lemma WriteHolds(r: Rq, packet: Request, mem: WcStatus, posted: int)
    requires Held(r, posted) && r.state != ERR
    ensures Held(ReceiveWrite(r, packet, mem), posted)
  {
    hide CountUsed, WriteBody;
    if !Initial(packet.op) {
      WriteBodyHolds(r, packet, packet.size, mem, posted);
    } else if packet.size >= RETH_SIZE {
      var r1 := r.(offset := 0, writeVaddr := packet.vaddr, writeRkey := packet.rkey, writeLen := packet.dmalen);
      WriteBodyHolds(r1, packet, packet.size - RETH_SIZE, mem, posted);
    }
  }

  lemma ReplyHolds(r: Rq, packet: Request, mem: WcStatus, result: int, posted: int)
    requires SlotsOk(r) && Held(r, posted) && r.state != ERR
    ensures Held(ReceiveNewRead(r, packet, mem), posted) && Held(ReceiveAtomicRequest(r, packet, mem, result), posted)
    ensures Held(ReceiveOld(r, packet, mem), posted)
  {
    hide CountUsed, Keep, CountReplies, NumPackets, FindSlot, RetryValid, SlotAt;
    UsedOne(r.effects, AtomicApplied(packet.rkey, packet.vaddr));
    UsedOne(r.effects, ReadAccepted(packet.rkey, packet.vaddr, packet.dmalen));
  }

  lemma RequestHolds(r: Rq, packet: Request, mem: WcStatus, result: int, posted: int)
    requires SlotsOk(r) && Held(r, posted)
    ensures Held(ReceiveRequest(r, packet, mem, result), posted)
  {
    hide CountUsed, ReceiveSend, ReceiveWrite, ReceiveNewRead, ReceiveAtomicRequest, ReceiveOld;
    if r.state != ERR {
      SendHolds(r, packet, mem, posted);
      WriteHolds(r, packet, mem, posted);
      ReplyHolds(r, packet, mem, result, posted);
    }
  }

  /** How many receive entries a run posts. */
  function PostedIn(actions: seq<Action>): nat {
    if actions == [] then 0 else PostedIn(actions[1..]) + if actions[0].AddReceive? then 1 else 0
  }

  lemma StepHolds(s: System, a: Action, posted: int)
    requires Enabled(s, a) && Held(s.rq, posted)
    ensures Held(Step(s, a).rq, posted + if a.AddReceive? then 1 else 0)
  {
    hide CountUsed, ReceiveRequest, PostSend, Modify, Schedule, ReceiveResponse, ReadResponse, EffectsOf;
    if a.DeliverRequest? {
      RequestHolds(s.rq, s.requests[a.index].packet, a.memory, a.result, posted);
    }
  }

  /**
    In every run the receive entries posted are those used up, one by each SEND and each RDMA WRITE with
    immediate data that was executed, and those left; a queue pair in error has none left.
   */
  lemma {:induction false} EntriesConserved(s: System, actions: seq<Action>, before: int)
    requires Legal(s, actions) && Held(s.rq, before)
    ensures Held(Run(s, actions).rq, before + PostedIn(actions))
    decreases |actions|
  {
    hide Held, Step, Enabled;
    if actions != [] {
      StepHolds(s, actions[0], before);
      EntriesConserved(Step(s, actions[0]), actions[1..], before + if actions[0].AddReceive? then 1 else 0);
    }
  }
}
