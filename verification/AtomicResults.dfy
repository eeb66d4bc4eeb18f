/**
  Where the value in an atomic acknowledge comes from: the memory operation of the one delivery that
  executed the atomic, however often and in whatever order packets arrive.
 */
module AtomicResults {
  import opened Psn
  import opened OpCode
  import opened WorkRequest
  import opened SendQueue
  import opened ReceiveQueue
  import opened Protocol
  import opened AckTruth
  import opened ProtocolRequests
  import opened ProtocolSafety
  import AckProgress
  import ProtocolResponses
  import SendQueueInvariant

  // ---------------------------------------------------------------------------
  // One delivery

  predicate IsAtomicOp(op: OpCode) {
    op in {CompareSwap, FetchAdd}
  }

  /** At most one record is added; that of an atomic is for the PSN just executed and holds `result`. */
  predicate RecordsResult(r: Rq, t: Rq, result: int) {
    || t.records == r.records
    || (|t.records| == |r.records| + 1 && t.records[..|r.records|] == r.records
        && var slot := t.records[|r.records|];
           IsAtomicOp(slot.op) ==> slot.psn == r.psn && t.psn == r.psn + 1 && slot.result == result)
  }

  lemma PlainRecords(r: Rq, packet: Request, mem: WcStatus)
    ensures ReceiveSend(r, packet, mem).records == r.records && ReceiveWrite(r, packet, mem).records == r.records
  {
    hide PushAck, SizeOk, Initial, Final, CarriesImm, Add64, RnrSyndrome;
    var a := if Initial(packet.op) then r.(offset := 0, partial := []) else r;
    var b := if Initial(packet.op)
      then r.(offset := 0, writeVaddr := packet.vaddr, writeRkey := packet.rkey, writeLen := packet.dmalen) else r;
    PushedRecords();
  }

  lemma PushedRecords()
    ensures forall r: Rq, psn, syndrome :: PushAck(r, psn, syndrome).records == r.records
  {
  }

  lemma RdRecords(r: Rq, packet: Request, mem: WcStatus, result: int)
    requires SlotsOk(r)
    ensures packet.op == ReadRequest ==> RecordsResult(r, ReceiveNewRead(r, packet, mem), result)
    ensures RecordsResult(r, ReceiveAtomicRequest(r, packet, mem, result), result)
  {
    hide SlotAt, Keep, CountReplies, NumPackets;
  }

  lemma OldRecords(r: Rq, packet: Request, mem: WcStatus)
    requires SlotsOk(r)
    ensures ReceiveOld(r, packet, mem).records == r.records
  {
    hide FindSlot, RetryValid, Keep, CountReplies, PushAck;
    PushedRecords();
  }

  lemma DeliveryRecords(r: Rq, packet: Request, mem: WcStatus, result: int)
    requires SlotsOk(r)
    ensures RecordsResult(r, ReceiveRequest(r, packet, mem, result), result)
  {
    hide ReceiveNewRead, ReceiveAtomicRequest, ReceiveSend, ReceiveWrite, ReceiveOld, PushAck, InOrder, PsnDiff;
    OldRecords(r, packet, mem);
    PushedRecords();
    PlainRecords(r, packet, mem);
    RdRecords(r, packet, mem, result);
  }

  // ---------------------------------------------------------------------------
  // Runs, step by step

  lemma {:induction false} RunLast(s: System, actions: seq<Action>)
    requires Legal(s, actions) && actions != []
    ensures var n := |actions| - 1;
      Legal(s, actions[..n]) && Enabled(Run(s, actions[..n]), actions[n]) && Run(s, actions) == Step(Run(s, actions[..n]), actions[n])
    decreases |actions|
  {
    hide Enabled, Step;
    var n := |actions| - 1;
    if n > 0 {
      RunLast(Step(s, actions[0]), actions[1..]);
      assert actions[1..][..n - 1] == actions[..n][1..] && actions[1..][n - 1] == actions[n];
    } else {
      assert actions[1..] == [];
    }
  }

  lemma {:induction false} LegalUpTo(s: System, actions: seq<Action>, i: nat)
    requires Legal(s, actions) && i <= |actions|
    ensures Legal(s, actions[..i])
    decreases |actions|
  {
    hide Legal, Run, Enabled, Step;
    if i == |actions| {
      assert actions[..i] == actions;
    } else {
      RunLast(s, actions);
      LegalUpTo(s, actions[..|actions| - 1], i);
      assert actions[..|actions| - 1][..i] == actions[..i];
    }
  }

  /** Where the responder stands after `i` actions. */
  function PsnAfter(s: System, actions: seq<Action>, i: nat): int
    requires Legal(s, actions) && i <= |actions|
  {
    LegalUpTo(s, actions, i);
    Run(s, actions[..i]).rq.psn
  }

  /** Action `i` is the delivery that took the responder past `psn`, and the memory operation returned `result`. */
  ghost predicate Supplies(s: System, actions: seq<Action>, i: nat, psn: int, result: int)
    requires Legal(s, actions)
  {
    && i < |actions| && actions[i].DeliverRequest? && actions[i].result == result
    && PsnAfter(s, actions, i) <= psn < PsnAfter(s, actions, i + 1)
  }

  lemma PsnAfterFront(s: System, actions: seq<Action>, i: nat)
    requires Legal(s, actions) && actions != [] && i < |actions|
    ensures Legal(s, actions[..|actions| - 1]) && PsnAfter(s, actions, i) == PsnAfter(s, actions[..|actions| - 1], i)
  {
    hide Legal, Run;
    RunLast(s, actions);
    LegalUpTo(s, actions, i);
    assert actions[..|actions| - 1][..i] == actions[..i];
  }

  lemma SuppliesStill(s: System, actions: seq<Action>, i: nat, psn: int, result: int)
    requires Legal(s, actions) && actions != [] && Legal(s, actions[..|actions| - 1])
    requires Supplies(s, actions[..|actions| - 1], i, psn, result)
    ensures Supplies(s, actions, i, psn, result)
  {
    hide Legal, PsnAfter;
    PsnAfterFront(s, actions, i);
    PsnAfterFront(s, actions, i + 1);
  }

  // ---------------------------------------------------------------------------
  // Records

  ghost predicate Supplied(s: System, actions: seq<Action>, slot: Slot)
    requires Legal(s, actions)
  {
    IsAtomicOp(slot.op) ==> exists i :: Supplies(s, actions, i, slot.psn, slot.result)
  }

  ghost predicate AllSupplied(s: System, actions: seq<Action>, records: seq<Slot>)
    requires Legal(s, actions)
  {
    forall j :: 0 <= j < |records| ==> Supplied(s, actions, records[j])
  }

  /** What one action does to the records. */
  lemma ActionRecords(t: System, a: Action)
    requires Safe(t) && Enabled(t, a)
    ensures var u := Step(t, a);
      if a.DeliverRequest? then RecordsResult(t.rq, u.rq, a.result) else u.rq.records == t.rq.records
  {
    hide Safe, ReceiveRequest, Generate, PostSend, Modify, Schedule, Prepare, RdItems, ReceiveResponse, InWindow;
    if a.DeliverRequest? {
      DeliveryRecords(t.rq, t.requests[a.index].packet, a.memory, a.result);
    } else if a.RunResponder? {
      GenerateRecords(t.rq, a.memOk);
    }
  }

  lemma GenerateRecords(r: Rq, memOk: bool)
    ensures Generate(r, memOk).0.records == r.records
  {
  }

  lemma {:induction false} RecordsSupplied(s: System, actions: seq<Action>)
    requires Start(s) && Legal(s, actions)
    ensures AllSupplied(s, actions, Run(s, actions).rq.records)
    decreases |actions|
  {
    hide Legal, Run, Enabled, Step, Supplied, Safe, RecordsResult;
    if actions == [] {
      NothingRun(s);
    } else {
      var n := |actions| - 1;
      RunLast(s, actions);
      var t, u := Run(s, actions[..n]), Run(s, actions);
      RecordsSupplied(s, actions[..n]);
      StartSafe(s);
      RunSafe(s, actions[..n]);
      ActionRecords(t, actions[n]);
      forall j | 0 <= j < |u.rq.records| ensures Supplied(s, actions, u.rq.records[j]) {
        RecordStill(s, actions, t, u, j);
      }
    }
  }

  lemma NothingRun(s: System)
    requires Start(s)
    ensures Legal(s, []) && Run(s, []).rq.records == []
  {
  }

  lemma RecordStill(s: System, actions: seq<Action>, t: System, u: System, j: nat)
    requires Legal(s, actions) && actions != [] && Legal(s, actions[..|actions| - 1])
    requires t == Run(s, actions[..|actions| - 1]) && u == Run(s, actions) && j < |u.rq.records|
    requires AllSupplied(s, actions[..|actions| - 1], t.rq.records)
    requires var a := actions[|actions| - 1];
      if a.DeliverRequest? then RecordsResult(t.rq, u.rq, a.result) else u.rq.records == t.rq.records
    ensures Supplied(s, actions, u.rq.records[j])
  {
    hide Legal, Run, Supplies;
    var n := |actions| - 1;
    if j < |t.rq.records| {
      assert u.rq.records[j] == t.rq.records[j];
      assert Supplied(s, actions[..n], t.rq.records[j]);
      if IsAtomicOp(t.rq.records[j].op) {
        var i :| Supplies(s, actions[..n], i, t.rq.records[j].psn, t.rq.records[j].result);
        SuppliesStill(s, actions, i, t.rq.records[j].psn, t.rq.records[j].result);
      }
    } else if IsAtomicOp(u.rq.records[j].op) {
      SuppliesLast(s, actions, u.rq.records[j]);
    }
  }

  lemma SuppliesLast(s: System, actions: seq<Action>, slot: Slot)
    requires Legal(s, actions) && actions != [] && Legal(s, actions[..|actions| - 1])
    requires var n := |actions| - 1;
      && actions[n].DeliverRequest? && slot.result == actions[n].result
      && Run(s, actions[..n]).rq.psn == slot.psn && Run(s, actions).rq.psn == slot.psn + 1
    ensures Supplies(s, actions, |actions| - 1, slot.psn, slot.result)
  {
    hide Legal, Run;
    assert actions[..|actions|] == actions;
  }

  // ---------------------------------------------------------------------------
  // Replies

  /**
    In every run each record of an atomic and each atomic acknowledge carries the value the memory
    operation returned to the delivery that took the responder past its PSN.
   */
  lemma ResultsAreFromMemory(s: System, actions: seq<Action>)
    requires Start(s) && Legal(s, actions)
    ensures var t := Run(s, actions);
      && (forall j :: 0 <= j < |t.rq.records| ==> Supplied(s, actions, t.rq.records[j]))
      && (forall n :: 0 <= n < |t.responses| && t.responses[n].kind == AtomicKind ==>
            exists i :: Supplies(s, actions, i, t.responses[n].psn, t.responses[n].result))
  {
    hide Legal, Run, Supplies, SendQueueInvariant.Inv, ResponderOk, AllGenuine, ProtocolResponses.Covered;
    StartSafe(s);
    RunSafe(s, actions);
    RecordsSupplied(s, actions);
    var t := Run(s, actions);
    forall n | 0 <= n < |t.responses| && t.responses[n].kind == AtomicKind
      ensures exists i :: Supplies(s, actions, i, t.responses[n].psn, t.responses[n].result)
    {
      var p, r := PastOf(t.rq, t.sq.plan, t.done), t.responses[n];
      assert ResponseTrue(p, r);
      var j :| 0 <= j < |p.records| && p.records[j].op in {CompareSwap, FetchAdd} && p.records[j].psn == r.psn && p.records[j].result == r.result && r.psn < p.psn;
      assert Supplied(s, actions, t.rq.records[j]);
    }
  }

  lemma PsnStep(s: System, actions: seq<Action>, i: nat)
    requires Start(s) && Legal(s, actions) && i < |actions|
    ensures PsnAfter(s, actions, i) <= PsnAfter(s, actions, i + 1)
  {
    hide Legal, Run, Safe;
    LegalUpTo(s, actions, i + 1);
    RunLast(s, actions[..i + 1]);
    assert actions[..i + 1][..i] == actions[..i];
    StartSafe(s);
    RunSafe(s, actions[..i]);
    StepPsn(Run(s, actions[..i]), actions[i]);
  }

  lemma StepPsn(t: System, a: Action)
    requires Safe(t) && Enabled(t, a)
    ensures t.rq.psn <= Step(t, a).rq.psn
  {
    hide Safe, ReceiveRequest, Generate, PostSend, Modify, Schedule, Prepare, RdItems, ReceiveResponse, InWindow;
    if a.DeliverRequest? {
      AckProgress.PsnGrows(t, a.index, a.memory, a.result);
    } else if a.RunResponder? {
      AckProgress.GenerateSamePsn(t.rq, a.memOk);
    }
  }

  lemma {:induction false} PsnMonotone(s: System, actions: seq<Action>, i: nat, j: nat)
    requires Start(s) && Legal(s, actions) && i <= j <= |actions|
    ensures PsnAfter(s, actions, i) <= PsnAfter(s, actions, j)
    decreases j
  {
    hide Legal, PsnAfter;
    if i < j {
      PsnMonotone(s, actions, i, j - 1);
      PsnStep(s, actions, j - 1);
    }
  }

  /** There is one such delivery for a PSN. */
  lemma SuppliedOnce(s: System, actions: seq<Action>, i: nat, j: nat, psn: int, a: int, b: int)
    requires Start(s) && Legal(s, actions) && Supplies(s, actions, i, psn, a) && Supplies(s, actions, j, psn, b)
    ensures i == j && a == b
  {
    hide Legal, PsnAfter;
    if i < j {
      PsnMonotone(s, actions, i + 1, j);
    } else if j < i {
      PsnMonotone(s, actions, j + 1, i);
    }
  }
}
