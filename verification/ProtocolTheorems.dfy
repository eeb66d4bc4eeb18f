/**
  What the two parties guarantee in every run over a channel that loses, repeats and reorders
  packets within their lifetime.
 */
module ProtocolTheorems {
  import opened OpCode
  import opened WorkRequest
  import opened SendQueue
  import SQI = SendQueueInvariant
  import opened ReceiveQueue
  import opened ReceiveQueueInvariant
  import opened Protocol
  import opened ResponderExecution
  import opened SlotSearch
  import opened AckTruth
  import opened ProtocolRequests
  import opened ProtocolResponses
  import opened ProtocolSafety

  lemma SafeRun(s: System, actions: seq<Action>)
    requires Start(s) && Legal(s, actions)
    ensures Safe(Run(s, actions))
  {
    StartSafe(s);
    RunSafe(s, actions);
  }

  lemma {:induction false} MessagesPrefix(plan: seq<Item>, m: nat)
    requires m <= |plan|
    ensures IdealMessages(plan[..m]) <= IdealMessages(plan)
  {
    if m < |plan| {
      MessagesPrefix(plan[..|plan| - 1], m);
      assert plan[..|plan| - 1][..m] == plan[..m];
    } else {
      assert plan[..m] == plan;
    }
  }

  lemma EffectsAreIdeal(r: Rq, plan: seq<Item>, done: nat, part: nat)
    requires Executed(r, plan, done, part)
    ensures r.effects <= IdealEffects(r.attr.mtu, plan)
  {
    hide IdealMessages, RecordsMatch, MidMessage;
    IdealPrefix(r.attr.mtu, plan, done);
    if part > 0 {
      EffectsPrefix(r.attr.mtu, plan[done], part, StepsOf(plan[done]));
      assert plan[..done + 1] == plan[..done] + [plan[done]];
      IdealLast(r.attr.mtu, plan[..done], plan[done]);
      IdealPrefix(r.attr.mtu, plan, done + 1);
    }
    hide IdealEffects, EffectsOf;
  }

  /**
    What the responder has done to memory and to its receive queue is a prefix of what the
    requester's packet stream asks for: nothing skipped, nothing done twice, every byte in
    its place.
   */
  lemma ExactlyOnceInOrder(s: System, actions: seq<Action>)
    requires Start(s) && Legal(s, actions)
    ensures var t := Run(s, actions);
      t.rq.effects <= IdealEffects(t.rq.attr.mtu, t.sq.plan)
  {
    hide SQI.Inv, AllGenuine, AllTrue, Covered, LocalInv, PlanOk, AcksTrue, ReadsAscend, Executed, Run, Legal;
    SafeRun(s, actions);
    var t := Run(s, actions);
    EffectsAreIdeal(t.rq, t.sq.plan, t.done, t.part);
  }

  /** The receiver gets exactly the messages that were sent, whole and in order. */
  lemma MessagesArriveIntact(s: System, actions: seq<Action>)
    requires Start(s) && Legal(s, actions)
    ensures var t := Run(s, actions);
      t.rq.inbox <= IdealMessages(t.sq.plan)
  {
    hide SQI.Inv, AllGenuine, AllTrue, Covered, LocalInv, PlanOk, AcksTrue, ReadsAscend, Run, Legal;
    hide IdealMessages, IdealEffects, EffectsOf, RecordsMatch, MidMessage;
    SafeRun(s, actions);
    var t := Run(s, actions);
    MessagesPrefix(t.sq.plan, t.done);
  }

  /** An item that ends at or before the responder's PSN was executed in full. */
  lemma EndedIsDone(r: Rq, plan: seq<Item>, end: int, done: nat, part: nat, i: nat)
    requires PlanOk(r.attr.mtu, plan, r.attr.origin, end) && Executed(r, plan, done, part)
    requires i < |plan| && plan[i].End() <= r.psn
    ensures i < done
  {
    hide IdealEffects, EffectsOf, IdealMessages, RecordsMatch;
    if done <= i {
      StartsAtBase(r.attr.mtu, plan, r.attr.origin, end, done);
      if done < i {
        PlanOrdered(r.attr.mtu, plan, r.attr.origin, end, done, i);
        StartsAtBase(r.attr.mtu, plan, r.attr.origin, end, i);
      }
    }
  }

  lemma DoneInEffects(r: Rq, plan: seq<Item>, done: nat, part: nat, i: nat)
    requires Executed(r, plan, done, part) && i < done
    ensures IdealEffects(r.attr.mtu, plan[..i + 1]) <= r.effects
  {
    hide IdealMessages, RecordsMatch, MidMessage, EffectsOf;
    IdealPrefix(r.attr.mtu, plan[..done], i + 1);
    assert plan[..done][..i + 1] == plan[..i + 1];
  }

  lemma RetiredIsPlanned(s: Sq, i: nat)
    requires SQI.Inv(s) && i < |s.retired| && i < |s.plan|
    ensures s.plan[i].wr == s.retired[i].wr
  {
    hide SQI.Counted, SQI.FlightOk, SQI.SubmittedOk, SQI.RdCounted, SQI.Fenced, SQI.PlanTiled, Reports;
    assert SQI.RetiredWrs(s.retired)[i] == s.retired[i].wr;
    assert s.accepted[i] == SQI.RetiredWrs(s.retired)[i];
  }

  /**
    A work request completes with success only if the responder has executed every packet of
    it and of everything posted before it.
   */
  lemma SuccessMeansExecuted(s: System, actions: seq<Action>, i: nat)
    requires Start(s) && Legal(s, actions)
    requires i < |Run(s, actions).sq.retired| && Run(s, actions).sq.retired[i].status == Success
    ensures var t := Run(s, actions);
      && i < |t.sq.plan|
      && t.sq.plan[i].wr == t.sq.retired[i].wr
      && t.sq.plan[i].End() <= t.rq.psn
      && IdealEffects(t.rq.attr.mtu, t.sq.plan[..i + 1]) <= t.rq.effects
  {
    hide SQI.Inv, AllGenuine, AllTrue, LocalInv, PlanOk, AcksTrue, ReadsAscend, Executed, Run, Legal;
    SafeRun(s, actions);
    var t := Run(s, actions);
    RetiredIsPlanned(t.sq, i);
    EndedIsDone(t.rq, t.sq.plan, t.sq.expectedPsn, t.done, t.part, i);
    DoneInEffects(t.rq, t.sq.plan, t.done, t.part, i);
  }

  /** Every ACK-coded acknowledge, scheduled or sent, names a PSN the responder has executed. */
  lemma AcknowledgesAreBehind(s: System, actions: seq<Action>)
    requires Start(s) && Legal(s, actions)
    ensures var t := Run(s, actions);
      && (forall a :: a in t.rq.acks && a.NormalAck? && SyndromeClass(a.syndrome) == SYND_ACK ==> a.psn < t.rq.psn)
      && (forall a :: a in t.responses && SyndromeClass(a.syndrome) == SYND_ACK ==> a.psn < t.rq.psn)
  {
    hide SQI.Inv, AllGenuine, Covered, LocalInv, PlanOk, ReadsAscend, Executed, Run, Legal, SyndromeClass;
    SafeRun(s, actions);
    var t := Run(s, actions);
    var past := PastOf(t.rq, t.sq.plan, t.done);
    forall a | a in t.rq.acks && a.NormalAck? && SyndromeClass(a.syndrome) == SYND_ACK ensures a.psn < t.rq.psn {
      assert AckTrue(past, a);
    }
    forall a | a in t.responses && SyndromeClass(a.syndrome) == SYND_ACK ensures a.psn < t.rq.psn {
      TrueDispatch(past, a);
    }
  }

  /** No NAK other than RNR and PSN sequence error is ever sent: fatal ones are flushed with the queue pair. */
  lemma NoFatalNakIsSent(s: System, actions: seq<Action>)
    requires Start(s) && Legal(s, actions)
    ensures forall a :: a in Run(s, actions).responses ==> Retryable(a.syndrome)
  {
    hide SQI.Inv, AllGenuine, Covered, ResponderOk, Run, Legal, SyndromeClass, AtomicDone, PieceOf;
    SafeRun(s, actions);
    AckCodes();
    var t := Run(s, actions);
    forall a | a in t.responses ensures Retryable(a.syndrome) {
      assert ResponseTrue(PastOf(t.rq, t.sq.plan, t.done), a);
    }
  }

  /** nr_rd_atomic counts the queued replies, and queued RDMA READ replies ascend without overlap. */
  lemma AcknowledgeQueueOrdered(s: System, actions: seq<Action>)
    requires Start(s) && Legal(s, actions)
    ensures var r := Run(s, actions).rq;
      && r.nrRdAtomic == CountReplies(r.acks)
      && (forall i, j :: 0 <= i < j < |r.acks| && r.acks[i].ReadAck? && r.acks[j].ReadAck? ==>
            r.acks[i].psn < r.acks[i].expected <= r.acks[j].psn < r.acks[j].expected)
  {
    hide SQI.Inv, AllGenuine, Covered, AllTrue, PlanOk, Executed, Run, Legal, RingOk, NoFatalNak;
    SafeRun(s, actions);
    var r := Run(s, actions).rq;
    forall i | 0 <= i < |r.acks| && r.acks[i].ReadAck? ensures r.acks[i].psn < r.acks[i].expected {
      assert AckTrue(PastOf(r, Run(s, actions).sq.plan, Run(s, actions).done), r.acks[i]);
    }
  }

  predicate IsReadResponse(r: Response) {
    r.kind !in {AckKind, AtomicKind}
  }

  /** A PSN lies in the range of one item only. */
  lemma OwnerUnique(mtu: Mtu, plan: seq<Item>, origin: int, end: int, i: nat, j: nat, psn: int)
    requires PlanOk(mtu, plan, origin, end) && i < |plan| && j < |plan|
    requires plan[i].base <= psn < plan[i].End() && plan[j].base <= psn < plan[j].End()
    ensures i == j
  {
    if i < j {
      PlanOrdered(mtu, plan, origin, end, i, j);
      StartsAtBase(mtu, plan, origin, end, j);
    } else if j < i {
      PlanOrdered(mtu, plan, origin, end, j, i);
      StartsAtBase(mtu, plan, origin, end, i);
    }
  }

  lemma PieceOwner(t: System, a: Response) returns (i: nat)
    requires Safe(t) && a in t.responses && IsReadResponse(a)
    ensures i < |t.sq.plan| && PieceOf(t.rq.attr.mtu, t.sq.plan[i], a)
  {
    hide SQI.Inv, AllGenuine, Covered, ResponderOk, PieceOf;
    var past := PastOf(t.rq, t.sq.plan, t.done);
    assert ResponseTrue(past, a);
    i :| 0 <= i < |past.items| && PieceOf(past.mtu, past.items[i], a);
  }

  /**
    Two RDMA READ responses with the same PSN carry the same remote bytes, whether they answer
    the original request or any partial retry, and those bytes are the ones the PSN stands for.
   */
  lemma DuplicateReadResponsesAgree(s: System, actions: seq<Action>, a: Response, b: Response)
    requires Start(s) && Legal(s, actions)
    requires a in Run(s, actions).responses && b in Run(s, actions).responses
    requires IsReadResponse(a) && IsReadResponse(b) && a.psn == b.psn
    ensures (a.rkey, a.vaddr, a.length) == (b.rkey, b.vaddr, b.length)
    ensures exists i :: 0 <= i < |Run(s, actions).sq.plan|
                        && PieceOf(Run(s, actions).rq.attr.mtu, Run(s, actions).sq.plan[i], a)
  {
    hide SQI.Inv, AllGenuine, Covered, AllTrue, Executed, LocalInv, AcksTrue, ReadsAscend, PlanOk, Run, Legal;
    SafeRun(s, actions);
    var t := Run(s, actions);
    var i := PieceOwner(t, a);
    var j := PieceOwner(t, b);
    OwnerUnique(t.rq.attr.mtu, t.sq.plan, t.rq.attr.origin, t.sq.expectedPsn, i, j, a.psn);
  }

  /** Each RDMA READ or atomic was recorded once, under its own PSN. */
  lemma RecordsDistinct(r: Rq, plan: seq<Item>, end: int, done: nat, part: nat, i: nat, j: nat)
    requires ResponderOk(r, plan, end, done, part) && i < j < |r.records|
    ensures r.records[i].psn < r.records[j].psn
  {
    hide LocalInv, AcksTrue, ReadsAscend, IdealEffects, EffectsOf, IdealMessages, MidMessage;
    var x := RdWhere(plan, done, i);
    var y := RdWhere(plan, done, j);
    assert RecordOf(RdItems(plan[..done])[i], r.records[i]);
    assert RecordOf(RdItems(plan[..done])[j], r.records[j]);
    if y <= x {
      RdPrefix(plan, y, x);
    }
    PlanOrdered(r.attr.mtu, plan, r.attr.origin, end, x, y);
    StartsAtBase(r.attr.mtu, plan, r.attr.origin, end, y);
  }

  /** In every run the RDMA READs and atomics were recorded once each, under ascending PSNs. */
  lemma RecordsAscend(s: System, actions: seq<Action>, i: nat, j: nat)
    requires Start(s) && Legal(s, actions) && i < j < |Run(s, actions).rq.records|
    ensures Run(s, actions).rq.records[i].psn < Run(s, actions).rq.records[j].psn
  {
    hide SQI.Inv, AllGenuine, Covered, Executed, LocalInv, AcksTrue, ReadsAscend, PlanOk, Run, Legal, AllTrue;
    SafeRun(s, actions);
    var t := Run(s, actions);
    RecordsDistinct(t.rq, t.sq.plan, t.sq.expectedPsn, t.done, t.part, i, j);
  }

  /**
    Every atomic acknowledge carries the result of the one record there is for its PSN.
   */
  lemma AtomicsReplayTheirResult(s: System, actions: seq<Action>, a: Response)
    requires Start(s) && Legal(s, actions)
    requires a in Run(s, actions).responses && a.kind == AtomicKind
    ensures var r := Run(s, actions).rq;
      exists j :: 0 <= j < |r.records| && r.records[j].op in {CompareSwap, FetchAdd} && r.records[j].result == a.result
                  && forall k :: 0 <= k < |r.records| ==> (r.records[k].psn == a.psn <==> k == j)
  {
    hide SQI.Inv, AllGenuine, Covered, Executed, LocalInv, AcksTrue, ReadsAscend, PlanOk, Run, Legal;
    SafeRun(s, actions);
    var t := Run(s, actions);
    var past := PastOf(t.rq, t.sq.plan, t.done);
    assert ResponseTrue(past, a);
    var j :| 0 <= j < |past.records| && past.records[j].op in {CompareSwap, FetchAdd}
             && past.records[j].psn == a.psn && past.records[j].result == a.result;
    forall k | 0 <= k < |t.rq.records| ensures t.rq.records[k].psn == a.psn <==> k == j {
      if k < j {
        RecordsDistinct(t.rq, t.sq.plan, t.sq.expectedPsn, t.done, t.part, k, j);
      } else if j < k {
        RecordsDistinct(t.rq, t.sq.plan, t.sq.expectedPsn, t.done, t.part, j, k);
      }
    }
  }
}
