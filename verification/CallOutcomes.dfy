/**
  What the calls into the send queue do: how far a posted chain is taken, what a move to the error
  state gives back, and which completions the caller gets to see.
 */
module CallOutcomes {
  import opened WorkRequest
  import opened SendQueue
  import opened SendQueueInvariant
  import SendQueueRuns

  // ---------------------------------------------------------------------------
  // Posting a chain

  /** Why a request of `bytes` bytes is refused with `free` entries left, if it is. */
  function Refusal(attr: Attr, free: int, wr: Wr, bytes: nat): Option<PostResult> {
    if !(1 <= wr.numSge <= attr.maxSge) then Some(EINVAL)
    else if free == 0 then Some(ENOMEM)
    else if bytes > MAX_PAYLOAD_LEN then Some(EMSGSIZE)
    else if wr.inlined && (IsSend(wr.opcode) || IsWrite(wr.opcode)) && 0 < bytes <= attr.maxInline && wr.copyFaults then Some(EFAULT)
    else None
  }

  /** The bytes request `i` of a chain is recorded with: its own and those counted before. */
  function Bytes(wrs: seq<Wr>, i: nat, carry: nat): nat
    requires i < |wrs|
  {
    if IsAtomic(wrs[i].opcode) then 8
    else |wrs[i].data| + if i == 0 then carry else Bytes(wrs, i - 1, carry)
  }

  lemma {:induction false} BytesRest(wrs: seq<Wr>, i: nat, carry: nat)
    requires 0 < i < |wrs|
    ensures Bytes(wrs, i, carry) == Bytes(wrs[1..], i - 1, Bytes(wrs, 0, carry))
  {
    assert wrs[1..][i - 1] == wrs[i];
    if i > 1 {
      BytesRest(wrs, i - 1, carry);
    }
  }

  /** The first `n` requests of the chain are queued behind what was submitted, and nothing else changed. */
  ghost predicate TakenFirst(s: Sq, wrs: seq<Wr>, carry: nat, n: nat, t: Sq) {
    && n <= |wrs| && t.state == s.state && t.attr == s.attr && t.waiting == s.waiting && t.sending == s.sending
    && t.retired == s.retired && t.plan == s.plan && t.free == s.free - n
    && |t.submitted| == |s.submitted| + n && t.submitted[..|s.submitted|] == s.submitted
    && forall i :: 0 <= i < n ==> t.submitted[|s.submitted| + i] == FreshEntry(wrs[i].(length := Bytes(wrs, i, carry)))
  }

  lemma TakeOne(s: Sq, wr: Wr, carry: nat)
    requires s.state in {RTR, RTS, SQD}
    ensures var (t, bytes, result) := PostOne(s, wr, carry);
      var refusal := Refusal(s.attr, s.free, wr, Bytes([wr], 0, carry));
      && (result == Posted <==> refusal == None) && (refusal.Some? ==> result == refusal.value && t == s)
      && (result == Posted ==> TakenFirst(s, [wr], carry, 1, t) && bytes == Bytes([wr], 0, carry))
  {
  }

  /**
    A chain is taken up to the first request that is refused, and the result says why.  Each request is
    refused or taken by its own fields, the entries left and the running byte count.
   */
  lemma {:induction false} ChainStopsAtRefusal(s: Sq, wrs: seq<Wr>, carry: nat) returns (n: nat)
    requires s.state in {RTR, RTS, SQD}
    ensures var (t, result) := PostChain(s, wrs, carry);
      && TakenFirst(s, wrs, carry, n, t)
      && (forall i :: 0 <= i < n ==> Refusal(s.attr, s.free - i, wrs[i], Bytes(wrs, i, carry)) == None)
      && (if n == |wrs| then result == Posted else Refusal(s.attr, s.free - n, wrs[n], Bytes(wrs, n, carry)) == Some(result))
    decreases |wrs|
  {
    hide PostOne, Refusal;
    n := 0;
    if wrs != [] {
      var (s1, bytes, result) := PostOne(s, wrs[0], carry);
      TakeOne(s, wrs[0], carry);
      assert Bytes([wrs[0]], 0, carry) == Bytes(wrs, 0, carry);
      if result == Posted {
        var m := ChainStopsAtRefusal(s1, wrs[1..], bytes);
        n := m + 1;
        forall i | 0 < i < |wrs| ensures wrs[1..][i - 1] == wrs[i] && Bytes(wrs, i, carry) == Bytes(wrs[1..], i - 1, bytes) {
          BytesRest(wrs, i, carry);
        }
      }
    }
  }

  /** In an error state every request of a chain is given back flushed, and the lists stay empty. */
  lemma {:induction false} ErrorFlushesPosts(s: Sq, wrs: seq<Wr>, carry: nat)
    requires s.state in {ERR, SQE}
    ensures var (t, result) := PostChain(s, wrs, carry);
      && result == Posted && t.submitted == s.submitted && t.waiting == s.waiting && t.sending == s.sending && t.state == s.state
      && |t.retired| == |s.retired| + |wrs| && t.retired[..|s.retired|] == s.retired
      && forall i :: 0 <= i < |wrs| ==> t.retired[|s.retired| + i] == Retired(wrs[i], WrFlushErr)
    decreases |wrs|
  {
    hide Reports;
    if wrs != [] {
      var (s1, bytes, result) := PostOne(s, wrs[0], carry);
      assert s1.retired == s.retired + [Retired(wrs[0], WrFlushErr)];
      ErrorFlushesPosts(s1, wrs[1..], bytes);
      var t := PostChain(s, wrs, carry).0;
      assert t.retired[|s.retired|] == s1.retired[|s.retired|] by { assert t.retired[..|s1.retired|] == s1.retired; }
      assert t.retired[..|s.retired|] == s1.retired[..|s.retired|];
      forall i | 0 < i < |wrs| ensures t.retired[|s.retired| + i] == Retired(wrs[i], WrFlushErr) {
        assert t.retired[|s1.retired| + (i - 1)] == Retired(wrs[1..][i - 1], WrFlushErr);
      }
    }
  }

  // ---------------------------------------------------------------------------
  // Moving to the error state

  /** Moving a working queue pair to ERR gives back everything it holds, flushed, in order. */
  lemma ModifyFlushes(s: Sq)
    requires s.state !in {ERR, SQE}
    ensures var t := Modify(s, ERR);
      var all := s.waiting + s.sending + s.submitted;
      && t.state == ERR && t.waiting == [] && t.sending == [] && t.submitted == []
      && |t.retired| == |s.retired| + |all| && t.retired[..|s.retired|] == s.retired
      && forall i :: 0 <= i < |all| ==> t.retired[|s.retired| + i] == Retired(all[i].wr, WrFlushErr)
  {
    hide Reports;
  }

  /** A queue pair that is draining cannot go back to sending while requests are in flight. */
  lemma DrainsFirst(s: Sq)
    requires s.state == SQD && Flight(s) != []
    ensures Modify(s, RTS) == s
  {
  }

  /** Any other move goes through, and one to RTS with requests pending lets sending start anew. */
  lemma ModifyMoves(s: Sq, target: QpState)
    requires Inv(s) && s.state !in {ERR, SQE} && target in {RTR, RTS, SQD} && !(s.state == SQD && target in {RTS, SQD} && Flight(s) != [])
    ensures var t := Modify(s, target);
      && t.state == target && t.waiting == s.waiting && t.sending == s.sending && t.submitted == s.submitted && t.retired == s.retired
      && (target == RTS && s.waiting + s.sending + s.submitted != [] ==> t.nrContig == 0 && t.nrContigReads == 0)
  {
    hide Conserved, FlightOk, SubmittedOk, RdCounted, Fenced, Planned, PlanTiled;
  }

  // ---------------------------------------------------------------------------
  // Completions

  /** The caller is to see that this request was given back. */
  predicate Reportable(attr: Attr, r: Retired) {
    r.status != Success || attr.signalAll || r.wr.signaled
  }

  /** How many completions the first `i` requests given back have made. */
  function Place(attr: Attr, recs: seq<Retired>, i: nat): nat
    requires i <= |recs|
  {
    |Reports(attr, recs[..i])|
  }

  lemma {:induction false} ReportsUpTo(attr: Attr, recs: seq<Retired>, i: nat, j: nat)
    requires i <= j <= |recs|
    ensures Reports(attr, recs[..i]) <= Reports(attr, recs[..j])
    decreases j
  {
    if i < j {
      ReportsUpTo(attr, recs, i, j - 1);
      assert recs[..j][..j - 1] == recs[..j - 1];
    }
  }

  lemma ReportsNext(attr: Attr, recs: seq<Retired>, i: nat)
    requires i < |recs|
    ensures Reports(attr, recs[..i + 1]) ==
      Reports(attr, recs[..i]) + if Reportable(attr, recs[i]) then [Wc(recs[i].wr.id, recs[i].status)] else []
  {
    assert recs[..i + 1][..i] == recs[..i] && recs[..i + 1][i] == recs[i];
  }

  lemma ReportedAt(attr: Attr, recs: seq<Retired>, i: nat)
    requires i < |recs|
    ensures Place(attr, recs, i + 1) == Place(attr, recs, i) + if Reportable(attr, recs[i]) then 1 else 0
    ensures Reportable(attr, recs[i]) ==>
      Place(attr, recs, i) < |Reports(attr, recs)| && Reports(attr, recs)[Place(attr, recs, i)] == Wc(recs[i].wr.id, recs[i].status)
  {
    hide Reports;
    ReportsUpTo(attr, recs, i + 1, |recs|);
    ReportsNext(attr, recs, i);
    assert recs[..|recs|] == recs;
  }

  /** Every completion is that of some request. */
  lemma {:induction false} ReportedFrom(attr: Attr, recs: seq<Retired>, m: nat, n: nat) returns (i: nat)
    requires m <= |recs| && n < Place(attr, recs, m)
    ensures i < m && Reportable(attr, recs[i]) && Place(attr, recs, i) == n
  {
    if m == 0 {
      assert false;
    }
    ReportedAt(attr, recs, m - 1);
    if n < Place(attr, recs, m - 1) {
      i := ReportedFrom(attr, recs, m - 1, n);
    } else {
      i := m - 1;
    }
  }

  ghost predicate MadeBySome(attr: Attr, recs: seq<Retired>, n: int) {
    exists i :: 0 <= i < |recs| && Reportable(attr, recs[i]) && Place(attr, recs, i) == n
  }

  /**
    In every run the completion queue got, in the order the requests were given back, exactly one
    completion for each that failed, asked to be signalled or belongs to a queue pair that signals all.
   */
  lemma CompletionsExact(attr: Attr, actions: seq<SendQueueRuns.Action>)
    ensures var s := SendQueueRuns.Run(SendQueueRuns.Fresh(attr), actions);
      && (forall i :: 0 <= i < |s.retired| && Reportable(attr, s.retired[i]) ==>
            var n := Place(attr, s.retired, i);
            n < |s.cq| && s.cq[n] == Wc(s.retired[i].wr.id, s.retired[i].status))
      && (forall i, j :: 0 <= i < j < |s.retired| && Reportable(attr, s.retired[i]) ==> Place(attr, s.retired, i) < Place(attr, s.retired, j))
      && (forall n :: 0 <= n < |s.cq| ==> MadeBySome(attr, s.retired, n))
  {
    hide SendQueueRuns.Run, Reports, Reportable;
    SendQueueRuns.RequestsConserved(attr, actions);
    var s := SendQueueRuns.Run(SendQueueRuns.Fresh(attr), actions);
    forall i | 0 <= i < |s.retired| && Reportable(attr, s.retired[i])
      ensures Place(attr, s.retired, i) < |s.cq| && s.cq[Place(attr, s.retired, i)] == Wc(s.retired[i].wr.id, s.retired[i].status)
    {
      ReportedAt(attr, s.retired, i);
    }
    forall i, j | 0 <= i < j < |s.retired| && Reportable(attr, s.retired[i]) ensures Place(attr, s.retired, i) < Place(attr, s.retired, j) {
      ReportedAt(attr, s.retired, i);
      ReportsUpTo(attr, s.retired, i + 1, j);
    }
    assert s.retired[..|s.retired|] == s.retired;
    forall n | 0 <= n < |s.cq| ensures MadeBySome(attr, s.retired, n) {
      var i := ReportedFrom(attr, s.retired, |s.retired|, n);
    }
  }
}
