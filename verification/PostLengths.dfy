/**
  The length pib_post_send records for each request of a chain.

  The byte count is set to zero once, before the loop over the chain, and not again for each
  request.  A request in a chain is therefore recorded with the bytes of the requests before
  it added to its own.
 */
module PostLengths {
  import opened WorkRequest
  import opened SendQueue

  /** The bytes a request asks to transfer. */
  function OwnLength(wr: Wr): nat {
    if IsAtomic(wr.opcode) then 8 else |wr.data|
  }

  /** The running count when request `i` of the chain is reached. */
  function CarryBefore(wrs: seq<Wr>, i: nat): nat
    requires i <= |wrs|
  {
    if i == 0 then 0 else RecordedLength(wrs[i - 1], CarryBefore(wrs, i - 1))
  }

  function RecordedChain(wrs: seq<Wr>, from: nat, carry: nat): seq<Wr>
    requires from <= |wrs|
    decreases |wrs| - from
  {
    if from == |wrs| then []
    else
      var length := RecordedLength(wrs[from], carry);
      [wrs[from].(length := length)] + RecordedChain(wrs, from + 1, length)
  }

  lemma {:induction false} RecordedAt(wrs: seq<Wr>, from: nat, i: nat)
    requires from <= i < |wrs|
    ensures var chain := RecordedChain(wrs, from, CarryBefore(wrs, from));
      && |chain| == |wrs| - from
      && chain[i - from] == wrs[i].(length := RecordedLength(wrs[i], CarryBefore(wrs, i)))
    decreases |wrs| - from
  {
    RecordedSize(wrs, from, CarryBefore(wrs, from));
    if from < i {
      RecordedAt(wrs, from + 1, i);
    }
  }

  lemma {:induction false} RecordedSize(wrs: seq<Wr>, from: nat, carry: nat)
    requires from <= |wrs|
    ensures |RecordedChain(wrs, from, carry)| == |wrs| - from
    decreases |wrs| - from
  {
    if from < |wrs| {
      RecordedSize(wrs, from + 1, RecordedLength(wrs[from], carry));
    }
  }

  lemma {:induction false} PostRecords(s: Sq, wrs: seq<Wr>, from: nat, carry: nat)
    requires from <= |wrs| && s.state in {RTR, RTS, SQD}
    requires PostChain(s, wrs[from..], carry).1 == Posted
    ensures PostChain(s, wrs[from..], carry).0.accepted == s.accepted + RecordedChain(wrs, from, carry)
    decreases |wrs| - from
  {
    if from < |wrs| {
      assert wrs[from..][0] == wrs[from] && wrs[from..][1..] == wrs[from + 1..];
      var (s', carry', r) := PostOne(s, wrs[from], carry);
      PostRecords(s', wrs, from + 1, carry');
    } else {
      assert wrs[from..] == [];
    }
  }

  /** A chain taken whole: request `i` is recorded with the running count added to its length. */
  lemma ChainRecords(s: Sq, wrs: seq<Wr>)
    requires s.state in {RTR, RTS, SQD} && PostSend(s, wrs).1 == Posted
    ensures PostSend(s, wrs).0.accepted == s.accepted + RecordedChain(wrs, 0, 0)
    ensures |RecordedChain(wrs, 0, 0)| == |wrs|
    ensures forall i :: 0 <= i < |wrs| ==>
      RecordedChain(wrs, 0, 0)[i] == wrs[i].(length := RecordedLength(wrs[i], CarryBefore(wrs, i)))
  {
    assert wrs[0..] == wrs;
    PostRecords(s, wrs, 0, 0);
    RecordedSize(wrs, 0, 0);
    forall i | 0 <= i < |wrs|
      ensures RecordedChain(wrs, 0, 0)[i] == wrs[i].(length := RecordedLength(wrs[i], CarryBefore(wrs, i)))
    {
      RecordedAt(wrs, 0, i);
    }
  }

  lemma {:induction false} CarryZero(wrs: seq<Wr>, i: nat)
    requires i <= |wrs|
    ensures CarryBefore(wrs, i) == 0 <==> forall j :: 0 <= j < i ==> OwnLength(wrs[j]) == 0
  {
    if i > 0 {
      CarryZero(wrs, i - 1);
    }
  }

  /**
    Every request of a chain is recorded with its own length if and only if each request that
    is not an atomic follows only requests of length zero.
   */
  lemma LengthsExactIff(s: Sq, wrs: seq<Wr>)
    requires s.state in {RTR, RTS, SQD} && PostSend(s, wrs).1 == Posted
    ensures |PostSend(s, wrs).0.accepted| == |s.accepted| + |wrs|
    ensures (forall i :: 0 <= i < |wrs| ==> PostSend(s, wrs).0.accepted[|s.accepted| + i].length == OwnLength(wrs[i]))
       <==> (forall i, j :: 0 <= j < i < |wrs| && !IsAtomic(wrs[i].opcode) ==> OwnLength(wrs[j]) == 0)
  {
    ChainRecords(s, wrs);
    hide PostChain, RecordedChain;
    var t := PostSend(s, wrs).0;
    forall i | 0 <= i < |wrs|
      ensures t.accepted[|s.accepted| + i].length == OwnLength(wrs[i])
         <==> (IsAtomic(wrs[i].opcode) || forall j :: 0 <= j < i ==> OwnLength(wrs[j]) == 0)
    {
      CarryZero(wrs, i);
      assert t.accepted[|s.accepted| + i] == RecordedChain(wrs, 0, 0)[i];
    }
  }

  /** Two one-byte SENDs posted as a chain: the second is recorded as two bytes long. */
  lemma SecondSendTooLong(s: Sq, wr: Wr)
    requires s.state == RTS && s.free >= 2 && 1 <= wr.numSge <= s.attr.maxSge
    requires wr.opcode == WrSend && |wr.data| == 1 && !wr.inlined
    ensures PostSend(s, [wr, wr]).1 == Posted
    ensures PostSend(s, [wr, wr]).0.accepted == s.accepted + [wr.(length := 1), wr.(length := 2)]
  {
    var (s1, c1, r1) := PostOne(s, wr, 0);
    var (s2, c2, r2) := PostOne(s1, wr, c1);
    assert [wr, wr][1..] == [wr] && [wr][1..] == [];
    assert PostChain(s2, [], c2) == (s2, Posted);
    assert PostChain(s1, [wr], c1) == (s2, Posted);
    assert PostChain(s, [wr, wr], 0) == PostChain(s1, [wr], c1);
    assert s2.accepted == s.accepted + [wr.(length := 1), wr.(length := 2)];
  }
}
