/**
  What becomes of a connection when everything on its way is lost: the requests in flight are sent
  again, answered and retired if the requester may send at all, and stay where they are for ever if
  it has reached its limit of packets in a row.
 */
module Recovery {
  import opened Jiffies
  import opened WorkRequest
  import opened SendQueue
  import SQI = SendQueueInvariant
  import opened ReceiveQueue
  import opened Protocol
  import opened ProtocolRequests
  import opened ProtocolSafety
  import opened AckProgress
  import LossFree
  import opened RetryRound

  // ---------------------------------------------------------------------------
  // Round after round

  /** What a round gains when none is waiting: a request done, a packet more of the first one, or the two ends in step. */
  ghost predicate Gains(s: System, t: System, m: nat, refused: bool) {
    && (refused ==> m == 0 && InStep(t))
    && (s.sq.waiting == [] && s.sq.sending != [] && !refused ==>
          m == 1 || (m == 0 && t.sq.sending != [] && t.sq.sending[0].sent == s.sq.sending[0].sent + 1))
    && (s.sq.waiting == [] && InStep(s) ==> !refused && InStep(t))
  }

  lemma FirstInStep(s: System, now: int)
    requires Working(s, now) && s.sq.waiting == [] && s.sq.sending != [] && InStep(s)
    ensures s.sq.sending[0].base + s.sq.sending[0].sent <= s.rq.psn
  {
    hide Truthful;
    HeadReached(s);
    Sound(s);
    hide SQI.Counted, SQI.Conserved, SQI.RdCounted, SQI.Fenced, SQI.SubmittedOk, SQI.Planned, SQI.PlanTiled, ResponderOk;
    assert Flight(s.sq)[0] == s.sq.sending[0];
  }

  /** A packet taken from two ends in step leaves them in step. */
  lemma StaysInStep(s: System, s1: System, t: System, now: int, k: nat)
    requires s.sq.waiting == [] && InStep(s) && RoundEnds(s, s1, t, now, 0, k) && Flight(s1.sq)[0].base + k <= s.rq.psn
    requires SameRequests(Flight(s.sq), Flight(s1.sq))
    requires forall j :: 0 < j < |Flight(s1.sq)| ==> Flight(s1.sq)[j] == Flight(s.sq)[j]
    ensures InStep(t)
  {
    hide Working, RetiredBy;
    var f, m := Flight(s1.sq), DoneBy(Flight(s1.sq), 0, k);
    assert Flight(s.sq) == s.sq.sending;
    forall j | 0 <= j < |t.sq.sending| ensures t.sq.sending[j].sent <= 0 || t.sq.sending[j].base + t.sq.sending[j].sent <= t.rq.psn {
      assert t.sq.sending[j].base == f[m + j].base && t.sq.sending[j].sent == f[m + j].sent;
      if m + j > 0 {
        assert f[m + j] == s.sq.sending[m + j];
      }
    }
  }

  lemma Progress(s: System, now: int) returns (m: nat, refused: bool)
    requires Working(s, now) && SomethingToSend(s.sq, now) && s.sq.nrContig <= MAX_CONTIG_REQUESTS
    ensures Legal(s, RoundOf(|s.requests|, |s.responses|, now))
    ensures var t := Run(s, RoundOf(|s.requests|, |s.responses|, now));
      Working(t, now) && RoundLater(s, t, m) && Gains(s, t, m, refused)
  {
    hide Working, Transmitted, Legal, Run, RoundOf, Trimmed, InStep, SameSent, Schedule, Prepare, SameRequests, AllSendable, RoundLater, PacketOf;
    var i, k := RoundPlayed(s, now);
    var s1, t := Transmitted(s, now, Success), Run(s, RoundOf(|s.requests|, |s.responses|, now));
    refused := Flight(s1.sq)[i].base + k > s.rq.psn;
    m := if refused then 0 else DoneBy(Flight(s1.sq), i, k);
    TrimmedLater(s, s1, t, m);
    if s.sq.waiting == [] && InStep(s) {
      SendsFirst(s, s1, now, k);
      StaysInStep(s, s1, t, now, k);
    }
    if s.sq.waiting == [] && !refused {
      SentCount(s1.sq, t.sq, m, k);
    }
  }

  lemma SendsFirst(s: System, s1: System, now: int, k: nat)
    requires Working(s, now) && s.sq.waiting == [] && s.sq.sending != [] && InStep(s) && k == s.sq.sending[0].sent
    requires SameRequests(Flight(s.sq), Flight(s1.sq))
    ensures |Flight(s1.sq)| > 0 && Flight(s1.sq)[0].base + k <= s.rq.psn
  {
    hide Working, InStep;
    FirstInStep(s, now);
    assert ItemOf(Flight(s1.sq)[0]) == ItemOf(s.sq.sending[0]);
  }

  lemma SentCount(q: Sq, t: Sq, m: nat, k: nat)
    requires JustOut(q, 0, k) && m == DoneBy(Flight(q), 0, k) && SameSent(q, t, m)
    ensures m == 1 || (m == 0 && t.sending != [] && t.sending[0].sent == k + 1)
  {
  }

  /** The action delivers nothing sent before request `m` and response `n`, and asks nothing of the caller. */
  predicate Unaided(a: Action, m: nat, n: nat) {
    match a
    case Post(_) => false
    case ModifySender(_) => false
    case DeliverRequest(index, _, _) => m <= index
    case DeliverResponse(number, _, _, _) => n <= number
    case _ => true
  }

  ghost predicate AllUnaided(acts: seq<Action>, m: nat, n: nat) {
    forall i :: 0 <= i < |acts| ==> Unaided(acts[i], m, n)
  }

  /**
    Without any of the packets sent so far, and with no help from the caller, `acts` retires every
    request in flight with success.
   */
  ghost predicate Recovers(s: System, acts: seq<Action>) {
    && Legal(s, acts) && AllUnaided(acts, |s.requests|, |s.responses|)
    && var t := Run(s, acts);
       Flight(t.sq) == [] && t.sq.retired == s.sq.retired + Records(Flight(s.sq), Success)
  }

  lemma RoundUnaided(m: nat, n: nat, now: int)
    ensures AllUnaided(RoundOf(m, n, now), m, n)
  {
    assert RoundOf(m, n, now) == [RunSender(now, Success), AddReceive, DeliverRequest(m, Success, 0), RunResponder(true),
                                  DeliverResponse(n, now, 0, Success)];
  }

  lemma UnaidedJoin(a: seq<Action>, b: seq<Action>, m: nat, n: nat, m': nat, n': nat)
    requires AllUnaided(a, m, n) && AllUnaided(b, m', n') && m <= m' && n <= n'
    ensures AllUnaided(a + b, m, n)
  {
    forall i | 0 <= i < |a + b| ensures Unaided((a + b)[i], m, n) {
      assert i >= |a| ==> (a + b)[i] == b[i - |a|] && Unaided(b[i - |a|], m', n');
    }
  }

  lemma RecordsJoin(s: System, t: System, m: nat)
    requires RoundLater(s, t, m)
    ensures s.sq.retired + Records(Flight(s.sq), Success) == t.sq.retired + Records(Flight(t.sq), Success)
  {
    var f, g := Flight(s.sq), Flight(t.sq);
    assert g == t.sq.sending;
    forall j | 0 <= j < |g| ensures g[j].wr == f[m + j].wr {
      assert ItemOf(g[j]).wr == ItemOf(f[m + j]).wr;
    }
    assert Records(f, Success) == Records(f[..m], Success) + Records(g, Success);
  }

  /** A round and then the rest. */
  lemma RecoversAfter(s: System, now: int, m: nat, rest: seq<Action>)
    requires Legal(s, RoundOf(|s.requests|, |s.responses|, now))
    requires var t := Run(s, RoundOf(|s.requests|, |s.responses|, now)); RoundLater(s, t, m) && Recovers(t, rest)
    ensures Recovers(s, RoundOf(|s.requests|, |s.responses|, now) + rest)
  {
    hide Legal, Run, RoundOf, AllUnaided, Records;
    var round := RoundOf(|s.requests|, |s.responses|, now);
    var t := Run(s, round);
    LossFree.RunJoin(s, round, rest);
    RoundUnaided(|s.requests|, |s.responses|, now);
    UnaidedJoin(round, rest, |s.requests|, |s.responses|, |t.requests|, |t.responses|);
    RecordsJoin(s, t, m);
  }

  lemma SendingLeft(s: System, now: int)
    requires Working(s, now) && s.sq.sending != []
    ensures 0 <= s.sq.sending[0].sent < s.sq.sending[0].all
  {
    hide Truthful;
    Sound(s);
    SQI.HeadSound(s.sq);
    hide SQI.Inv, ResponderOk;
  }

  /** Rounds until nothing is in flight. */
  lemma {:induction false} Resume(s: System, now: int, inStep: bool) returns (acts: seq<Action>)
    requires Working(s, now) && s.sq.waiting == [] && s.sq.nrContig == 0 && (inStep ==> InStep(s))
    ensures Recovers(s, acts)
    decreases if inStep then 0 else 1, |s.sq.sending|, if s.sq.sending == [] then 0 else s.sq.sending[0].all - s.sq.sending[0].sent
  {
    hide Working, InStep, RoundOf, Legal, Run, AllUnaided, Recovers;
    if s.sq.sending == [] {
      acts := [];
      NothingLeft(s);
    } else {
      SendingLeft(s, now);
      var m, refused := Progress(s, now);
      var t := Run(s, RoundOf(|s.requests|, |s.responses|, now));
      if m == 0 && t.sq.sending != [] {
        assert ItemOf(t.sq.sending[0]) == ItemOf(Flight(s.sq)[0]);
      }
      if t.sq.sending != [] {
        SendingLeft(t, now);
      }
      var rest := Resume(t, now, inStep || refused);
      RecoversAfter(s, now, m, rest);
      acts := RoundOf(|s.requests|, |s.responses|, now) + rest;
    }
  }

  lemma NothingLeft(s: System)
    requires Flight(s.sq) == []
    ensures Recovers(s, [])
  {
    assert Records([], Success) == [];
  }

  // ---------------------------------------------------------------------------
  // No recovery past the limit

  /** Nothing was sent, answered or retired between `s` and `t`, and the limit is still reached. */
  ghost predicate Stalled(s: System, t: System) {
    && t.requests == s.requests && t.responses == s.responses && t.rq.acks == []
    && t.sq.nrContig > MAX_CONTIG_REQUESTS && t.sq.retired == s.sq.retired
  }

  lemma StalledStep(s: System, t: System, a: Action)
    requires Stalled(s, t) && Enabled(t, a) && Unaided(a, |s.requests|, |s.responses|)
    ensures Stalled(s, Step(t, a))
  {
    hide NumPackets;
  }

  lemma {:induction false} StaysStalled(s: System, t: System, acts: seq<Action>)
    requires Stalled(s, t) && Legal(t, acts) && AllUnaided(acts, |s.requests|, |s.responses|)
    ensures Stalled(s, Run(t, acts))
    decreases |acts|
  {
    hide Stalled, Step, Enabled, Unaided;
    if acts != [] {
      assert Unaided(acts[0], |s.requests|, |s.responses|);
      StalledStep(s, t, acts[0]);
      assert forall i :: 0 <= i < |acts[1..]| ==> acts[1..][i] == acts[i + 1];
      StaysStalled(s, Step(t, acts[0]), acts[1..]);
    }
  }

  /** Past the limit no packet is sent and no request retired, whatever happens without help. */
  lemma NothingMore(s: System, acts: seq<Action>)
    requires s.sq.nrContig > MAX_CONTIG_REQUESTS && s.rq.acks == []
    requires Legal(s, acts) && AllUnaided(acts, |s.requests|, |s.responses|)
    ensures Run(s, acts).requests == s.requests && Run(s, acts).sq.retired == s.sq.retired
  {
    hide Legal, Run, AllUnaided;
    StaysStalled(s, s, acts);
  }

  lemma NeverRecovers(s: System, acts: seq<Action>)
    requires s.sq.nrContig > MAX_CONTIG_REQUESTS && s.rq.acks == [] && Flight(s.sq) != []
    ensures !Recovers(s, acts)
  {
    hide Legal, Run, AllUnaided;
    assert |Records(Flight(s.sq), Success)| > 0;
    if Recovers(s, acts) {
      NothingMore(s, acts);
    }
  }

  /**
    A connection in any reachable state loses everything on its way, in both directions.  At any time
    the requester has something to send, it gets every request in flight retired with success by
    itself if and only if it has sent at most 64 packets in a row.
   */
  lemma RecoversIff(s: System, actions: seq<Action>, now: int)
    requires Start(s) && Legal(s, actions)
    requires var t := Run(s, actions);
      && t.sq.state in {RTS, SQD} && AllSendable(Flight(t.sq), now) && Narrow(t.sq) && SomethingToSend(t.sq, now)
      && RecvOk(t.rq.state) && t.rq.acks == []
    ensures var t := Run(s, actions);
      (exists acts :: Recovers(t, acts)) <==> t.sq.nrContig <= MAX_CONTIG_REQUESTS
  {
    hide Truthful, Legal, Run, RoundOf, Recovers, AllSendable, Narrow, RoundLater;
    StartTruthful(s);
    RunTruthful(s, actions);
    var t := Run(s, actions);
    if t.sq.nrContig <= MAX_CONTIG_REQUESTS {
      var m, refused := Progress(t, now);
      LaterIsClear(t, Run(t, RoundOf(|t.requests|, |t.responses|, now)), m);
      var rest := Resume(Run(t, RoundOf(|t.requests|, |t.responses|, now)), now, refused);
      RecoversAfter(t, now, m, rest);
    } else {
      forall acts ensures !Recovers(t, acts) {
        NeverRecovers(t, acts);
      }
    }
  }

  lemma LaterIsClear(s: System, t: System, m: nat)
    requires RoundLater(s, t, m)
    ensures t.sq.waiting == [] && t.sq.nrContig == 0
  {
  }

  // ---------------------------------------------------------------------------
  // A SEND that stalls

  /** The first `k` packets of the only request are out, none of them acknowledged. */
  predicate Pushing(q: Sq, item: Item, k: nat, now: int) {
    && q.state == RTS && q.waiting == [] && |q.sending| == 1 && q.nrContig == k
    && LossFree.Carries(q.sending[0], item, k, 0, now)
  }

  lemma PushOne(q: Sq, item: Item, k: nat, now: int)
    requires Pushing(q, item, k, now) && LossFree.Whole(item) && ItemOk(q.attr.mtu, item) && k + 1 < item.all && k <= MAX_CONTIG_REQUESTS
    ensures var t := Schedule(q, now, Success).0; Pushing(t, item, k + 1, now) && t.attr == q.attr && t.retired == q.retired
  {
    LossFree.NowIsNotLater(now);
    PacketFits(q.attr.mtu, item.wr.length, k);
    hide PacketOf, TimeAfter, FailHead, NumPackets, PayloadSize;
    var e := q.sending[0].(scheduleTime := now);
    assert q.sending[0 := e] == q.sending && !TimedOut(q, now);
    assert SendStatus(q.attr, e, Success) == Success && !RestartsContig(e);
    assert q.sending[0 := e.(sent := k + 1)] == [e.(sent := k + 1)];
  }

  function Turns(n: nat, now: int): seq<Action> {
    if n == 0 then [] else [RunSender(now, Success)] + Turns(n - 1, now)
  }

  lemma {:induction false} PushMany(s: System, item: Item, k: nat, n: nat, now: int)
    requires SlotsOk(s.rq) && Pushing(s.sq, item, k, now) && LossFree.Whole(item) && ItemOk(s.sq.attr.mtu, item)
    requires k + n < item.all && k + n <= MAX_CONTIG_REQUESTS + 1
    ensures Legal(s, Turns(n, now))
    ensures var t := Run(s, Turns(n, now)); Pushing(t.sq, item, k + n, now) && t.rq == s.rq && t.sq.retired == s.sq.retired
    decreases n
  {
    hide Pushing, LossFree.Whole, ItemOk, Schedule, Prepare, RdItems;
    if n > 0 {
      var t := Transmitted(s, now, Success);
      PushOne(s.sq, item, k, now);
      PushMany(t, item, k + 1, n - 1, now);
      TurnsStep(s, n, now);
    }
  }

  lemma TurnsStep(s: System, n: nat, now: int)
    requires n > 0 && SlotsOk(s.rq) && Legal(Transmitted(s, now, Success), Turns(n - 1, now))
    ensures Legal(s, Turns(n, now)) && Run(s, Turns(n, now)) == Run(Transmitted(s, now, Success), Turns(n - 1, now))
  {
    hide Transmitted, Legal, Run;
    LossFree.RunOne(s, RunSender(now, Success));
    LossFree.RunJoin(s, [RunSender(now, Success)], Turns(n - 1, now));
  }

  /** The scheduler takes the new request up. */
  lemma TakenUp(q: Sq, w: Wr, now: int)
    requires SQI.Inv(q) && LossFree.Loaded(q, w) && w.length <= MAX_PAYLOAD_LEN && IsSend(w.opcode)
    ensures CanEnqueue(q) && Pushing(Enqueue(q, now), LossFree.ItemFor(q, w), 0, now)
    ensures Schedule(q, now, Success) == Schedule(Enqueue(q, now), now, Success)
    ensures ItemOk(q.attr.mtu, LossFree.ItemFor(q, w)) && Enqueue(q, now).attr == q.attr && Enqueue(q, now).retired == q.retired
  {
    LossFree.NoReads(q);
    hide NumPackets, Transmit, FailHead, TimeAfter, SQI.Inv;
  }

  /** Post, then 65 turns. */
  function LongSend(wr: Wr, now: int): seq<Action> {
    [Post([wr])] + Turns(MAX_CONTIG_REQUESTS + 1, now)
  }

  lemma FirstPush(s: System, w: Wr, now: int)
    requires SQI.Inv(s.sq) && LossFree.Loaded(s.sq, w) && LossFree.Whole(LossFree.ItemFor(s.sq, w)) && LossFree.ItemFor(s.sq, w).all > 1
    ensures var t := Transmitted(s, now, Success);
      && Pushing(t.sq, LossFree.ItemFor(s.sq, w), 1, now) && t.rq == s.rq && t.sq.attr == s.sq.attr && t.sq.retired == s.sq.retired
      && ItemOk(s.sq.attr.mtu, LossFree.ItemFor(s.sq, w))
  {
    hide SQI.Inv, LossFree.Loaded, Schedule, Prepare, RdItems, Enqueue, Pushing, ItemOk, NumPackets;
    TakenUp(s.sq, w, now);
    PushOne(Enqueue(s.sq, now), LossFree.ItemFor(s.sq, w), 0, now);
  }

  /**
    A SEND of more than 65 packets posted to an idle connection stalls if its first 65 packets are
    lost: no packet is sent again and no request retired, until the caller posts another.
   */
  lemma LongSendStalls(s: System, wr: Wr, now: int, acts: seq<Action>)
    requires LossFree.Idle(s) && LossFree.Postable(s.sq, wr)
    requires NumPackets(s.sq.attr.mtu, |wr.data|) > MAX_CONTIG_REQUESTS + 1
    ensures Legal(s, LongSend(wr, now))
    ensures var t := Run(s, LongSend(wr, now));
      && |Flight(t.sq)| == 1
      && (Legal(t, acts) && AllUnaided(acts, |t.requests|, |t.responses|) ==>
            Run(t, acts).requests == t.requests && Run(t, acts).sq.retired == t.sq.retired == s.sq.retired)
  {
    hide Safe, PostSend, Transmitted, Legal, Run, NumPackets, AllUnaided, SQI.Inv, ResponderOk, Turns, LossFree.Loaded, ItemOk;
    var w, a := wr.(length := |wr.data|), Post([wr]);
    LossFree.SafeParts(s);
    LossFree.PostLoads(s.sq, wr);
    PostSafe(s, [wr]);
    LossFree.RunOne(s, a);
    var s1 := s.(sq := PostSend(s.sq, [wr]).0);
    LossFree.SafeParts(s1);
    var item := LossFree.ItemFor(s1.sq, w);
    FirstPush(s1, w, now);
    PushMany(Transmitted(s1, now, Success), item, 1, MAX_CONTIG_REQUESTS, now);
    TurnsStep(s1, MAX_CONTIG_REQUESTS + 1, now);
    LossFree.RunJoin(s, [a], Turns(MAX_CONTIG_REQUESTS + 1, now));
    var t := Run(s, LongSend(wr, now));
    if Legal(t, acts) && AllUnaided(acts, |t.requests|, |t.responses|) {
      NothingMore(t, acts);
    }
  }
}
