/**
  One round between two ends when all packets sent earlier are lost: the requester sends its next
  packet, the responder answers it, and the requester takes the answer.
 */
module RetryRound {
  import opened Psn
  import opened Jiffies
  import opened OpCode
  import opened WorkRequest
  import opened SendQueue
  import SQI = SendQueueInvariant
  import SendQueueRuns
  import opened ReceiveQueue
  import opened ReceiveQueueInvariant
  import opened Protocol
  import opened ResponderExecution
  import opened AckTruth
  import opened ProtocolRequests
  import ProtocolResponses
  import opened ProtocolSafety
  import opened ProtocolProgress
  import opened AckProgress
  import LossFree

  // ---------------------------------------------------------------------------
  // The requester's turn

  /** A SEND or RDMA WRITE in flight that nothing keeps from being sent at `now`. */
  predicate Sendable(e: Swqe, now: int) {
    && (IsSend(e.wr.opcode) || IsWrite(e.wr.opcode)) && e.wr.length == |e.wr.data|
    && e.status == Success && e.retryCnt >= 0 && e.rnrRetry >= 0 && !TimeAfter(e.scheduleTime, now)
  }

  ghost predicate AllSendable(q: seq<Swqe>, now: int) {
    forall i :: 0 <= i < |q| ==> Sendable(q[i], now)
  }

  /** A turn at `now` has something to send: the first packet not sent, or all again after a timeout. */
  predicate SomethingToSend(q: Sq, now: int) {
    if q.waiting != [] && !TimeAfter(q.waiting[0].localAckTime, now) then q.waiting[0].retryCnt > 0 else q.sending != []
  }

  /** `b` carries the requests of `a`, with the same packets acknowledged. */
  ghost predicate SameRequests(a: seq<Swqe>, b: seq<Swqe>) {
    |b| == |a| && forall i :: 0 <= i < |a| ==> ItemOf(b[i]) == ItemOf(a[i]) && b[i].expected == a[i].expected && b[i].ack == a[i].ack
  }

  /** `t` is `q` but for the requests in flight and the flow control. */
  predicate SameElse(q: Sq, t: Sq) {
    && t.attr == q.attr && t.state == q.state && t.submitted == q.submitted && t.plan == q.plan
    && t.retired == q.retired && t.expectedPsn == q.expectedPsn
  }

  /** What the turn starts from. */
  lemma Prepared(q: Sq, now: int)
    requires SomethingToSend(q, now) && AllSendable(Flight(q), now)
    ensures var p := Prepare(q, now);
      && p.sending != [] && p.nrContig == q.nrContig && SameElse(q, p)
      && SameRequests(Flight(q), Flight(p)) && AllSendable(Flight(p), now)
      && (q.waiting == [] ==> p == q)
  {
    hide TimeAfter;
    if TimedOut(q, now) {
      var e := q.waiting[0];
      var e' := e.(retryCnt := e.retryCnt - 1, timeouts := e.timeouts + 1, localAckTime := now + SCHED_TIMEOUT);
      var q1 := q.(waiting := q.waiting[0 := e']);
      assert Flight(q1) == Flight(q)[0 := e'];
      assert Prepare(q, now) == Rewind(q1);
    }
  }

  /** One packet of the head of sending. */
  lemma Sends(p: Sq, now: int)
    requires p.sending != [] && AllSendable(Flight(p), now)
    requires SQI.EntryOk(p.attr, p.sending[0]) && SQI.SendingOk(p.sending[0])
    ensures var (t, out) := Transmit(p, now, Success);
      var i, k := |p.waiting|, p.sending[0].sent;
      && 0 <= k < p.sending[0].all && SameElse(p, t)
      && out == Some(PacketOf(p.attr.mtu, ItemOf(p.sending[0]), k))
      && |t.waiting| == (if k + 1 == p.sending[0].all then i + 1 else i)
      && |Flight(t)| == |Flight(p)|
      && Flight(t) == Flight(p)[i := Flight(t)[i]]
      && Flight(t)[i] == p.sending[0].(sent := k + 1, localAckTime := Flight(t)[i].localAckTime)
  {
    hide PacketOf, RestartsContig, TimeAfter;
    var e := p.sending[0];
    assert e == Flight(p)[|p.waiting|];
    CanSend(p.attr, e, now);
    hide SendStatus, ItemOk;
  }

  lemma CanSend(attr: SendQueue.Attr, e: Swqe, now: int)
    requires SQI.EntryOk(attr, e) && SQI.SendingOk(e) && Sendable(e, now)
    ensures SendStatus(attr, e, Success) == Success
  {
    PacketFits(attr.mtu, e.wr.length, e.sent);
    hide NumPackets, PayloadSize, TimeAfter;
  }

  /** Packet `k` of request `i` in flight is the last one out. */
  predicate JustOut(t: Sq, i: nat, k: nat) {
    && i < |Flight(t)| && k < Flight(t)[i].all && Flight(t)[i].sent == k + 1
    && |t.waiting| == (if k + 1 == Flight(t)[i].all then i + 1 else i)
  }

  /** What a turn sends and leaves. */
  ghost predicate TurnOf(q: Sq, now: int, i: nat, k: nat) {
    var p, (t, out) := Prepare(q, now), Schedule(q, now, Success);
    && JustOut(t, i, k) && SameElse(q, t)
    && SameRequests(Flight(q), Flight(t)) && AllSendable(Flight(t), now)
    && out == Some(PacketOf(q.attr.mtu, ItemOf(Flight(t)[i]), k))
    && p.plan == q.plan && |p.sending| == |Flight(q)| - i && p.sending != [] && p.sending[0].sent == k
    && (q.waiting == [] ==> i == 0 && k == q.sending[0].sent && forall j :: 0 < j < |Flight(t)| ==> Flight(t)[j] == Flight(q)[j])
  }

  /** The head of sending with its time set, as the scheduler hands it on. */
  function Timed(p: Sq, now: int): Sq
    requires p.sending != []
  {
    p.(sending := p.sending[0 := p.sending[0].(scheduleTime := now)])
  }

  lemma TimedFlight(p: Sq, now: int)
    requires p.sending != [] && AllSendable(Flight(p), now)
    ensures var p1, i := Timed(p, now), |p.waiting|;
      && Flight(p)[i] == p.sending[0] && Flight(p1) == Flight(p)[i := p1.sending[0]]
      && SameElse(p, p1) && SameRequests(Flight(p), Flight(p1)) && AllSendable(Flight(p1), now)
  {
    LossFree.NowIsNotLater(now);
    hide TimeAfter;
    var p1, i := Timed(p, now), |p.waiting|;
    assert Flight(p1) == Flight(p)[i := p1.sending[0]];
  }

  lemma TurnIs(q: Sq, now: int)
    requires q.state in {RTS, SQD} && q.nrContig <= MAX_CONTIG_REQUESTS
    requires var p := Prepare(q, now); p.sending != [] && p.nrContig == q.nrContig && Sendable(p.sending[0], now)
    ensures Schedule(q, now, Success) == Transmit(Timed(Prepare(q, now), now), now, Success)
  {
    hide Prepare, Transmit, TimeAfter;
  }

  lemma SameRequestsJoin(a: seq<Swqe>, b: seq<Swqe>, c: seq<Swqe>)
    requires SameRequests(a, b) && SameRequests(b, c)
    ensures SameRequests(a, c)
  {
  }

  /** One packet more of request `i` leaves the flight as it is otherwise. */
  lemma OneMoreSent(a: seq<Swqe>, b: seq<Swqe>, i: nat, now: int)
    requires i < |a| == |b| && AllSendable(a, now) && b == a[i := b[i]]
    requires b[i] == a[i].(sent := b[i].sent, localAckTime := b[i].localAckTime)
    ensures SameRequests(a, b) && AllSendable(b, now)
  {
    hide TimeAfter;
  }

  lemma SenderTurn(q: Sq, now: int) returns (i: nat, k: nat)
    requires SQI.Inv(q) && q.state in {RTS, SQD} && q.nrContig <= MAX_CONTIG_REQUESTS
    requires SomethingToSend(q, now) && AllSendable(Flight(q), now)
    ensures TurnOf(q, now, i, k)
  {
    hide Prepare, Transmit, SQI.Inv, PacketOf, TimedOut, Schedule, TimeAfter, AllSendable, SameRequests, SQI.EntryOk, SQI.SendingOk;
    Prepared(q, now);
    SQI.PrepareKeeps(q, now);
    var p := Prepare(q, now);
    SQI.HeadSound(p);
    TimedFlight(p, now);
    var p1 := Timed(p, now);
    SendableAt(p, now);
    TurnIs(q, now);
    TimedSound(p, now);
    Sends(p1, now);
    var t := Transmit(p1, now, Success).0;
    i, k := |p.waiting|, p.sending[0].sent;
    OneMoreSent(Flight(p1), Flight(t), i, now);
    SameRequestsJoin(Flight(p), Flight(p1), Flight(t));
    SameRequestsJoin(Flight(q), Flight(p), Flight(t));
    SameSize(Flight(q), Flight(t));
  }

  lemma SendableAt(p: Sq, now: int)
    requires p.sending != [] && AllSendable(Flight(p), now)
    ensures Sendable(p.sending[0], now)
  {
    hide Sendable;
    assert Flight(p)[|p.waiting|] == p.sending[0];
  }

  lemma TimedSound(p: Sq, now: int)
    requires p.sending != [] && SQI.EntryOk(p.attr, p.sending[0]) && SQI.SendingOk(p.sending[0])
    ensures var e := Timed(p, now).sending[0]; SQI.EntryOk(p.attr, e) && SQI.SendingOk(e)
  {
  }

  lemma SameSize(a: seq<Swqe>, b: seq<Swqe>)
    requires SameRequests(a, b)
    ensures |a| == |b|
  {
  }

  // ---------------------------------------------------------------------------
  // The responder's answer

  /** One packet of an RDMA WRITE, its header off. */
  lemma WriteBodyLeaves(r: Rq, packet: Request, size1: int)
    requires SizeOk(r.attr.mtu, packet.op, |packet.payload|) && r.receives > 0 && r.acks == []
    requires size1 == |packet.payload| + if CarriesImm(packet.op) then IMM_SIZE else 0
    requires r.offset + |packet.payload| <= r.writeLen <= MAX_PAYLOAD_LEN
    requires Final(packet.op) ==> r.writeLen == r.offset + |packet.payload|
    ensures var t := WriteBody(r, packet, size1, Success);
      t.state == r.state && t.psn == r.psn + 1 && t.acks == [NormalAck(packet.psn, packet.psn + 1, SYND_ACK)]
  {
    hide SizeOk, PushAck, Final, CarriesImm, Add64, RnrSyndrome;
    var r1 := PlaceWrite(r, packet, |packet.payload|);
    PushAckFields(r1, packet.psn, SYND_ACK);
    PushAckLast(r1, packet.psn);
    assert WriteBody(r, packet, size1, Success) == Advance(r1, packet);
  }

  lemma WriteLeaves(r: Rq, item: Item, k: nat)
    requires Poised(r, item, k) && IsWrite(item.wr.opcode) && GatherOk(r.attr.mtu, item.wr, item.all, k)
    requires r.receives > 0 && r.acks == []
    ensures var t := ReceiveWrite(r, PacketOf(r.attr.mtu, item, k), Success);
      t.state == r.state && t.psn == r.psn + 1 && t.acks == [NormalAck(item.base + k, item.base + k + 1, SYND_ACK)]
  {
    OpcodeShape(item.wr.opcode, item.all, k);
    SizesAccepted(r.attr.mtu, item, k);
    hide Chunk, RequestOpcode, SizeOk, JoinChunks, NumPackets, Initial, Final, CarriesImm, HasReth, AttrOf, WriteBody;
    var packet := PacketOf(r.attr.mtu, item, k);
    var r1 := if Initial(packet.op)
      then r.(offset := 0, writeVaddr := packet.vaddr, writeRkey := packet.rkey, writeLen := packet.dmalen) else r;
    WriteBodyLeaves(r1, packet, if Initial(packet.op) then packet.size - RETH_SIZE else packet.size);
  }

  /** `t` is the responder with its one acknowledge for `psn` queued: an ACK, or a NAK if `psn` is not its turn yet. */
  predicate Replied(r: Rq, t: Rq, psn: int) {
    && RecvOk(t.state)
    && t.psn == (if psn == r.psn then r.psn + 1 else r.psn)
    && t.acks == [NormalAck(psn, psn + 1, if psn <= r.psn then SYND_ACK else SYND_PSN_SEQ_ERR)]
  }

  /** A responder with an empty queue and a receive entry gets packet `q` of a SEND or RDMA WRITE. */
  ghost predicate Arrives(r: Rq, plan: seq<Item>, end: int, done: nat, part: nat, q: Sent) {
    && ResponderOk(r, plan, end, done, part) && Genuine(r.attr.mtu, plan, q)
    && RecvOk(r.state) && r.receives > 0 && r.acks == []
    && (IsSend(plan[q.item].wr.opcode) || IsWrite(plan[q.item].wr.opcode))
  }

  lemma ExpectedReplied(r: Rq, plan: seq<Item>, end: int, done: nat, part: nat, q: Sent)
    requires Arrives(r, plan, end, done, part, q) && q.packet.psn == r.psn && SlotsOk(r)
    ensures Replied(r, ReceiveExpected(r, q.packet, Success, 0), q.packet.psn)
  {
    hide ReceiveNewRead, ReceiveAtomicRequest, ReceiveSend, ReceiveWrite, Poised, PacketOf, GatherOk, InOrder, Serves, ResponderOk, RecvOk;
    ExpectedIsNext(r, plan, end, done, part, q);
    GenuineFacts(r.attr.mtu, plan, q);
    NextInOrder(r, plan[done], part);
    var opcode := plan[done].wr.opcode;
    OpcodeShape(opcode, plan[done].all, part);
    PacketFacts(r.attr.mtu, plan[done], part);
    if IsSend(opcode) {
      Served(r, plan[done], part);
      SendLeaves(r, plan[done], part, Success);
      SendMovesOn(r, q.packet);
      SendServedIff(r, plan[done], part, Success);
    } else {
      WriteLeaves(r, plan[done], part);
    }
  }

  lemma PacketFacts(mtu: Mtu, item: Item, k: nat)
    requires k < item.all
    ensures PacketOf(mtu, item, k).psn == item.base + k
    ensures IsSend(item.wr.opcode) || IsWrite(item.wr.opcode) ==> PacketOf(mtu, item, k).op == RequestOpcode(item.wr.opcode, item.all, k)
  {
    hide Chunk, NumPackets;
  }

  lemma Served(r: Rq, item: Item, k: nat)
    requires IsSend(item.wr.opcode) && r.receives > 0
    ensures Serves(r, item, k, Success)
  {
  }

  /** A SEND packet moves the responder by one PSN or not at all. */
  lemma SendMovesOn(r: Rq, packet: Request)
    ensures var t := ReceiveSend(r, packet, Success); t.psn == r.psn || t.psn == r.psn + 1
  {
    hide SizeOk, PushAck, Final, Initial, CarriesImm, RnrSyndrome;
    var r1 := if Initial(packet.op) then r.(offset := 0, partial := []) else r;
    PushAckFields(r1, packet.psn, RnrSyndrome(r.attr));
    if r1.receives > 0 {
      var size := packet.size - (if CarriesImm(packet.op) then IMM_SIZE else 0);
      PushAckFields(PlaceSend(r1, packet, size), packet.psn, SYND_ACK);
    }
  }

  lemma AnyReplied(r: Rq, plan: seq<Item>, end: int, done: nat, part: nat, q: Sent)
    requires Arrives(r, plan, end, done, part, q) && Close(q.packet.psn, r.psn)
    ensures SlotsOk(r) && Replied(r, ReceiveRequest(r, q.packet, Success, 0), q.packet.psn)
  {
    hide ReceiveExpected, ResponderOk, Genuine, PsnDiff, Replied, FindSlot, ReceiveRetriedRead;
    PoisedSlots(r, plan, end, done, part);
    DiffExact(q.packet.psn, r.psn);
    if q.packet.psn == r.psn {
      ExpectedReplied(r, plan, end, done, part, q);
    } else {
      PlainOpcode(r.attr.mtu, plan, q);
      LoneAck(r, q.packet.psn);
    }
  }

  lemma PlainOpcode(mtu: Mtu, plan: seq<Item>, q: Sent)
    requires Genuine(mtu, plan, q) && (IsSend(plan[q.item].wr.opcode) || IsWrite(plan[q.item].wr.opcode))
    ensures q.packet.op !in {ReadRequest, CompareSwap, FetchAdd}
  {
    hide PacketOf, GatherOk, RequestOpcode;
    OpcodeShape(plan[q.item].wr.opcode, plan[q.item].all, q.k);
    PacketFacts(mtu, plan[q.item], q.k);
  }

  lemma LoneAck(r: Rq, psn: int)
    requires r.acks == [] && RecvOk(r.state) && psn != r.psn
    ensures Replied(r, if psn < r.psn then PushAck(r, psn, SYND_ACK) else PushAck(r, psn, SYND_PSN_SEQ_ERR), psn)
  {
  }

  // ---------------------------------------------------------------------------
  // The reply reaches the requester

  /** The PSNs in flight are fewer than half of all, so none is mistaken for another. */
  predicate Narrow(q: Sq) {
    Flight(q) != [] ==> q.expectedPsn - Flight(q)[0].base < TWO23
  }

  lemma EntryRange(q: Sq, i: nat)
    requires SQI.FlightOk(q) && i < |Flight(q)|
    ensures var e := Flight(q)[i]; e.expected == e.base + e.all && 0 <= e.ack < e.all
  {
    hide ItemOk;
    assert if i < |q.waiting| then Flight(q)[i] == q.waiting[i] else Flight(q)[i] == q.sending[i - |q.waiting|];
  }

  lemma Tiled(q: Sq)
    requires SQI.Inv(q)
    ensures SQI.FlightOk(q) && SendQueueRuns.FlightTiles(q)
  {
    hide SQI.Counted, SQI.Conserved, SQI.RdCounted, SQI.Fenced, SQI.SubmittedOk, SQI.FlightOk, SQI.Planned, SQI.PlanTiled;
    SendQueueRuns.PlanGivesTiling(q);
  }

  /** The PSNs of request `i` lie between the first one in flight and the next to give out. */
  lemma RangeOf(q: Sq, i: nat)
    requires SQI.Inv(q) && i < |Flight(q)|
    ensures var e := Flight(q)[i];
      && Flight(q)[0].base <= e.base && e.expected == e.base + e.all && 0 <= e.ack < e.all && e.expected <= q.expectedPsn
      && (i + 1 < |Flight(q)| ==> Flight(q)[i + 1].base == e.expected)
      && (forall j :: i < j < |Flight(q)| ==> e.expected <= Flight(q)[j].base)
      && (forall j :: 0 <= j < i ==> Flight(q)[j].expected <= e.base)
  {
    hide SQI.Inv, SQI.FlightOk;
    Tiled(q);
    var f := Flight(q);
    forall j | 0 <= j < |f| ensures f[j].all >= 1 && f[j].expected == f[j].base + f[j].all {
      EntryRange(q, j);
    }
    EntryRange(q, i);
    forall j | i < j < |f| ensures f[i].expected <= f[j].base {
      ProtocolResponses.FlightOrdered(q, i, j);
    }
    forall j | 0 <= j < i ensures f[j].expected <= f[i].base {
      ProtocolResponses.FlightOrdered(q, j, i);
    }
    NextTile(q, i);
    if i + 1 < |f| {
      assert f[i].expected <= f[|f| - 1].base;
    }
  }

  lemma NextTile(q: Sq, i: nat)
    requires SendQueueRuns.FlightTiles(q) && i < |Flight(q)|
    ensures i + 1 < |Flight(q)| ==> Flight(q)[i + 1].base == Flight(q)[i].expected
    ensures Flight(q)[|Flight(q)| - 1].expected == q.expectedPsn
  {
    var j := i + 1;
    assert Flight(q) == q.waiting + q.sending;
  }

  lemma AllInWindow(q: Sq, psn: int)
    requires SQI.Inv(q) && Narrow(q) && (Flight(q) != [] ==> Flight(q)[0].base <= psn < q.expectedPsn)
    ensures InWindow(q, psn)
  {
    hide SQI.Inv;
    forall i | 0 <= i < |Flight(q)| ensures Close(psn, Flight(q)[i].base) && Close(psn, Flight(q)[i].expected) {
      RangeOf(q, i);
    }
  }

  /** How many requests are done once packet `k` of request `i` is acknowledged with all before it. */
  function DoneBy(f: seq<Swqe>, i: nat, k: nat): nat
    requires i < |f|
  {
    if k + 1 == f[i].all then i + 1 else i
  }

  lemma AckRunIs(q: Sq, i: nat, k: nat, now: int)
    requires SQI.Inv(q) && Narrow(q) && AllSendable(Flight(q), now) && JustOut(q, i, k)
    ensures var f := Flight(q); InWindow(q, f[i].base + k) && AckRun(f, f[i].base + k) == DoneBy(f, i, k)
  {
    hide SQI.Inv, InWindow, Narrow, AckRun, JudgeAck, TimeAfter;
    var f := Flight(q);
    var m, psn := DoneBy(f, i, k), f[i].base + k;
    RangeOf(q, i);
    AllInWindow(q, psn);
    forall j | 0 <= j < |f| ensures JudgeAck(f[j], psn).0 == Completed <==> j < m {
      JudgedIff(q, psn, j);
      RangeOf(q, j);
      assert Sendable(f[j], now);
    }
    if m > 0 {
      AckRunIff(f, psn, m - 1);
    }
    if m < |f| {
      AckRunIff(f, psn, m);
    }
  }

  /** The flight of `t` is that of `q` without its first `m` requests; none is waiting. */
  ghost predicate Dropped(q: Sq, t: Sq, m: nat) {
    && m <= |Flight(q)| && t.waiting == [] && |t.sending| == |Flight(q)| - m
    && forall j :: 0 <= j < |t.sending| ==> t.sending[j] == Flight(q)[m + j].(ack := t.sending[j].ack)
  }

  /** The rest of `t` is that of `q`, with the first `m` requests retired with success. */
  ghost predicate RetiredBy(q: Sq, t: Sq, m: nat) {
    && m <= |Flight(q)| && t.retired == q.retired + Records(Flight(q)[..m], Success)
    && t.attr == q.attr && t.state == q.state && t.submitted == q.submitted && t.plan == q.plan && t.expectedPsn == q.expectedPsn
    && t.nrContig == 0
  }

  lemma JudgedAfterRun(q: Sq, i: nat, k: nat, now: int)
    requires SQI.Inv(q) && Narrow(q) && AllSendable(Flight(q), now) && JustOut(q, i, k)
    requires DoneBy(Flight(q), i, k) < |Flight(q)|
    ensures var e := Flight(q)[DoneBy(Flight(q), i, k)];
      var (verdict, e') := JudgeAck(e, Flight(q)[i].base + k);
      verdict in {Progressed, Ignored} && e' == e.(ack := e'.ack)
  {
    hide SQI.Inv, InWindow, Narrow, TimeAfter;
    var f := Flight(q);
    var m, psn := DoneBy(f, i, k), f[i].base + k;
    AckRunIs(q, i, k, now);
    RangeOf(q, i);
    RangeOf(q, m);
    WindowAt(q, psn, m);
    DiffExact(psn, f[m].base);
    hide PsnDiff;
    assert Sendable(f[m], now);
  }

  lemma WindowAt(q: Sq, psn: int, i: nat)
    requires InWindow(q, psn) && i < |Flight(q)|
    ensures Close(psn, Flight(q)[i].base)
  {
  }

  /** Completing exactly the waiting requests. */
  lemma WaitingDone(q: Sq)
    ensures var t, m := CompleteRun(q, |q.waiting|), |q.waiting|;
      && t.waiting == [] && t.sending == q.sending && t.retired == q.retired + Records(Flight(q)[..m], Success)
      && t.attr == q.attr && t.state == q.state && t.submitted == q.submitted && t.plan == q.plan && t.expectedPsn == q.expectedPsn
      && t.nrContig == q.nrContig
  {
    hide Reports, Records;
  }

  /** receive_ACK_response when exactly the waiting requests are done. */
  lemma AckEnds(q: Sq, psn: int, now: int)
    requires AckRun(Flight(q), psn) == |q.waiting| && q.nrContig == 0
    requires q.sending != [] ==>
      var (verdict, e) := JudgeAck(q.sending[0], psn); verdict in {Progressed, Ignored} && e == q.sending[0].(ack := e.ack)
    ensures var t := ReceiveAck(q, psn, now);
      && RetiredBy(q, t, |q.waiting|) && t.waiting == []
      && t.sending == if q.sending == [] then [] else q.sending[0 := q.sending[0].(ack := t.sending[0].ack)]
  {
    hide AckRun, JudgeAck, CompleteRun, FailHead, Records;
    WaitingDone(q);
    var s1 := CompleteRun(q, |q.waiting|);
    assert Postpone(s1, now) == s1;
    if q.sending != [] {
      assert Flight(q)[|q.waiting|] == q.sending[0];
      var (verdict, e) := JudgeAck(q.sending[0], psn);
      assert SetFlight(s1, 0, e) == s1.(sending := s1.sending[0 := e]);
      assert Postpone(SetFlight(s1, 0, e), now) == SetFlight(s1, 0, e);
    }
  }

  /** The acknowledge of the packet sent last retires all requests it ends and leaves none waiting. */
  lemma AckTaken(q: Sq, i: nat, k: nat, now: int)
    requires SQI.Inv(q) && Narrow(q) && AllSendable(Flight(q), now) && JustOut(q, i, k) && q.nrContig == 0
    ensures var t, m := ReceiveAck(q, Flight(q)[i].base + k, now), DoneBy(Flight(q), i, k);
      Dropped(q, t, m) && RetiredBy(q, t, m)
  {
    hide SQI.Inv, InWindow, Narrow, AckRun, JudgeAck, AllSendable, ReceiveAck, RetiredBy;
    AckRunIs(q, i, k, now);
    if q.sending != [] {
      JudgedAfterRun(q, i, k, now);
    }
    AckEnds(q, Flight(q)[i].base + k, now);
  }

  lemma AckResponse(q: Sq, psn: int, now: int)
    ensures RecvOk(q.state) ==>
      ReceiveResponse(q, Response(psn, AckKind, SYND_ACK, AETH_SIZE, 0, 0, 0, 0), now, 0, Success) == ReceiveAck(q.(nrContig := 0), psn, now)
    ensures RecvOk(q.state) ==>
      ReceiveResponse(q, Response(psn, AckKind, SYND_PSN_SEQ_ERR, AETH_SIZE, 0, 0, 0, 0), now, 0, Success) == Rewind(q.(nrContig := 0))
  {
    hide ReceiveAck, Rewind;
    assert SyndromeClass(SYND_ACK) == SYND_ACK && SyndromeClass(SYND_PSN_SEQ_ERR) == SYND_NAK;
  }

  // ---------------------------------------------------------------------------
  // Both ends

  lemma PsnReached(s: System)
    requires Safe(s)
    ensures s.sq.attr.origin <= s.rq.psn <= s.sq.expectedPsn
    ensures forall i :: 0 <= i < |s.sq.retired| && s.sq.retired[i].status == Success ==> i < |s.sq.plan| && s.sq.plan[i].End() <= s.rq.psn
  {
    hide SQI.Inv, AllGenuine, AllTrue, AcksTrue, ReadsAscend, LocalInv, EffectsOf, IdealEffects, IdealMessages, RecordsMatch, MidMessage;
    var plan, mtu := s.sq.plan, s.rq.attr.mtu;
    StartBounds(mtu, plan, s.sq.attr.origin, s.sq.expectedPsn, s.done);
    if s.part > 0 {
      StartsAtBase(mtu, plan, s.sq.attr.origin, s.sq.expectedPsn, s.done);
      StartBounds(mtu, plan, s.sq.attr.origin, s.sq.expectedPsn, s.done + 1);
      PlanOrdered(mtu, plan, s.sq.attr.origin, s.sq.expectedPsn, s.done, s.done + 1);
      StepsWithin(plan[s.done]);
    }
  }

  lemma StepsWithin(item: Item)
    ensures StepsOf(item) <= item.all || StepsOf(item) == 1
  {
  }

  lemma StartBounds(mtu: Mtu, plan: seq<Item>, origin: int, end: int, i: nat)
    requires PlanOk(mtu, plan, origin, end) && i <= |plan|
    ensures origin <= StartOf(plan, origin, i) <= end
  {
    hide NumPackets;
    if i > 0 {
      PlanOrdered(mtu, plan, origin, end, 0, i);
    }
    if i < |plan| {
      PlanOrdered(mtu, plan, origin, end, i, |plan|);
      StartsAtBase(mtu, plan, origin, end, i);
    }
  }

  /** The responder is at or past the first PSN in flight. */
  lemma HeadReached(s: System)
    requires Truthful(s) && s.sq.state !in {ERR, SQE} && Flight(s.sq) != []
    ensures Flight(s.sq)[0].base <= s.rq.psn <= s.sq.expectedPsn
  {
    hide Safe;
    PsnReached(s);
    LossFree.SafeParts(s);
    hide SQI.Counted, SQI.Conserved, SQI.RdCounted, SQI.Fenced, SQI.SubmittedOk, SQI.FlightOk, ItemOk, ResponderOk;
    var n := |s.sq.retired|;
    assert s.sq.plan[n] == ItemOf(Flight(s.sq)[0]);
    if n > 0 {
      var m := n - 1;
      assert s.sq.retired[m].status == Success;
      assert s.sq.plan[n].base == s.sq.plan[m].End();
    }
  }

  /** Both ends work, the requests in flight can be sent at `now`, and the responder has nothing to say. */
  ghost predicate Working(s: System, now: int) {
    && Truthful(s) && s.sq.state in {RTS, SQD} && AllSendable(Flight(s.sq), now) && Narrow(s.sq)
    && RecvOk(s.rq.state) && s.rq.acks == []
  }

  /** Packet `k` of request `i` in flight was sent last and ends the log. */
  ghost predicate OnItsWay(s: System, i: nat, k: nat) {
    && JustOut(s.sq, i, k) && s.requests != []
    && var q := s.requests[|s.requests| - 1];
       && 0 <= q.item < |s.sq.plan| && s.sq.plan[q.item] == ItemOf(Flight(s.sq)[i]) && q.packet.psn == Flight(s.sq)[i].base + k
  }

  lemma PlanOfFlight(q: Sq, i: nat)
    requires SQI.Inv(q) && i < |Flight(q)|
    ensures |Flight(q)| <= |q.plan| && q.plan[|q.plan| - |Flight(q)| + i] == ItemOf(Flight(q)[i])
  {
    hide SQI.Counted, SQI.Conserved, SQI.RdCounted, SQI.Fenced, SQI.SubmittedOk, SQI.FlightOk, SQI.PlanTiled;
  }

  lemma StillNarrow(q: Sq, t: Sq)
    requires SameElse(q, t) && SameRequests(Flight(q), Flight(t)) && Narrow(q)
    ensures Narrow(t)
  {
    if Flight(t) != [] {
      assert ItemOf(Flight(t)[0]) == ItemOf(Flight(q)[0]);
    }
  }

  /** The requester sends its next packet. */
  lemma SenderStep(s: System, now: int) returns (i: nat, k: nat)
    requires Working(s, now) && SomethingToSend(s.sq, now) && s.sq.nrContig <= MAX_CONTIG_REQUESTS
    ensures TurnOf(s.sq, now, i, k)
    ensures var t := Transmitted(s, now, Success);
      && Working(t, now) && OnItsWay(t, i, k) && t.sq == Schedule(s.sq, now, Success).0
      && t.rq == s.rq && t.responses == s.responses && |t.requests| == |s.requests| + 1
  {
    hide Truthful, Schedule, Prepare, SQI.Inv, PacketOf, AllSendable, Narrow, SameRequests, JustOut, RdItems, RecvOk, SomethingToSend, ResponderOk;
    Sound(s);
    i, k := SenderTurn(s.sq, now);
    StepTruthful(s, RunSender(now, Success));
    var t := Transmitted(s, now, Success);
    Sound(t);
    StillNarrow(s.sq, t.sq);
    SameSize(Flight(s.sq), Flight(t.sq));
    OutBounds(t.sq, i, k);
    PlanOfFlight(t.sq, i);
    PacketFacts(s.sq.attr.mtu, ItemOf(Flight(t.sq)[i]), k);
  }

  lemma Sound(s: System)
    requires Truthful(s)
    ensures SQI.Inv(s.sq) && Safe(s) && SlotsOk(s.rq)
    ensures ResponderOk(s.rq, s.sq.plan, s.sq.expectedPsn, s.done, s.part)
  {
    hide Safe, Truth;
    LossFree.SafeParts(s);
  }

  lemma OutBounds(q: Sq, i: nat, k: nat)
    requires JustOut(q, i, k)
    ensures i < |Flight(q)| && k < Flight(q)[i].all
  {
  }

  /** The packet is answered. */
  ghost predicate Answers(s: System, t: System, psn: int) {
    && Truthful(t) && t.sq == s.sq && t.requests == s.requests
    && RecvOk(t.rq.state) && t.rq.acks == [] && t.rq.psn == (if psn == s.rq.psn then s.rq.psn + 1 else s.rq.psn)
    && t.responses == s.responses
                      + [Response(psn, AckKind, if psn <= s.rq.psn then SYND_ACK else SYND_PSN_SEQ_ERR, AETH_SIZE, 0, 0, 0, 0)]
  }

  /** Where the packet on its way lies among the PSNs. */
  lemma OutPsn(s: System, i: nat, k: nat, now: int)
    requires Working(s, now) && OnItsWay(s, i, k)
    ensures var psn := Flight(s.sq)[i].base + k;
      Flight(s.sq)[0].base <= psn < s.sq.expectedPsn && Close(psn, s.rq.psn) && InWindow(s.sq, psn)
  {
    hide Truthful, AllSendable, InWindow, RecvOk, SQI.Inv, ResponderOk;
    Sound(s);
    HeadReached(s);
    RangeOf(s.sq, i);
    AllInWindow(s.sq, Flight(s.sq)[i].base + k);
  }

  /** A receive entry is added, and the packet arrives. */
  lemma ArrivalStep(s: System, i: nat, k: nat, now: int)
    requires Working(s, now) && OnItsWay(s, i, k)
    ensures var psn, s1 := Flight(s.sq)[i].base + k, s.(rq := PostReceive(s.rq));
      && SlotsOk(s.rq) && SlotsOk(s1.rq) && Close(s.requests[|s.requests| - 1].packet.psn, s1.rq.psn)
      && var t := Received(s1, |s.requests| - 1, Success, 0);
         && Truthful(t) && t.sq == s.sq && t.requests == s.requests && t.responses == s.responses
         && Replied(s.rq, t.rq, psn)
  {
    hide Truthful, AllSendable, InWindow, Narrow, Replied, ReceiveRequest, PacketOf, SQI.Inv, ResponderOk;
    var s1 := s.(rq := PostReceive(s.rq));
    OutPsn(s, i, k, now);
    Sound(s);
    StepTruthful(s, AddReceive);
    Sound(s1);
    var q := s.requests[|s.requests| - 1];
    SendableOut(s, i, k, now);
    GenuineLast(s1);
    AnyReplied(s1.rq, s.sq.plan, s.sq.expectedPsn, s.done, s.part, q);
    StepTruthful(s1, DeliverRequest(|s.requests| - 1, Success, 0));
    RepliedSame(s.rq, s1.rq, ReceiveRequest(s1.rq, q.packet, Success, 0), q.packet.psn);
  }

  lemma RepliedSame(r: Rq, r1: Rq, t: Rq, psn: int)
    requires Replied(r1, t, psn) && r1.psn == r.psn
    ensures Replied(r, t, psn)
  {
  }

  lemma SendableOut(s: System, i: nat, k: nat, now: int)
    requires Working(s, now) && OnItsWay(s, i, k)
    ensures var op := s.sq.plan[s.requests[|s.requests| - 1].item].wr.opcode; IsSend(op) || IsWrite(op)
  {
    hide Truthful, TimeAfter;
    assert Sendable(Flight(s.sq)[i], now);
  }

  lemma GenuineLast(s: System)
    requires Truthful(s) && s.requests != []
    ensures Genuine(s.rq.attr.mtu, s.sq.plan, s.requests[|s.requests| - 1])
  {
    hide SQI.Inv, ResponderOk, AllTrue, ProtocolResponses.Covered, Genuine, Truth;
  }

  /** The responder sends its one acknowledge. */
  lemma AnswerStep(s: System, r: Rq, psn: int)
    requires Truthful(s) && Replied(r, s.rq, psn)
    ensures var t := Protocol.Answered(s, true);
      && Truthful(t) && t.sq == s.sq && t.requests == s.requests && t.rq == s.rq.(acks := [])
      && t.responses == s.responses
                        + [Response(psn, AckKind, if psn <= r.psn then SYND_ACK else SYND_PSN_SEQ_ERR, AETH_SIZE, 0, 0, 0, 0)]
  {
    hide Truthful, Generate;
    AnsweredTruthful(s);
    GenerateLone(s.rq);
  }

  lemma AnsweredTruthful(s: System)
    requires Truthful(s)
    ensures Truthful(Protocol.Answered(s, true))
  {
    hide Safe, Generate, Truth;
    AnsweredSafe(s, true);
    GenerateSamePsn(s.rq, true);
  }

  lemma GenerateLone(r: Rq)
    requires RecvOk(r.state) && |r.acks| == 1 && r.acks[0].NormalAck?
    ensures Generate(r, true) == (r.(acks := []), Some(Response(r.acks[0].psn, AckKind, r.acks[0].syndrome, AETH_SIZE, 0, 0, 0, 0)))
  {
    assert r.acks[1..] == [];
  }

  function MiddleActions(request: nat): seq<Action> {
    [AddReceive, DeliverRequest(request, Success, 0), RunResponder(true)]
  }

  lemma AnswerSteps(s: System, i: nat, k: nat, now: int)
    requires Working(s, now) && OnItsWay(s, i, k)
    ensures Legal(s, MiddleActions(|s.requests| - 1))
    ensures Answers(s, Run(s, MiddleActions(|s.requests| - 1)), Flight(s.sq)[i].base + k)
  {
    hide Truthful, Working, OnItsWay, Legal, Run, Received, PostReceive, MiddleActions, Protocol.Answered, ResponderOk, SQI.Inv;
    LogNotEmpty(s, i, k);
    ArrivalStep(s, i, k, now);
    var s2 := Received(s.(rq := PostReceive(s.rq)), |s.requests| - 1, Success, 0);
    Sound(s2);
    MiddleRuns(s, |s.requests| - 1);
    AnswerStep(s2, s.rq, Flight(s.sq)[i].base + k);
  }

  /** The three steps, as functions. */
  lemma MiddleRuns(s: System, request: nat)
    requires var s1 := s.(rq := PostReceive(s.rq));
      && SlotsOk(s.rq) && SlotsOk(s1.rq) && request < |s.requests| && Close(s.requests[request].packet.psn, s1.rq.psn)
      && SlotsOk(Received(s1, request, Success, 0).rq)
    ensures Legal(s, MiddleActions(request))
    ensures Run(s, MiddleActions(request)) == Protocol.Answered(Received(s.(rq := PostReceive(s.rq)), request, Success, 0), true)
  {
    hide ReceiveRequest, Generate, Legal, Run, PostReceive;
    var a, b, c := AddReceive, DeliverRequest(request, Success, 0), RunResponder(true);
    LossFree.RunOne(s, a);
    LossFree.RunThen(s, [a], b);
    LossFree.RunThen(s, [a] + [b], c);
    assert [a] + [b] + [c] == MiddleActions(request);
  }

  lemma LogNotEmpty(s: System, i: nat, k: nat)
    requires OnItsWay(s, i, k)
    ensures s.requests != [] && i < |Flight(s.sq)|
  {
  }

  // ---------------------------------------------------------------------------
  // One round

  /** `t` has retired the first `m` requests of `q` with success and has the others to send. */
  ghost predicate Trimmed(q: Sq, t: Sq, m: nat) {
    && RetiredBy(q, t, m) && t.waiting == [] && |t.sending| == |Flight(q)| - m
    && forall j :: 0 <= j < |t.sending| ==> t.sending[j] == Flight(q)[m + j].(ack := t.sending[j].ack, sent := t.sending[j].sent)
  }

  /** `t` has the requests of `q` from number `m` on, with the same packets of each sent. */
  ghost predicate SameSent(q: Sq, t: Sq, m: nat) {
    && m <= |Flight(q)| && |t.sending| == |Flight(q)| - m
    && forall j :: 0 <= j < |t.sending| ==> t.sending[j].sent == Flight(q)[m + j].sent
  }

  /** `t` has the requests of `q`, with the acknowledged packets of each sent and no others. */
  ghost predicate SentAgain(q: Sq, t: Sq) {
    && |t.sending| == |Flight(q)|
    && forall j :: 0 <= j < |t.sending| ==> t.sending[j].sent == Flight(q)[j].ack && t.sending[j].base == Flight(q)[j].base
  }

  lemma AcceptedStep(q: Sq, i: nat, k: nat, now: int)
    requires SQI.Inv(q) && Narrow(q) && AllSendable(Flight(q), now) && JustOut(q, i, k) && RecvOk(q.state)
    ensures var psn, m := Flight(q)[i].base + k, DoneBy(Flight(q), i, k);
      var t := ReceiveResponse(q, Response(psn, AckKind, SYND_ACK, AETH_SIZE, 0, 0, 0, 0), now, 0, Success);
      Trimmed(q, t, m) && SameSent(q, t, m)
  {
    hide SQI.Inv, AllSendable, ReceiveAck, Records, ReceiveResponse;
    FlowAside(q);
    var q0 := q.(nrContig := 0);
    AckResponse(q, Flight(q)[i].base + k, now);
    AckTaken(q0, i, k, now);
  }

  lemma RefusedStep(q: Sq, psn: int, now: int)
    requires RecvOk(q.state)
    ensures var t := ReceiveResponse(q, Response(psn, AckKind, SYND_PSN_SEQ_ERR, AETH_SIZE, 0, 0, 0, 0), now, 0, Success);
      Trimmed(q, t, 0) && SentAgain(q, t)
  {
    hide ReceiveResponse;
    AckResponse(q, psn, now);
    assert Flight(q)[..0] == [];
  }

  lemma TrimmedSendable(q: Sq, t: Sq, m: nat, now: int)
    requires SQI.Inv(q) && Trimmed(q, t, m) && AllSendable(Flight(q), now) && Narrow(q)
    ensures AllSendable(Flight(t), now) && Narrow(t)
  {
    hide SQI.Inv, TimeAfter, RetiredBy, Records;
    assert Flight(t) == t.sending && t.expectedPsn == q.expectedPsn by { RetiredFields(q, t, m); }
    if t.sending != [] {
      RangeOf(q, m);
    }
  }

  lemma RetiredFields(q: Sq, t: Sq, m: nat)
    requires RetiredBy(q, t, m)
    ensures t.expectedPsn == q.expectedPsn && t.state == q.state && t.nrContig == 0
  {
  }

  /** The next packet of every request is at most the one the responder waits for, unless none of it was sent. */
  ghost predicate InStep(s: System) {
    forall j :: 0 <= j < |s.sq.sending| ==> s.sq.sending[j].sent <= 0 || s.sq.sending[j].base + s.sq.sending[j].sent <= s.rq.psn
  }

  /** The acknowledge is delivered. */
  function Delivered(t: System, number: nat, now: int): System
    requires number < |t.responses|
  {
    t.(sq := ReceiveResponse(t.sq, t.responses[number], now, 0, Success))
  }

  /** `s` had packet `k` of request `i` on its way; `t` has the answer. */
  ghost predicate Replies(s: System, t: System, now: int, i: nat, k: nat) {
    && Working(s, now) && OnItsWay(s, i, k) && Answers(s, t, Flight(s.sq)[i].base + k)
  }

  lemma DeliveryWorks(s: System, t: System, now: int, i: nat, k: nat, m: nat)
    requires Replies(s, t, now, i, k) && Trimmed(s.sq, Delivered(t, |s.responses|, now).sq, m)
    ensures InWindow(t.sq, t.responses[|s.responses|].psn) && SlotsOk(t.rq)
    ensures Working(Delivered(t, |s.responses|, now), now)
  {
    hide Truthful, AllSendable, Narrow, JustOut, RecvOk, ReceiveResponse, InWindow, Trimmed, SQI.Inv, ResponderOk;
    OutPsn(s, i, k, now);
    Sound(t);
    StepTruthful(t, DeliverResponse(|s.responses|, now, 0, Success));
    var u := Delivered(t, |s.responses|, now);
    TrimmedSendable(s.sq, u.sq, m, now);
    TrimmedFields(s.sq, u.sq, m);
  }

  lemma TrimmedFields(q: Sq, t: Sq, m: nat)
    requires Trimmed(q, t, m)
    ensures t.state == q.state && t.nrContig == 0 && t.waiting == []
  {
  }

  /** A packet the responder takes. */
  lemma AcceptedDelivery(s: System, t: System, now: int, i: nat, k: nat)
    requires Replies(s, t, now, i, k) && Flight(s.sq)[i].base + k <= s.rq.psn
    ensures var u, m := Delivered(t, |s.responses|, now), DoneBy(Flight(s.sq), i, k);
      Trimmed(s.sq, u.sq, m) && Working(u, now) && SameSent(s.sq, u.sq, m)
  {
    hide Truthful, AllSendable, Narrow, JustOut, ReceiveResponse, Trimmed, SQI.Inv, ResponderOk, SameSent;
    LogNotEmpty(s, i, k);
    Sound(s);
    AcceptedStep(s.sq, i, k, now);
    DeliveryWorks(s, t, now, i, k, DoneBy(Flight(s.sq), i, k));
  }

  /** A packet ahead of its turn: all is sent again from where the responder waits or before. */
  lemma RefusedDelivery(s: System, t: System, now: int, i: nat, k: nat)
    requires Replies(s, t, now, i, k) && Flight(s.sq)[i].base + k > s.rq.psn
    ensures var u := Delivered(t, |s.responses|, now);
      Trimmed(s.sq, u.sq, 0) && Working(u, now) && InStep(u)
  {
    hide Truthful, AllSendable, Narrow, JustOut, ReceiveResponse, SQI.Inv, ResponderOk, Trimmed;
    LogNotEmpty(s, i, k);
    Sound(s);
    RefusedStep(s.sq, Flight(s.sq)[i].base + k, now);
    DeliveryWorks(s, t, now, i, k, 0);
    var u := Delivered(t, |s.responses|, now);
    hide Working;
    forall j | 0 <= j < |u.sq.sending| ensures u.sq.sending[j].sent <= 0 || u.sq.sending[j].base + u.sq.sending[j].sent <= u.rq.psn {
      AckedBefore(s, j, now);
    }
  }

  lemma AckedBefore(s: System, j: nat, now: int)
    requires Working(s, now) && j < |Flight(s.sq)|
    ensures var e := Flight(s.sq)[j]; e.ack <= 0 || e.base + e.ack <= s.rq.psn
  {
    hide Safe, TimeAfter;
    var e := Flight(s.sq)[j];
    assert Sendable(e, now) && Behind(e, s.rq.psn);
  }

  /** Send, add a receive entry, deliver, answer, deliver the answer. */
  function RoundOf(request: nat, response: nat, now: int): seq<Action> {
    [RunSender(now, Success)] + (MiddleActions(request) + [DeliverResponse(response, now, 0, Success)])
  }

  /** `t` comes a round after `s`: the first `m` requests of its flight are retired with success. */
  ghost predicate RoundLater(s: System, t: System, m: nat) {
    && m <= |Flight(s.sq)| && t.sq.waiting == [] && t.sq.nrContig == 0
    && t.sq.retired == s.sq.retired + Records(Flight(s.sq)[..m], Success)
    && |t.sq.sending| == |Flight(s.sq)| - m
    && (forall j :: 0 <= j < |t.sq.sending| ==> ItemOf(t.sq.sending[j]) == ItemOf(Flight(s.sq)[m + j]))
    && |t.requests| == |s.requests| + 1 && |t.responses| == |s.responses| + 1
  }

  lemma SameRecords(a: seq<Swqe>, b: seq<Swqe>)
    requires |a| == |b| && forall i :: 0 <= i < |a| ==> ItemOf(a[i]) == ItemOf(b[i])
    ensures Records(a, Success) == Records(b, Success)
  {
    forall i | 0 <= i < |a| ensures Records(a, Success)[i] == Records(b, Success)[i] {
      assert ItemOf(a[i]).wr == ItemOf(b[i]).wr;
    }
  }

  /** From the turn to the end of the round. */
  lemma TrimmedLater(s: System, s1: System, t: System, m: nat)
    requires SameElse(s.sq, s1.sq) && SameRequests(Flight(s.sq), Flight(s1.sq)) && Trimmed(s1.sq, t.sq, m)
    requires |t.requests| == |s.requests| + 1 && |t.responses| == |s.responses| + 1
    ensures RoundLater(s, t, m)
  {
    hide Records;
    SameRecords(Flight(s.sq)[..m], Flight(s1.sq)[..m]);
  }

  /** The round as a run. */
  lemma RoundRuns(s: System, now: int)
    requires SlotsOk(s.rq)
    requires var s1, request := Transmitted(s, now, Success), |s.requests|;
      && |s1.requests| == request + 1 && Legal(s1, MiddleActions(request))
      && var t := Run(s1, MiddleActions(request));
         |s.responses| < |t.responses| && SlotsOk(t.rq) && InWindow(t.sq, t.responses[|s.responses|].psn)
    ensures Legal(s, RoundOf(|s.requests|, |s.responses|, now))
    ensures Run(s, RoundOf(|s.requests|, |s.responses|, now))
         == Delivered(Run(Transmitted(s, now, Success), MiddleActions(|s.requests|)), |s.responses|, now)
  {
    hide MiddleActions, Transmitted, InWindow, ReceiveResponse, Legal, Run;
    var a, b, c := RunSender(now, Success), MiddleActions(|s.requests|), DeliverResponse(|s.responses|, now, 0, Success);
    LossFree.RunOne(s, a);
    LossFree.RunThen(Transmitted(s, now, Success), b, c);
    LossFree.RunJoin(s, [a], b + [c]);
  }

  /** How a round ends: with the packet taken, or refused and all to be sent again. */
  ghost predicate RoundEnds(s: System, s1: System, t: System, now: int, i: nat, k: nat) {
    && Working(t, now) && Working(s1, now) && OnItsWay(s1, i, k)
    && (if Flight(s1.sq)[i].base + k <= s.rq.psn
        then Trimmed(s1.sq, t.sq, DoneBy(Flight(s1.sq), i, k)) && SameSent(s1.sq, t.sq, DoneBy(Flight(s1.sq), i, k))
        else Trimmed(s1.sq, t.sq, 0) && InStep(t))
    && t.rq.psn == (if Flight(s1.sq)[i].base + k == s.rq.psn then s.rq.psn + 1 else s.rq.psn)
    && |t.requests| == |s.requests| + 1 && |t.responses| == |s.responses| + 1
  }

  lemma RoundPlayed(s: System, now: int) returns (i: nat, k: nat)
    requires Working(s, now) && SomethingToSend(s.sq, now) && s.sq.nrContig <= MAX_CONTIG_REQUESTS
    ensures Legal(s, RoundOf(|s.requests|, |s.responses|, now)) && TurnOf(s.sq, now, i, k)
    ensures RoundEnds(s, Transmitted(s, now, Success), Run(s, RoundOf(|s.requests|, |s.responses|, now)), now, i, k)
    ensures Transmitted(s, now, Success).sq == Schedule(s.sq, now, Success).0
  {
    hide Working, OnItsWay, Transmitted, MiddleActions, Legal, Run, TurnOf, SomethingToSend, Trimmed, InStep, SameSent, Schedule, RoundOf, ReceiveResponse, InWindow, Truthful;
    i, k := SenderStep(s, now);
    var s1 := Transmitted(s, now, Success);
    LogNotEmpty(s1, i, k);
    AnswerSteps(s1, i, k, now);
    var t := Run(s1, MiddleActions(|s.requests|));
    if Flight(s1.sq)[i].base + k <= s.rq.psn {
      AcceptedDelivery(s1, t, now, i, k);
      DeliveryWorks(s1, t, now, i, k, DoneBy(Flight(s1.sq), i, k));
    } else {
      RefusedDelivery(s1, t, now, i, k);
      DeliveryWorks(s1, t, now, i, k, 0);
    }
    WorkingSlots(s, now);
    RoundRuns(s, now);
  }

  lemma WorkingSlots(s: System, now: int)
    requires Working(s, now)
    ensures SlotsOk(s.rq)
  {
    hide Truthful;
    Sound(s);
  }
}
