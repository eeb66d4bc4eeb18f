/**
  What does get done: exactly when the responder executes the packet it expects, that a message
  whose packets arrive in order is delivered and acknowledged, and exactly which requests an
  acknowledge completes.
 */
module ProtocolProgress {
  import opened Psn
  import opened OpCode
  import opened WorkRequest
  import opened SendQueue
  import opened SendQueueInvariant
  import opened ReceiveQueue
  import opened ReceiveQueueInvariant
  import opened Protocol
  import opened ResponderExecution
  import opened AckTruth
  import opened ProtocolRequests
  import opened ProtocolResponses
  import SendQueueRuns

  /** The responder has what packet `k` of `item` needs. */
  predicate Serves(r: Rq, item: Item, k: nat, mem: WcStatus) {
    && mem == Success
    && (IsSend(item.wr.opcode) ==> r.receives > 0)
    && (item.wr.opcode == WrWriteImm && k + 1 == item.all ==> r.receives > 0)
    && (IsRdAtomic(item.wr.opcode) ==> r.nrRdAtomic < r.attr.maxDest)
    && (IsAtomic(item.wr.opcode) ==> item.wr.raddr % 8 == 0)
  }

  lemma SendServedIff(r: Rq, item: Item, k: nat, mem: WcStatus)
    requires Poised(r, item, k) && IsSend(item.wr.opcode) && GatherOk(r.attr.mtu, item.wr, item.all, k)
    ensures ReceiveSend(r, PacketOf(r.attr.mtu, item, k), mem).psn != r.psn <==> Serves(r, item, k, mem)
  {
    OpcodeShape(item.wr.opcode, item.all, k);
    SizesAccepted(r.attr.mtu, item, k);
    hide Chunk, RequestOpcode, SizeOk, PushAck, JoinChunks, NumPackets, Initial, Final, CarriesImm, HasReth;
    var packet := PacketOf(r.attr.mtu, item, k);
    var r1 := if Initial(packet.op) then r.(offset := 0, partial := []) else r;
    PushAckFields(r1, packet.psn, RnrSyndrome(r.attr));
  }

  /** With the RDMA header off, what is left to check is the receive entry and the memory. */
  lemma WriteBodyServedIff(r: Rq, packet: Request, size1: int, mem: WcStatus)
    requires SizeOk(r.attr.mtu, packet.op, |packet.payload|)
    requires size1 == |packet.payload| + if CarriesImm(packet.op) then IMM_SIZE else 0
    requires r.offset + |packet.payload| <= r.writeLen <= MAX_PAYLOAD_LEN
    requires Final(packet.op) ==> r.writeLen == r.offset + |packet.payload|
    ensures WriteBody(r, packet, size1, mem).psn != r.psn <==> mem == Success && (CarriesImm(packet.op) ==> r.receives > 0)
  {
    hide SizeOk, PushAck, Final, CarriesImm, Add64, RnrSyndrome;
    PushAckFields(r, packet.psn, RnrSyndrome(r.attr));
  }

  lemma WriteServedIff(r: Rq, item: Item, k: nat, mem: WcStatus)
    requires Poised(r, item, k) && IsWrite(item.wr.opcode) && GatherOk(r.attr.mtu, item.wr, item.all, k)
    ensures ReceiveWrite(r, PacketOf(r.attr.mtu, item, k), mem).psn != r.psn <==> Serves(r, item, k, mem)
  {
    OpcodeShape(item.wr.opcode, item.all, k);
    SizesAccepted(r.attr.mtu, item, k);
    hide Chunk, RequestOpcode, SizeOk, JoinChunks, NumPackets, Initial, Final, CarriesImm, HasReth, AttrOf, WriteBody;
    var packet := PacketOf(r.attr.mtu, item, k);
    var r1 := if Initial(packet.op)
      then r.(offset := 0, writeVaddr := packet.vaddr, writeRkey := packet.rkey, writeLen := packet.dmalen) else r;
    WriteBodyServedIff(r1, packet, if Initial(packet.op) then packet.size - RETH_SIZE else packet.size, mem);
  }

  lemma AtomicServedIff(r: Rq, item: Item, mem: WcStatus, result: int)
    requires LocalInv(r) && Poised(r, item, 0) && IsAtomic(item.wr.opcode)
    ensures SlotsOk(r)
    ensures ReceiveAtomicRequest(r, PacketOf(r.attr.mtu, item, 0), mem, result).psn != r.psn <==> Serves(r, item, 0, mem)
  {
    hide SlotAt, NumPackets, Chunk;
  }

  lemma ReadServedIff(r: Rq, item: Item, mem: WcStatus)
    requires LocalInv(r) && RecvOk(r.state) && Poised(r, item, 0) && item.wr.opcode == WrRead
    ensures SlotsOk(r)
    ensures ReceiveNewRead(r, PacketOf(r.attr.mtu, item, 0), mem).psn != r.psn <==> Serves(r, item, 0, mem)
  {
    SlotsOkFromLocal(r);
    hide ServeRead, LocalInv, SlotAt, NumPackets, Chunk, MidMessage;
    var packet := PacketOf(r.attr.mtu, item, 0);
    if ReadRequestOk(packet, mem) && r.nrRdAtomic < r.attr.maxDest {
      FreshReadServed(r, packet, mem);
    }
  }

  lemma ExpectedServedIff(r: Rq, plan: seq<Item>, end: int, done: nat, part: nat, q: Sent, mem: WcStatus, result: int)
    requires ResponderOk(r, plan, end, done, part) && Genuine(r.attr.mtu, plan, q)
    requires q.packet.psn == r.psn && RecvOk(r.state) && SlotsOk(r)
    ensures ReceiveExpected(r, q.packet, mem, result).psn != r.psn <==> Serves(r, plan[q.item], q.k, mem)
  {
    hide ReceiveNewRead, ReceiveAtomicRequest, ReceiveSend, ReceiveWrite, Poised, PacketOf, GatherOk, InOrder, Serves, ResponderOk;
    LocalFromResponder(r, plan, end, done, part);
    ExpectedIsNext(r, plan, end, done, part, q);
    GenuineFacts(r.attr.mtu, plan, q);
    NextInOrder(r, plan[done], part);
    var opcode := plan[done].wr.opcode;
    if opcode == WrRead {
      ReadServedIff(r, plan[done], mem);
    } else if IsAtomic(opcode) {
      AtomicServedIff(r, plan[done], mem, result);
    } else {
      OpcodeShape(opcode, plan[done].all, part);
      if IsSend(opcode) {
        SendServedIff(r, plan[done], part, mem);
      } else {
        WriteServedIff(r, plan[done], part, mem);
      }
    }
  }

  lemma LocalFromResponder(r: Rq, plan: seq<Item>, end: int, done: nat, part: nat)
    requires ResponderOk(r, plan, end, done, part)
    ensures LocalInv(r)
  {
  }

  /** The expected packet is executed if and only if the responder has what it needs. */
  lemma ExecutedIff(r: Rq, plan: seq<Item>, end: int, done: nat, part: nat, q: Sent, mem: WcStatus, result: int)
    requires ResponderOk(r, plan, end, done, part) && Genuine(r.attr.mtu, plan, q)
    requires q.packet.psn == r.psn
    ensures SlotsOk(r)
    ensures ReceiveRequest(r, q.packet, mem, result).psn != r.psn <==> RecvOk(r.state) && Serves(r, plan[q.item], q.k, mem)
  {
    hide ReceiveExpected, ReceiveOld, Serves, PsnDiff, ResponderOk, PushAck;
    PoisedSlots(r, plan, end, done, part);
    DiffExact(q.packet.psn, r.psn);
    if RecvOk(r.state) {
      ExpectedServedIff(r, plan, end, done, part, q, mem, result);
    }
  }

  // ---------------------------------------------------------------------------
  // A message without loss

  /** What one packet of a SEND leaves besides the history: ready for the next one, and acknowledged. */
  lemma SendLeaves(r: Rq, item: Item, k: nat, mem: WcStatus)
    requires Poised(r, item, k) && IsSend(item.wr.opcode) && GatherOk(r.attr.mtu, item.wr, item.all, k)
    requires Serves(r, item, k, mem)
    ensures var t := ReceiveSend(r, PacketOf(r.attr.mtu, item, k), mem);
      && t.state == r.state && t.receives == (if k + 1 < item.all then r.receives else r.receives - 1)
      && t.acks != [] && Acknowledges(t.acks[|t.acks| - 1], item.base + k)
      && (r.acks == [] ==> t.acks == [NormalAck(item.base + k, item.base + k + 1, SYND_ACK)])
  {
    hide Chunk, RequestOpcode, SizeOk, JoinChunks, NumPackets, Initial, Final, CarriesImm, HasReth, PushAck, SyndromeClass, RnrSyndrome;
    OpcodeShape(item.wr.opcode, item.all, k);
    SizesAccepted(r.attr.mtu, item, k);
    var packet := PacketOf(r.attr.mtu, item, k);
    var r1 := if Initial(packet.op) then r.(offset := 0, partial := []) else r;
    var r2 := PlaceSend(r1, packet, |packet.payload|);
    PushAckFields(r2, packet.psn, SYND_ACK);
    PushAckLast(r2, packet.psn);
    assert ReceiveSend(r, packet, mem) == Advance(r2, packet);
  }

  /** `a` is an ACK for `psn`. */
  predicate Acknowledges(a: Ack, psn: int) {
    a.NormalAck? && a.psn == psn && SyndromeClass(a.syndrome) == SYND_ACK
  }

  lemma PushAckLast(r: Rq, psn: int)
    ensures var t := PushAck(r, psn, SYND_ACK); t.acks != [] && Acknowledges(t.acks[|t.acks| - 1], psn)
    ensures r.acks == [] ==> PushAck(r, psn, SYND_ACK).acks == [NormalAck(psn, psn + 1, SYND_ACK)]
  {
    AckCodes();
  }

  /** The responder's states while the packets of `item` arrive one after the other and find their memory. */
  ghost predicate Arrive(rs: seq<Rq>, item: Item, n: nat) {
    && |rs| == n + 1
    && forall i, j :: 0 <= i < |rs| && j == i + 1 && j < |rs| ==>
         SlotsOk(rs[i]) && rs[j] == ReceiveRequest(rs[i], PacketOf(rs[0].attr.mtu, item, i), Success, 0)
  }

  lemma ArrivedStep(rs: seq<Rq>, item: Item, n: nat, i: nat)
    requires Arrive(rs, item, n) && i < n
    ensures SlotsOk(rs[i]) && rs[i + 1] == ReceiveRequest(rs[i], PacketOf(rs[0].attr.mtu, item, i), Success, 0)
  {
    hide ReceiveRequest, PacketOf;
    var j := i + 1;
    assert rs[j] == rs[i + 1];
  }

  ghost predicate Deliverable(mtu: Mtu, item: Item) {
    IsSend(item.wr.opcode) && forall k :: 0 <= k < item.all ==> GatherOk(mtu, item.wr, item.all, k)
  }

  /** One packet of the message. */
  lemma OneArrives(r: Rq, t: Rq, plan: seq<Item>, end: int, done: nat, k: nat)
    requires ResponderOk(r, plan, end, done, k) && done < |plan| && k < plan[done].all
    requires Deliverable(r.attr.mtu, plan[done]) && RecvOk(r.state) && r.receives > 0
    requires SlotsOk(r) && t == ReceiveRequest(r, PacketOf(r.attr.mtu, plan[done], k), Success, 0)
    ensures t.psn == r.psn + 1 && RecvOk(t.state) && t.receives == (if k + 1 < plan[done].all then r.receives else r.receives - 1)
    ensures var (done', part') := NextPosition(plan, done, k); t.attr == r.attr && ResponderOk(t, plan, end, done', part')
    ensures t.acks != [] && Acknowledges(t.acks[|t.acks| - 1], plan[done].base + k)
    ensures r.acks == [] ==> t.acks == [NormalAck(plan[done].base + k, plan[done].base + k + 1, SYND_ACK)]
  {
    hide ReceiveRequest, ReceiveSend, PacketOf, LocalInv, AcksTrue, ReadsAscend, Poised, Acknowledges, Later;
    hide IdealEffects, EffectsOf, IdealMessages, RecordsMatch, MidMessage, GatherOk;
    var item := plan[done];
    var q := Sent(PacketOf(r.attr.mtu, item, k), done, k, 0);
    SendIsGenuine(r, plan, end, done, k, q);
    ExecutedIff(r, plan, end, done, k, q, Success, 0);
    RequestReceived(r, plan, end, done, k, q, Success, 0);
    ArrivesAsSend(r, plan, end, done, k, q);
    SendLeaves(r, item, k, Success);
    LocalFromResponder(r, plan, end, done, k);
    ReceiveRequestKeeps(r, q.packet, Success, 0);
  }

  lemma SendIsGenuine(r: Rq, plan: seq<Item>, end: int, done: nat, k: nat, q: Sent)
    requires ResponderOk(r, plan, end, done, k) && done < |plan| && k < plan[done].all
    requires Deliverable(r.attr.mtu, plan[done]) && q == Sent(PacketOf(r.attr.mtu, plan[done], k), done, k, 0)
    ensures Genuine(r.attr.mtu, plan, q) && q.packet.psn == r.psn && Close(q.packet.psn, r.psn)
  {
    hide AcksTrue, ReadsAscend, LocalInv, IdealEffects, EffectsOf, IdealMessages, RecordsMatch, GatherOk, RequestOpcode, Chunk;
    StartsAtBase(r.attr.mtu, plan, r.attr.origin, end, done);
  }

  lemma ArrivesAsSend(r: Rq, plan: seq<Item>, end: int, done: nat, k: nat, q: Sent)
    requires ResponderOk(r, plan, end, done, k) && Genuine(r.attr.mtu, plan, q) && q.item == done
    requires q.packet.psn == r.psn && RecvOk(r.state) && SlotsOk(r) && IsSend(plan[done].wr.opcode)
    ensures Poised(r, plan[done], k) && q.k == k
    ensures ReceiveRequest(r, q.packet, Success, 0) == ReceiveSend(r, q.packet, Success)
  {
    hide ReceiveNewRead, ReceiveAtomicRequest, ReceiveSend, ReceiveWrite, ReceiveOld, Poised, PacketOf, GatherOk, InOrder, ResponderOk, PsnDiff, PushAck;
    ExpectedIsNext(r, plan, end, done, k, q);
    GenuineFacts(r.attr.mtu, plan, q);
    NextInOrder(r, plan[done], k);
    OpcodeShape(plan[done].wr.opcode, plan[done].all, k);
    DiffExact(q.packet.psn, r.psn);
  }

  /** While the message arrives the responder stays ready for its next packet. */
  lemma {:induction false} ArrivedSoFar(rs: seq<Rq>, plan: seq<Item>, end: int, done: nat, k: nat)
    requires done < |plan| && Arrive(rs, plan[done], plan[done].all) && k < plan[done].all
    requires ResponderOk(rs[0], plan, end, done, 0) && RecvOk(rs[0].state) && rs[0].receives > 0
    requires Deliverable(rs[0].attr.mtu, plan[done])
    ensures rs[k].attr == rs[0].attr && ResponderOk(rs[k], plan, end, done, k) && RecvOk(rs[k].state) && rs[k].receives > 0
  {
    hide ResponderOk, ReceiveRequest, PacketOf, Acknowledges, GatherOk;
    if k > 0 {
      ArrivedSoFar(rs, plan, end, done, k - 1);
      ArrivedStep(rs, plan[done], plan[done].all, k - 1);
      OneArrives(rs[k - 1], rs[k], plan, end, done, k - 1);
    }
  }

  /**
    A SEND whose packets arrive in order at a responder with a receive entry is delivered: the
    receiver gets the whole message, and the acknowledge queued last names its last PSN.
   */
  lemma InOrderMessageDelivered(rs: seq<Rq>, plan: seq<Item>, end: int, done: nat)
    requires done < |plan| && Arrive(rs, plan[done], plan[done].all) && plan[done].all >= 1
    requires ResponderOk(rs[0], plan, end, done, 0) && RecvOk(rs[0].state) && rs[0].receives > 0
    requires Deliverable(rs[0].attr.mtu, plan[done])
    ensures var item, t := plan[done], rs[plan[done].all];
      && RecvOk(t.state) && ResponderOk(t, plan, end, done + 1, 0)
      && t.inbox == rs[0].inbox + [item.wr.data[..Clamp(item.wr.length, |item.wr.data|)]]
      && t.acks != [] && Acknowledges(t.acks[|t.acks| - 1], item.End() - 1)
  {
    hide ReceiveRequest, PacketOf, Acknowledges, GatherOk, LocalInv, AcksTrue, ReadsAscend, PlanOk;
    hide IdealEffects, EffectsOf, IdealMessages, RecordsMatch, MidMessage, Clamp;
    var n := plan[done].all;
    ArrivedSoFar(rs, plan, end, done, n - 1);
    ArrivedStep(rs, plan[done], n, n - 1);
    OneArrives(rs[n - 1], rs[n], plan, end, done, n - 1);
    assert plan[..done + 1] == plan[..done] + [plan[done]];
    IdealLast(rs[0].attr.mtu, plan[..done], plan[done]);
  }

  // ---------------------------------------------------------------------------
  // An RDMA READ answered

  function ReadKind(n: nat, i: nat): ResponseKind {
    if n == 1 then ReadOnlyKind else if i == 0 then ReadFirstKind else if i + 1 == n then ReadLastKind else ReadMiddleKind
  }

  /** Response `i` of `n` for `size` bytes at `vaddr`. */
  predicate AnswerOf(mtu: Mtu, a: Ack, n: nat, i: nat, r: Response)
    requires a.ReadAck? && a.size >= 0
  {
    && r.psn == a.psn + i && r.kind == ReadKind(n, i) && r.rkey == a.rkey
    && r.vaddr == Add64(a.vaddr, i * mtu) && r.length == PayloadSize(mtu, a.size, n, i)
  }

  lemma OneAnswer(mtu: Mtu, a: Ack, n: nat, i: nat)
    requires a.ReadAck? && 0 <= a.size <= MAX_PAYLOAD_LEN && n == NumPackets(mtu, a.size) && a.expected == a.psn + n && i < n
    ensures var r := ReadResponse(mtu, a.(offset := i * mtu));
      && AnswerOf(mtu, a, n, i, r)
      && (i + 1 < n ==> i * mtu + r.length == (i + 1) * mtu < a.size)
      && (i + 1 == n ==> i * mtu + r.length == a.size)
  {
    NumPacketsLimit(mtu, a.size);
    PacketFits(mtu, a.size, i);
    DivExact(i, mtu);
    DiffExact(a.expected, a.psn);
    DiffExact(a.expected, a.psn + i);
    hide NumPackets, PsnDiff, Add64;
  }

  /** The responder after `i` turns; before turn j the peer's leave to go on arrives if `clears[j]`. */
  function Play(r: Rq, clears: seq<bool>, i: nat): Rq
    requires i <= |clears|
    decreases i, 0
  {
    if i == 0 then r else Generate(Cleared(r, clears, i - 1), true).0
  }

  /** The responder just before it takes turn `i`. */
  function Cleared(r: Rq, clears: seq<bool>, i: nat): Rq
    requires i < |clears|
    decreases i, 1
  {
    var q := Play(r, clears, i);
    if clears[i] then ReceiveCnp(q) else q
  }

  /** The packets of the first `i` turns. */
  function Outs(r: Rq, clears: seq<bool>, i: nat): seq<Response>
    requires i <= |clears|
  {
    if i == 0 then []
    else
      var out := Generate(Cleared(r, clears, i - 1), true).1;
      Outs(r, clears, i - 1) + if out.Some? then [out.value] else []
  }

  /** Responses in a row before turn `i`, from `c` at the start, as long as none is held back. */
  function InARow(c: int, clears: seq<bool>, i: nat): int
    requires i < |clears|
  {
    if clears[i] then 0 else if i == 0 then c else InARow(c, clears, i - 1) + 1
  }

  /** Leave to go on comes before any turn would be one response too many. */
  ghost predicate ClearedOften(c: int, clears: seq<bool>, n: nat)
    requires n <= |clears|
  {
    forall i :: 0 <= i < n ==> InARow(c, clears, i) <= MAX_CONTIG_READ_ACKS
  }

  /** An RDMA READ of `n` packets at the head of the queue, nothing of it answered. */
  predicate ReadAtHead(r: Rq, a: Ack, n: nat) {
    && RecvOk(r.state) && r.acks != [] && r.acks[0] == a
    && a.ReadAck? && a.offset == 0 && 0 <= a.size <= MAX_PAYLOAD_LEN
    && n == NumPackets(r.attr.mtu, a.size) && a.expected == a.psn + n
  }

  /** `r` with `k` packets of the READ at its head answered. */
  function ReadProgress(r: Rq, a: Ack, n: nat, k: nat, contig: int): Rq
    requires ReadAtHead(r, a, n) && k <= n
  {
    if k < n then r.(acks := r.acks[0 := a.(offset := k * r.attr.mtu)], nrContigReads := contig)
    else r.(acks := r.acks[1..], nrRdAtomic := r.nrRdAtomic - 1, nrContigReads := contig)
  }

  /** One turn with `k` packets answered: the next one, or none if too many went out in a row. */
  lemma OneTurn(r: Rq, a: Ack, n: nat, k: nat, contig: int)
    requires ReadAtHead(r, a, n) && k < n
    ensures var (t, out) := Generate(ReadProgress(r, a, n, k, contig), true);
      if contig <= MAX_CONTIG_READ_ACKS
      then t == ReadProgress(r, a, n, k + 1, contig + 1) && out.Some? && AnswerOf(r.attr.mtu, a, n, k, out.value)
      else t == ReadProgress(r, a, n, k, contig) && out == None
  {
    OneAnswer(r.attr.mtu, a, n, k);
    hide NumPackets, ReadResponse, AnswerOf;
  }

  /** While leave comes often enough, every turn answers one packet. */
  lemma {:induction false} AnsweredSoFar(r: Rq, a: Ack, n: nat, clears: seq<bool>, i: nat)
    requires ReadAtHead(r, a, n) && i <= n <= |clears| && ClearedOften(r.nrContigReads, clears, i)
    ensures Play(r, clears, i)
      == ReadProgress(r, a, n, i, if i == 0 then r.nrContigReads else InARow(r.nrContigReads, clears, i - 1) + 1)
    ensures |Outs(r, clears, i)| == i
    ensures forall j :: 0 <= j < i ==> AnswerOf(r.attr.mtu, a, n, j, Outs(r, clears, i)[j])
  {
    hide NumPackets, AnswerOf, Generate;
    if i == 0 {
      assert a.(offset := i * r.attr.mtu) == a && r.acks[0 := a] == r.acks;
    } else {
      AnsweredSoFar(r, a, n, clears, i - 1);
      ClearedIs(r, a, n, clears, i - 1);
      OneTurn(r, a, n, i - 1, InARow(r.nrContigReads, clears, i - 1));
    }
  }

  lemma ClearedIs(r: Rq, a: Ack, n: nat, clears: seq<bool>, i: nat)
    requires ReadAtHead(r, a, n) && i < n <= |clears|
    requires Play(r, clears, i)
      == ReadProgress(r, a, n, i, if i == 0 then r.nrContigReads else InARow(r.nrContigReads, clears, i - 1) + 1)
    ensures Cleared(r, clears, i) == ReadProgress(r, a, n, i, InARow(r.nrContigReads, clears, i))
  {
    hide NumPackets, Generate, Play;
  }

  /** Held back once, the READ stays behind the number of turns. */
  lemma {:induction false} FallsBehind(r: Rq, a: Ack, n: nat, clears: seq<bool>, i: nat) returns (k: nat, contig: int)
    requires ReadAtHead(r, a, n) && i <= n <= |clears| && !ClearedOften(r.nrContigReads, clears, i)
    ensures k < i && Play(r, clears, i) == ReadProgress(r, a, n, k, contig)
  {
    hide NumPackets, AnswerOf, Generate;
    if ClearedOften(r.nrContigReads, clears, i - 1) {
      AnsweredSoFar(r, a, n, clears, i - 1);
      ClearedIs(r, a, n, clears, i - 1);
      k, contig := i - 1, InARow(r.nrContigReads, clears, i - 1);
      OneTurn(r, a, n, k, contig);
    } else {
      k, contig := FallsBehind(r, a, n, clears, i - 1);
      if clears[i - 1] {
        contig := 0;
      }
      OneTurn(r, a, n, k, contig);
      if contig <= MAX_CONTIG_READ_ACKS {
        k, contig := k + 1, contig + 1;
      }
    }
  }

  /**
    An RDMA READ at the head of the queue is answered in full by as many turns as it has packets if
    and only if leave to go on comes often enough; then there is exactly one response for each PSN,
    in order, each with its share of the remote bytes.
   */
  lemma ReadAnsweredIff(r: Rq, a: Ack, n: nat, clears: seq<bool>)
    requires ReadAtHead(r, a, n) && |clears| == n
    ensures Play(r, clears, n).acks == r.acks[1..] <==> ClearedOften(r.nrContigReads, clears, n)
    ensures ClearedOften(r.nrContigReads, clears, n) ==>
      && |Outs(r, clears, n)| == n
      && forall j :: 0 <= j < n ==> AnswerOf(r.attr.mtu, a, n, j, Outs(r, clears, n)[j])
  {
    hide NumPackets, AnswerOf, Generate, Play, Outs;
    if ClearedOften(r.nrContigReads, clears, n) {
      AnsweredSoFar(r, a, n, clears, n);
    } else {
      var k, contig := FallsBehind(r, a, n, clears, n);
      assert |ReadProgress(r, a, n, k, contig).acks| == |r.acks|;
    }
  }

  lemma {:induction false} NeverCleared(c: int, clears: seq<bool>, i: nat)
    requires i < |clears| && forall j :: 0 <= j < |clears| ==> !clears[j]
    ensures InARow(c, clears, i) == c + i
  {
    if i > 0 {
      NeverCleared(c, clears, i - 1);
    }
  }

  /** Answering 64 packets with no leave in between brings the counter to its limit. */
  lemma SixtyFourInARow(r: Rq, a: Ack, n: nat, clears: seq<bool>)
    requires ReadAtHead(r, a, n) && |clears| == n == MAX_CONTIG_READ_ACKS && r.nrContigReads == 0
    requires forall j :: 0 <= j < n ==> !clears[j]
    ensures Play(r, clears, n) == r.(acks := r.acks[1..], nrRdAtomic := r.nrRdAtomic - 1, nrContigReads := MAX_CONTIG_READ_ACKS)
  {
    hide NumPackets, Play, InARow, Outs, AnswerOf;
    forall i | 0 <= i < n ensures InARow(0, clears, i) == i {
      NeverCleared(0, clears, i);
    }
    AnsweredSoFar(r, a, n, clears, n);
  }

  /** With no leave at all, 65 responses go out: a READ of more packets than that is left unfinished. */
  lemma UnclearedReadIff(r: Rq, a: Ack, n: nat, clears: seq<bool>)
    requires ReadAtHead(r, a, n) && |clears| == n && r.nrContigReads == 0
    requires forall j :: 0 <= j < n ==> !clears[j]
    ensures Play(r, clears, n).acks == r.acks[1..] <==> n <= MAX_CONTIG_READ_ACKS + 1
  {
    hide NumPackets, Play, InARow;
    ReadAnsweredIff(r, a, n, clears);
    forall i | 0 <= i < n ensures InARow(0, clears, i) == i {
      NeverCleared(0, clears, i);
    }
    if n > MAX_CONTIG_READ_ACKS + 1 {
      assert InARow(0, clears, n - 1) == n - 1;
    }
  }

  // ---------------------------------------------------------------------------
  // What an acknowledge completes

  /** Entry `e` can be completed by an ACK for `psn`. */
  predicate CompletedBy(e: Swqe, psn: int) {
    e.status == Success && !IsRdAtomic(e.wr.opcode) && e.expected <= psn + 1
  }

  lemma {:induction false} AckRunIff(q: seq<Swqe>, psn: int, i: nat)
    requires i < |q|
    ensures i < AckRun(q, psn) <==> forall j :: 0 <= j <= i ==> JudgeAck(q[j], psn).0 == Completed
    decreases |q|
  {
    hide JudgeAck;
    if i > 0 && JudgeAck(q[0], psn).0 == Completed {
      AckRunIff(q[1..], psn, i - 1);
      assert forall j :: 0 <= j < |q| - 1 ==> q[1..][j] == q[j + 1];
      if forall j :: 0 <= j <= i - 1 ==> JudgeAck(q[1..][j], psn).0 == Completed {
        forall j | 0 <= j <= i ensures JudgeAck(q[j], psn).0 == Completed {
          if j > 0 {
            assert q[j] == q[1..][j - 1];
          }
        }
      }
    }
  }

  lemma JudgedIff(s: Sq, psn: int, i: nat)
    requires Inv(s) && InWindow(s, psn) && i < |Flight(s)|
    ensures JudgeAck(Flight(s)[i], psn).0 == Completed <==> CompletedBy(Flight(s)[i], psn)
  {
    hide Conserved, RdCounted, Fenced, Planned, PlanTiled, SubmittedOk, Counted, PsnDiff;
    var e := Flight(s)[i];
    assert if i < |s.waiting| then e == s.waiting[i] else e == s.sending[i - |s.waiting|];
    DiffExact(psn, e.base);
  }

  /** Between `s` and `t`, request `i` in flight was retired with success. */
  predicate Completes(s: Sq, t: Sq, i: nat)
    requires i < |Flight(s)|
  {
    |s.retired| + i < |t.retired| && t.retired[|s.retired| + i] == Retired(Flight(s)[i].wr, Success)
  }

  lemma AckRetires(s: Sq, psn: int, now: int, i: nat)
    requires i < |Flight(s)|
    ensures Completes(s, ReceiveAck(s, psn, now), i) <==> i < AckRun(Flight(s), psn)
  {
    hide AckRun, ReceiveAck, CompleteRun, Flight;
    var k := AckRun(Flight(s), psn);
    ReceiveAckSucceeds(s, psn, now);
    AckRunFirst(s, psn, now);
    CompleteRunRetires(s, k);
    if i < k {
      assert Records(Flight(s)[..k], Success)[i] == Retired(Flight(s)[i].wr, Success);
    }
  }

  lemma CompleteRunRetires(s: Sq, k: nat)
    requires k <= |Flight(s)|
    ensures CompleteRun(s, k).retired == s.retired + Records(Flight(s)[..k], Success)
  {
    hide Reports, Records;
  }

  lemma AckRunFirst(s: Sq, psn: int, now: int)
    ensures CompleteRun(s, AckRun(Flight(s), psn)).retired <= ReceiveAck(s, psn, now).retired
  {
    hide FailHead, AckRun, JudgeAck, CompleteRun;
    var q := Flight(s);
    var k := AckRun(q, psn);
    var s1 := CompleteRun(s, k);
    CompleteRunSucceeds(s, k);
    if k < |q| {
      var (verdict, e) := JudgeAck(q[k], psn);
      SetFields(s1, 0, e);
      SendQueueRuns.FailHeadExtends(SetFlight(s1, 0, e), e.status);
    }
  }

  /**
    An ACK retires request `i` in flight with success if and only if it covers it and every request
    before it, and none of them is an unfinished RDMA READ or atomic or marked in error.
   */
  lemma AckCompletesIff(s: Sq, psn: int, now: int, i: nat)
    requires Inv(s) && InWindow(s, psn) && i < |Flight(s)|
    ensures Completes(s, ReceiveAck(s, psn, now), i) <==> forall j :: 0 <= j <= i ==> CompletedBy(Flight(s)[j], psn)
  {
    hide Inv, InWindow, JudgeAck, CompletedBy, AckRun, Flight, ReceiveAck, Completes;
    AckRetires(s, psn, now, i);
    AckRunIff(Flight(s), psn, i);
    forall j | 0 <= j <= i ensures JudgeAck(Flight(s)[j], psn).0 == Completed <==> CompletedBy(Flight(s)[j], psn) {
      JudgedIff(s, psn, j);
    }
  }

  // ---------------------------------------------------------------------------
  // What a NAK completes

  /** The NAK codes receive_response has a case for. */
  predicate KnownNak(syndrome: int) {
    syndrome == SYND_PSN_SEQ_ERR || NakStatus(syndrome).Some?
  }

  /** An entry marked in error stops the run of completions. */
  lemma MarkedStops(s: Sq, psn: int, now: int, i: nat, status: WcStatus)
    requires i < |Flight(s)| && status != Success
    ensures !Completes(s, ReceiveAck(SetFlight(s, i, Flight(s)[i].(status := status)), psn, now), i)
  {
    hide ReceiveAck, AckRun, PsnDiff;
    var t := SetFlight(s, i, Flight(s)[i].(status := status));
    assert Flight(t) == Flight(s)[i := Flight(s)[i].(status := status)];
    AckRetires(t, psn, now, i);
    AckRunIff(Flight(t), psn, i);
    assert JudgeAck(Flight(t)[i], psn).0 == Failed;
  }

  /**
    A NAK retires the request that owns its PSN with success if and only if its code is none the
    driver knows and an ACK for that PSN would.
   */
  lemma NakCompletesIff(s: Sq, r: Response, now: int, rnrDelay: nat, mem: WcStatus, i: nat)
    requires Inv(s) && RecvOk(s.state) && InWindow(s, r.psn) && i < |Flight(s)|
    requires Flight(s)[i].base <= r.psn < Flight(s)[i].expected
    requires r.kind == AckKind && r.size >= AETH_SIZE && SyndromeClass(r.syndrome) == SYND_NAK
    ensures Completes(s, ReceiveResponse(s, r, now, rnrDelay, mem), i) <==>
      !KnownNak(r.syndrome) && forall j :: 0 <= j <= i ==> CompletedBy(Flight(s)[j], r.psn)
  {
    hide Inv, InWindow, ReceiveAck, CompletedBy, Match;
    var s0 := s.(nrContig := 0);
    NakCodes();
    if r.syndrome == SYND_PSN_SEQ_ERR {
      assert Retry(s0, 0).retired == s.retired;
    } else if NakStatus(r.syndrome).Some? {
      MatchFindsOwner(s, r.psn, i);
      MarkedStops(s0, r.psn, now, i, NakStatus(r.syndrome).value);
    } else {
      FlowAside(s);
      AckCompletesIff(s0, r.psn, now, i);
    }
  }

  lemma NakCodes()
    ensures forall c :: NakStatus(c).Some? ==> NakStatus(c).value != Success
  {
  }

  lemma FlowAside(s: Sq)
    requires Inv(s)
    ensures Inv(s.(nrContig := 0)) && Flight(s.(nrContig := 0)) == Flight(s)
    ensures forall psn :: InWindow(s, psn) ==> InWindow(s.(nrContig := 0), psn)
  {
    hide Inv;
    SideFieldsKeep(s, s.psn, 0);
    assert s.(psn := s.psn, nrContig := 0) == s.(nrContig := 0);
  }

  /** A refusal with code 0x65 for the last PSN of a lone SEND: the SEND is reported as done. */
  lemma UnknownNakCompletes(s: Sq, r: Response, now: int, rnrDelay: nat, mem: WcStatus)
    requires Inv(s) && RecvOk(s.state) && InWindow(s, r.psn) && |Flight(s)| == 1
    requires Flight(s)[0].status == Success && IsSend(Flight(s)[0].wr.opcode) && r.psn == Flight(s)[0].expected - 1
    requires r.kind == AckKind && r.size >= AETH_SIZE && r.syndrome == 0x65
    ensures Completes(s, ReceiveResponse(s, r, now, rnrDelay, mem), 0)
  {
    hide Inv, InWindow, ReceiveResponse, Completes, Match, PsnDiff, Flight;
    HeadOwns(s, r.psn);
    assert SyndromeClass(0x65) == SYND_NAK;
    NakCompletesIff(s, r, now, rnrDelay, mem, 0);
  }

  // ---------------------------------------------------------------------------
  // What RDMA READ responses and atomic acknowledges complete

  /** A PSN in the head's range is the head's, and no other PSN is. */
  lemma HeadOwns(s: Sq, psn: int)
    requires Inv(s) && InWindow(s, psn) && Flight(s) != []
    ensures var e := Flight(s)[0];
      && (Match(Flight(s), psn) == 0 <==> e.base <= psn < e.expected)
      && (PsnDiff(e.base + e.ack, psn) == 0 <==> e.base + e.ack == psn)
      && (PsnDiff(e.base, psn) == 0 <==> e.base == psn)
      && e.expected == e.base + e.all && 0 <= e.ack < e.all && (e.wr.opcode == WrRead ==> e.sent == e.ack)
  {
    hide Conserved, RdCounted, Fenced, Planned, PlanTiled, SubmittedOk, Counted, Match, PsnDiff;
    MatchFindsOwner(s, psn, 0);
    var e := Flight(s)[0];
    assert if s.waiting != [] then e == s.waiting[0] else e == s.sending[0];
    DiffExact(e.base + e.ack, psn);
    DiffExact(e.base, psn);
  }

  lemma SetFields(s: Sq, i: nat, e: Swqe)
    requires i < |Flight(s)|
    ensures SetFlight(s, i, e).retired == s.retired && SetFlight(s, i, e).attr == s.attr
    ensures i == 0 ==> Flight(SetFlight(s, i, e)) != [] && Flight(SetFlight(s, i, e))[0] == e
  {
  }

  lemma RetiresHead(s: Sq, now: int)
    requires Flight(s) != []
    ensures CompleteHead(s, now).retired == s.retired + [Retired(Flight(s)[0].wr, Success)]
  {
    hide Reports;
    assert Flight(s)[..1] == [Flight(s)[0]];
  }

  /** What the handler of RDMA READ responses retires. */
  lemma ReadTakes(s: Sq, psn: int, now: int, mem: WcStatus)
    requires Inv(s) && InWindow(s, psn) && Flight(s) != []
    ensures var e, t := Flight(s)[0], ReceiveRead(s, psn, now, mem);
      var last := e.wr.opcode == WrRead && mem == Success && e.ack + 1 == e.all && psn == e.expected - 1;
      t.retired == s.retired + if last then [Retired(e.wr, Success)] else []
  {
    hide Inv, InWindow, PsnDiff, Match, CompleteHead, SetFlight, Flight;
    HeadOwns(s, psn);
    var i, e := Match(Flight(s), psn), Flight(s)[0];
    var e' := e.(localAckTime := now + s.attr.ackTimeout, sent := e.sent + 1, ack := e.ack + 1);
    if i < |Flight(s)| {
      SetFields(s, i, Flight(s)[i].(status := BadRespErr));
      SetFields(s, 0, e.(status := mem));
      SetFields(s, 0, e');
      RetiresHead(SetFlight(s, 0, e'), now);
    }
  }

  /** What the handler of atomic acknowledges retires. */
  lemma AtomicTakes(s: Sq, psn: int, size: int, now: int, mem: WcStatus)
    requires Inv(s) && InWindow(s, psn) && Flight(s) != []
    ensures var e, t := Flight(s)[0], ReceiveAtomic(s, psn, size, now, mem);
      var mine := IsAtomic(e.wr.opcode) && mem == Success && size == ATOMIC_ACK_ETH_SIZE && psn == e.base;
      t.retired == s.retired + if mine then [Retired(e.wr, Success)] else []
  {
    hide Inv, InWindow, PsnDiff, Match, CompleteHead, SetFlight, Flight, IsAtomic;
    HeadOwns(s, psn);
    RetiresHead(s, now);
    var i := Match(Flight(s), psn);
    if i < |Flight(s)| {
      SetFields(s, i, Flight(s)[i].(status := BadRespErr));
      SetFields(s, 0, Flight(s)[0].(status := mem));
    }
  }

  /** The response reaches the handler of its kind: neither dropped nor taken as a call to send again. */
  predicate Handled(s: Sq, r: Response) {
    && RecvOk(s.state) && r.size >= AETH_SIZE
    && var c := SyndromeClass(r.syndrome);
       r.kind == ReadMiddleKind || c == SYND_ACK || (c == SYND_NAK && r.syndrome != SYND_PSN_SEQ_ERR)
  }

  /** `d` is `s` but for the statuses in flight and the flow control. */
  ghost predicate SameButStatus(s: Sq, d: Sq) {
    && d.retired == s.retired && |Flight(d)| == |Flight(s)|
    && forall i :: 0 <= i < |Flight(s)| ==> Flight(d)[i] == Flight(s)[i].(status := Flight(d)[i].status)
  }

  lemma MarkedSame(s: Sq, psn: int, status: WcStatus)
    ensures SameButStatus(s, MarkError(s, psn, status))
  {
    hide Match;
    var q, d := Flight(s), MarkError(s, psn, status);
    var i := Match(q, psn);
    if i < |q| {
      assert Flight(d) == q[i := q[i].(status := status)];
    }
  }

  /** The state the handler is called on. */
  lemma HandedOver(s: Sq, r: Response, now: int, rnrDelay: nat, mem: WcStatus) returns (d: Sq)
    requires Inv(s) && InWindow(s, r.psn)
    ensures Inv(d) && InWindow(d, r.psn) && SameButStatus(s, d)
    ensures if Handled(s, r) then ReceiveResponse(s, r, now, rnrDelay, mem) == Dispatch(d, r, now, mem)
      else ReceiveResponse(s, r, now, rnrDelay, mem).retired == s.retired
  {
    hide Inv, Dispatch, MarkError, SyndromeClass, Rewind;
    var s0 := s.(nrContig := 0);
    FlowAside(s);
    d := s0;
    if NakStatus(r.syndrome).Some? && SyndromeClass(r.syndrome) == SYND_NAK && r.kind != ReadMiddleKind {
      MarkErrorKeeps(s0, r.psn, NakStatus(r.syndrome).value);
      MarkedSame(s0, r.psn, NakStatus(r.syndrome).value);
      d := MarkError(s0, r.psn, NakStatus(r.syndrome).value);
    }
    RetryRetires(s0, rnrDelay);
    RetryRetires(s0, 0);
  }

  lemma RetryRetires(s: Sq, rnr: nat)
    ensures Retry(s, rnr).retired == s.retired
  {
  }

  /** Request `i` is at the head, and the packet is of the kind and for the PSN that ends it. */
  predicate EndsRead(e: Swqe, i: nat, r: Response, mem: WcStatus) {
    i == 0 && r.kind != AckKind && r.kind != AtomicKind && mem == Success && e.ack + 1 == e.all && r.psn == e.expected - 1
  }

  predicate EndsAtomic(e: Swqe, i: nat, r: Response, mem: WcStatus) {
    i == 0 && r.kind == AtomicKind && mem == Success && r.size == AETH_SIZE + ATOMIC_ACK_ETH_SIZE && r.psn == e.base
  }

  /** What the handlers do for an RDMA READ or atomic. */
  lemma DispatchedIff(s: Sq, r: Response, now: int, mem: WcStatus, i: nat)
    requires Inv(s) && InWindow(s, r.psn) && i < |Flight(s)| && IsRdAtomic(Flight(s)[i].wr.opcode)
    ensures Completes(s, Dispatch(s, r, now, mem), i) <==>
      if Flight(s)[i].wr.opcode == WrRead then EndsRead(Flight(s)[i], i, r, mem) else EndsAtomic(Flight(s)[i], i, r, mem)
  {
    hide Inv, InWindow, ReceiveAck, ReceiveRead, ReceiveAtomic, Flight;
    ReadTakes(s, r.psn, now, mem);
    AtomicTakes(s, r.psn, r.size - AETH_SIZE, now, mem);
    AckCompletesIff(s, r.psn, now, i);
    assert !CompletedBy(Flight(s)[i], r.psn);
  }

  lemma RdAtomicRetiredIff(s: Sq, r: Response, now: int, rnrDelay: nat, mem: WcStatus, i: nat)
    requires Inv(s) && InWindow(s, r.psn) && i < |Flight(s)| && IsRdAtomic(Flight(s)[i].wr.opcode)
    ensures Completes(s, ReceiveResponse(s, r, now, rnrDelay, mem), i) <==>
      && Handled(s, r)
      && if Flight(s)[i].wr.opcode == WrRead then EndsRead(Flight(s)[i], i, r, mem) else EndsAtomic(Flight(s)[i], i, r, mem)
  {
    hide Inv, InWindow, ReceiveResponse, Dispatch, Handled, Flight;
    var d := HandedOver(s, r, now, rnrDelay, mem);
    DispatchedIff(d, r, now, mem, i);
  }

  /**
    Of all responses, only the one for its last PSN, taken as an RDMA READ response with every
    earlier one in, retires an RDMA READ with success, and only at the head.  An error code on that
    packet does not stop it.
   */
  lemma ReadRetiredIff(s: Sq, r: Response, now: int, rnrDelay: nat, mem: WcStatus, i: nat)
    requires Inv(s) && InWindow(s, r.psn) && i < |Flight(s)| && Flight(s)[i].wr.opcode == WrRead
    ensures Completes(s, ReceiveResponse(s, r, now, rnrDelay, mem), i) <==> Handled(s, r) && EndsRead(Flight(s)[i], i, r, mem)
  {
    hide Inv, InWindow, ReceiveResponse, Handled, Flight, EndsRead, EndsAtomic, Completes;
    RdAtomicRetiredIff(s, r, now, rnrDelay, mem, i);
  }

  /** Of all responses, only an atomic acknowledge for its PSN retires an atomic with success, and only at the head. */
  lemma AtomicRetiredIff(s: Sq, r: Response, now: int, rnrDelay: nat, mem: WcStatus, i: nat)
    requires Inv(s) && InWindow(s, r.psn) && i < |Flight(s)| && IsAtomic(Flight(s)[i].wr.opcode)
    ensures Completes(s, ReceiveResponse(s, r, now, rnrDelay, mem), i) <==> Handled(s, r) && EndsAtomic(Flight(s)[i], i, r, mem)
  {
    hide Inv, InWindow, ReceiveResponse, Handled, Flight, EndsRead, EndsAtomic, Completes;
    RdAtomicRetiredIff(s, r, now, rnrDelay, mem, i);
  }
}
