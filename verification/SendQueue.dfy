/**
  The requester half of a queue pair, as a value and functions on it.

  A send work request moves from `submitted` through `sending` to `waiting` and is then
  retired.  The functions below give the result of each driver operation as a whole; the
  step-by-step loops that compute them are in Requester.dfy.

  `accepted`, `retired` and `plan` record history and no function reads them to decide
  anything: the work requests taken from the caller, those given back with their status,
  and those given a PSN range.  In an `Swqe`, `timeouts` and `rnrs` are such
  records too, of the retries counted; `cnps`
  counts the congestion packets sent.
 */
module SendQueue {
  import opened Psn
  import opened Jiffies
  import opened WorkRequest

  datatype QpState = RESET | INIT | RTR | RTS | SQD | SQE | ERR

  /** pib_is_recv_ok. */
  predicate RecvOk(state: QpState) {
    state in {RTR, RTS, SQD, SQE}
  }

  datatype WcStatus =
    | Success | LocLenErr | LocQpOpErr | LocProtErr | WrFlushErr | BadRespErr
    | RemInvReqErr | RemAccessErr | RemOpErr | RemInvRdReqErr | RetryExcErr | RnrRetryExcErr

  /** A send work queue entry with its `processing` part. */
  datatype Swqe = Swqe(wr: Wr, status: WcStatus, base: int, expected: int,
                       all: nat, ack: int, sent: int,
                       scheduleTime: int, localAckTime: int,
                       retryCnt: int, rnrRetry: int, timeouts: nat, rnrs: nat)

  /** Attributes fixed while the queue pair runs; `origin` is its first send PSN. */
  datatype Attr = Attr(mtu: Mtu, maxRdAtomic: nat, retryCnt: nat, rnrRetry: nat,
                       ackTimeout: int, signalAll: bool, maxSge: int, maxInline: nat, capacity: nat, origin: int)

  datatype Wc = Wc(id: int, status: WcStatus)
  datatype Retired = Retired(wr: Wr, status: WcStatus)

  datatype Sq = Sq(attr: Attr, state: QpState,
                   submitted: seq<Swqe>, sending: seq<Swqe>, waiting: seq<Swqe>,
                   nrSubmitted: int, nrSending: int, nrWaiting: int,
                   nrRdAtomic: int, free: int,
                   expectedPsn: int, psn: int, nrContig: int, nrContigReads: int, cnps: nat,
                   cq: seq<Wc>, accepted: seq<Wr>, retired: seq<Retired>, plan: seq<Item>)

  const MAX_CONTIG_REQUESTS := 64
  const MAX_CONTIG_READ_ACKS := 64

  /** Work requests holding PSNs, oldest first. */
  function Flight(s: Sq): seq<Swqe> {
    s.waiting + s.sending
  }

  // ---------------------------------------------------------------------------
  // Retiring work requests

  function Records(q: seq<Swqe>, status: WcStatus): seq<Retired> {
    seq(|q|, i requires 0 <= i < |q| => Retired(q[i].wr, status))
  }

  /** Errors are always reported, successes when signalled. */
  function Reports(attr: Attr, recs: seq<Retired>): seq<Wc> {
    if recs == [] then []
    else
      var r := recs[|recs| - 1];
      Reports(attr, recs[..|recs| - 1])
      + if r.status != Success || attr.signalAll || r.wr.signaled then [Wc(r.wr.id, r.status)] else []
  }

  /** Completions for `q` in order; their entries go back to the free list. */
  function Complete(s: Sq, q: seq<Swqe>, status: WcStatus): Sq {
    s.(cq := s.cq + Reports(s.attr, Records(q, status)),
       retired := s.retired + Records(q, status),
       free := s.free + |q|)
  }

  /** Take the first `k` entries off waiting ++ sending. */
  function DropFlight(s: Sq, k: nat): Sq
    requires k <= |Flight(s)|
  {
    var a := if k <= |s.waiting| then k else |s.waiting|;
    s.(waiting := s.waiting[a..], nrWaiting := s.nrWaiting - a,
       sending := s.sending[k - a..], nrSending := s.nrSending - (k - a))
  }

  /** Replace entry `i` of waiting ++ sending. */
  function SetFlight(s: Sq, i: nat, e: Swqe): Sq
    requires i < |Flight(s)|
  {
    if i < |s.waiting| then s.(waiting := s.waiting[i := e])
    else s.(sending := s.sending[i - |s.waiting| := e])
  }

  /** pib_util_flush_qp, requester part. */
  function Flush(s: Sq): Sq {
    Complete(s, Flight(s) + s.submitted, WrFlushErr)
      .(waiting := [], sending := [], submitted := [],
        nrWaiting := 0, nrSending := 0, nrSubmitted := 0, nrRdAtomic := 0, nrContig := 0, nrContigReads := 0)
  }

  /** The oldest request in flight ends in error and takes the queue pair to ERR. */
  function FailHead(s: Sq, status: WcStatus): Sq
    requires Flight(s) != []
  {
    Flush(Complete(DropFlight(s, 1), Flight(s)[..1], status).(state := ERR))
  }

  /**
    A state change through modify_qp.  Leaving ERR needs a reset, which is not modelled, and
    an RC queue pair is never in SQE.
   */
  function Modify(s: Sq, target: QpState): Sq {
    if s.state in {ERR, SQE} || target !in {RTR, RTS, SQD, ERR} then s
    else if s.state == SQD && target in {RTS, SQD} && Flight(s) != [] then s
    else if target == ERR then Flush(s.(state := ERR))
    else if target == RTS && s.nrSubmitted + s.nrSending + s.nrWaiting != 0 then GetReady(s.(state := RTS))
    else s.(state := target)
  }

  /** get_ready_to_send, requester part. */
  function GetReady(s: Sq): Sq {
    s.(nrContig := 0, nrContigReads := 0)
  }

  // ---------------------------------------------------------------------------
  // Posting

  datatype PostResult = Posted | EINVAL | ENOMEM | EMSGSIZE | EFAULT

  function FreshEntry(wr: Wr): Swqe {
    Swqe(wr, Success, 0, 0, 0, 0, 0, 0, 0, 0, 0, 0, 0)
  }

  /** The length recorded for `wr` when `carry` bytes were counted for earlier requests of the chain. */
  function RecordedLength(wr: Wr, carry: nat): nat {
    if IsAtomic(wr.opcode) then 8 else carry + |wr.data|
  }

  /** copy_inline_data: `total` bytes are to be copied from the user, and that fails. */
  predicate InlineFault(attr: Attr, wr: Wr, total: nat) {
    && wr.inlined && 0 < total <= attr.maxInline
    && (IsSend(wr.opcode) || IsWrite(wr.opcode))
    && wr.copyFaults
  }

  /** One round of pib_post_send: new state, running byte count, result. */
  function PostOne(s: Sq, wr: Wr, carry: nat): (Sq, nat, PostResult) {
    if s.state in {RESET, INIT} then (s, carry, EINVAL)
    else if s.state in {ERR, SQE} then
      (Complete(s, [FreshEntry(wr)], WrFlushErr).(free := s.free, accepted := s.accepted + [wr]), carry, Posted)
    else if wr.numSge < 1 || s.attr.maxSge < wr.numSge then (s, carry, EINVAL)
    else if s.free == 0 then (s, carry, ENOMEM)
    else
      var total := RecordedLength(wr, carry);
      if MAX_PAYLOAD_LEN < total then (s, total, EMSGSIZE)
      else if InlineFault(s.attr, wr, total) then (s, total, EFAULT)
      else
        var w := wr.(length := total);
        (s.(free := s.free - 1, submitted := s.submitted + [FreshEntry(w)],
            nrSubmitted := s.nrSubmitted + 1, accepted := s.accepted + [w]),
         total, Posted)
  }

  /** A chain of work requests: stops at the first one refused. */
  function PostChain(s: Sq, wrs: seq<Wr>, carry: nat): (Sq, PostResult)
    decreases |wrs|
  {
    if wrs == [] then (s, Posted)
    else
      var (s', carry', r) := PostOne(s, wrs[0], carry);
      if r != Posted then (s', r) else PostChain(s', wrs[1..], carry')
  }

  /** pib_post_send: an empty chain is refused; in RTS sending is made ready, whatever became of the chain. */
  function PostSend(s: Sq, wrs: seq<Wr>): (Sq, PostResult) {
    if wrs == [] then (s, EINVAL)
    else
      var (s', r) := PostChain(s, wrs, 0);
      (if s.state == RTS then GetReady(s') else s', r)
  }

  // ---------------------------------------------------------------------------
  // Sending

  /** process_new_send_wr: give the oldest submitted request a PSN range. */
  predicate CanEnqueue(s: Sq) {
    && s.state == RTS
    && s.submitted != []
    && (s.submitted[0].wr.fence ==> s.nrRdAtomic <= 0)
    && (IsRdAtomic(s.submitted[0].wr.opcode) ==> s.nrRdAtomic < s.attr.maxRdAtomic)
  }

  function Enqueue(s: Sq, now: int): Sq
    requires CanEnqueue(s)
  {
    var e := s.submitted[0];
    var n := NumPackets(s.attr.mtu, e.wr.length);
    var e' := e.(base := s.expectedPsn, expected := s.expectedPsn + n, all := n, ack := 0, sent := 0,
                 scheduleTime := now, localAckTime := now + SCHED_TIMEOUT,
                 retryCnt := s.attr.retryCnt, rnrRetry := s.attr.rnrRetry, timeouts := 0, rnrs := 0);
    s.(nrRdAtomic := s.nrRdAtomic + (if IsRdAtomic(e.wr.opcode) then 1 else 0),
       submitted := s.submitted[1..], nrSubmitted := s.nrSubmitted - 1,
       sending := s.sending + [e'], nrSending := s.nrSending + 1,
       expectedPsn := s.expectedPsn + n,
       plan := s.plan + [Item(e.wr, s.expectedPsn, n)])
  }

  function Unsend(q: seq<Swqe>): seq<Swqe> {
    seq(|q|, i requires 0 <= i < |q| => q[i].(sent := q[i].ack))
  }

  /** Everything unacknowledged is to be sent again. */
  function Rewind(s: Sq): Sq {
    s.(sending := Unsend(Flight(s)), nrSending := s.nrSending + |s.waiting|,
       waiting := [], nrWaiting := s.nrWaiting - |s.waiting|)
  }

  /** The oldest waiting request has not been acknowledged in time. */
  predicate TimedOut(s: Sq, now: int) {
    s.waiting != [] && !TimeAfter(s.waiting[0].localAckTime, now)
  }

  function TimeoutRewind(s: Sq, now: int): Sq
    requires s.waiting != []
  {
    var e := s.waiting[0];
    var e' := e.(retryCnt := e.retryCnt - 1, timeouts := e.timeouts + 1, localAckTime := now + SCHED_TIMEOUT);
    Rewind(s.(waiting := s.waiting[0 := e']))
  }

  /** Why pib_process_rc_qp_request refuses to send the next packet of `e`; Success if it does not. */
  function SendStatus(attr: Attr, e: Swqe, mem: WcStatus): WcStatus {
    if e.retryCnt < 0 then RetryExcErr
    else if e.rnrRetry < 0 then RnrRetryExcErr
    else if e.wr.opcode == WrUnsupported then LocQpOpErr
    else if IsAtomic(e.wr.opcode) then Success
    else if MAX_PAYLOAD_LEN < e.wr.length then LocLenErr
    else if e.wr.opcode == WrRead then Success
    else if PayloadSize(attr.mtu, e.wr.length, e.all, e.sent) == 0 then Success
    else if mem != Success then mem
    else if !GatherOk(attr.mtu, e.wr, e.all, e.sent) then LocProtErr
    else Success
  }

  /** The request counter restarts with every packet that carries an RDMA WRITE header. */
  predicate RestartsContig(e: Swqe) {
    e.retryCnt >= 0 && e.rnrRetry >= 0 && IsWrite(e.wr.opcode)
    && e.wr.length <= MAX_PAYLOAD_LEN && (e.all == 1 || e.sent == 0)
  }

  function ItemOf(e: Swqe): Item {
    Item(e.wr, e.base, e.all)
  }

  datatype Option<T> = None | Some(value: T)

  /**
    A packet of the head of sending has gone out: an RDMA READ, or any request with its last
    packet sent, goes to the end of waiting.
   */
  function AfterPacket(s: Sq, now: int): Sq
    requires s.sending != []
  {
    var e := s.sending[0];
    if e.wr.opcode != WrRead && e.sent + 1 < e.all then
      s.(sending := s.sending[0 := e.(sent := e.sent + 1)], nrContig := s.nrContig + 1)
    else
      var e' := if e.wr.opcode == WrRead then e else e.(sent := e.sent + 1);
      s.(sending := s.sending[1..], nrSending := s.nrSending - 1,
         waiting := s.waiting + [e'.(localAckTime := now + s.attr.ackTimeout)], nrWaiting := s.nrWaiting + 1,
         nrContig := if e.wr.opcode == WrRead then s.nrContig else s.nrContig + 1)
  }

  /** pib_process_rc_qp_request on the head of sending, and the list move that follows it. */
  function Transmit(s: Sq, now: int, mem: WcStatus): (Sq, Option<Request>)
    requires s.sending != []
  {
    var e := s.sending[0];
    var status := SendStatus(s.attr, e, mem);
    var s1 := if RestartsContig(e) then s.(nrContig := 0) else s;
    if status != Success then (s1.(sending := s1.sending[0 := e.(status := status)]), None)
    else (AfterPacket(s1, now), Some(PacketOf(s.attr.mtu, ItemOf(e), e.sent)))
  }

  /** What the scheduler does before it looks at the head of sending. */
  function Prepare(s: Sq, now: int): Sq {
    var s1 := if TimedOut(s, now) then TimeoutRewind(s, now) else s;
    if s1.sending == [] && CanEnqueue(s1) then Enqueue(s1, now) else s1
  }

  /** The head of sending may be worked on now. */
  predicate HeadReady(s: Sq, now: int) {
    && s.sending != []
    && (s.sending[0].status != Success ==> s.waiting == [])
    && s.nrContig <= MAX_CONTIG_REQUESTS
    && !TimeAfter(s.sending[0].scheduleTime, now)
  }

  /** The requester part of process_on_qp_scheduler. */
  function Schedule(s: Sq, now: int, mem: WcStatus): (Sq, Option<Request>) {
    if s.state !in {RTS, SQD} then (s, None)
    else
      var s1 := Prepare(s, now);
      if !HeadReady(s1, now) then (s1, None)
      else
        var s2 := s1.(sending := s1.sending[0 := s1.sending[0].(scheduleTime := now)]);
        if s2.sending[0].status != Success then (FailHead(s2, s2.sending[0].status), None)
        else Transmit(s2, now, mem)
  }

  // ---------------------------------------------------------------------------
  // Receiving responses

  datatype ResponseKind = AckKind | ReadFirstKind | ReadMiddleKind | ReadLastKind | ReadOnlyKind | AtomicKind

  /**
    A response packet.  `size` counts the bytes after the base transport header; `vaddr`
    and `length` say which remote bytes an RDMA READ response carries.
   */
  datatype Response = Response(psn: int, kind: ResponseKind, syndrome: int, size: int,
                               rkey: int, vaddr: int, length: int, result: int)

  const AETH_SIZE := 4
  const ATOMIC_ACK_ETH_SIZE := 8

  const SYND_ACK := 0x00
  const SYND_RNR_NAK := 0x20
  const SYND_NAK := 0x60
  const SYND_PSN_SEQ_ERR := 0x60
  const SYND_INV_REQ_ERR := 0x61
  const SYND_REM_ACCESS_ERR := 0x62
  const SYND_REM_OP_ERR := 0x63
  const SYND_INV_RD_REQ_ERR := 0x64

  /** syndrome & PIB_SYND_CODE_MASK. */
  function SyndromeClass(syndrome: int): int {
    (syndrome / 0x20) % 8 * 0x20
  }

  datatype Verdict = Failed | Completed | Progressed | Ignored

  /** process_acknowledge: the verdict and the updated entry. */
  function JudgeAck(e: Swqe, psn: int): (Verdict, Swqe) {
    var d := PsnDiff(psn, e.base);
    if e.status != Success then (Failed, e)
    else if d < 0 then (Ignored, e)
    else if d + 1 <= e.ack then (Ignored, e)
    else if IsRdAtomic(e.wr.opcode) then (Failed, e.(status := BadRespErr))
    else if d + 1 < e.all then (Progressed, e.(ack := d + 1))
    else (Completed, e)
  }

  /** How many requests at the front of `q` an acknowledge for `psn` completes. */
  function AckRun(q: seq<Swqe>, psn: int): (k: nat)
    ensures k <= |q|
  {
    if q == [] || JudgeAck(q[0], psn).0 != Completed then 0 else 1 + AckRun(q[1..], psn)
  }

  /** postpone_local_ack_timeout. */
  function Postpone(s: Sq, now: int): Sq {
    s.(waiting := seq(|s.waiting|, i requires 0 <= i < |s.waiting| =>
         s.waiting[i].(retryCnt := s.attr.retryCnt, timeouts := 0, localAckTime := now + s.attr.ackTimeout)))
  }

  /** Retire the first `k` requests in flight with success. */
  function CompleteRun(s: Sq, k: nat): Sq
    requires k <= |Flight(s)|
  {
    Complete(DropFlight(s, k), Flight(s)[..k], Success)
      .(psn := if k == 0 then s.psn else Mask24(Flight(s)[k - 1].expected))
  }

  /** receive_ACK_response. */
  function ReceiveAck(s: Sq, psn: int, now: int): Sq {
    var q := Flight(s);
    var k := AckRun(q, psn);
    var s1 := CompleteRun(s, k);
    if k == |q| then Postpone(s1, now)
    else
      var (verdict, e) := JudgeAck(q[k], psn);
      match verdict
      case Failed => FailHead(SetFlight(s1, 0, e), e.status)
      case Progressed => Postpone(SetFlight(s1, 0, e), now)
      case _ => Postpone(s1, now)
  }

  /** The driver's range test for the owner of `psn`. */
  predicate Owns(e: Swqe, psn: int) {
    PsnDiff(psn, e.base) >= 0 && PsnDiff(psn, e.expected) < 0
  }

  /** match_send_wqe: index of the first entry that owns `psn`, or |q|. */
  function Match(q: seq<Swqe>, psn: int): (i: nat)
    ensures i <= |q|
  {
    if q == [] || Owns(q[0], psn) then 0 else 1 + Match(q[1..], psn)
  }

  /** set_send_wqe_to_error. */
  function MarkError(s: Sq, psn: int, status: WcStatus): Sq {
    var q := Flight(s);
    var i := Match(q, psn);
    if i < |q| then SetFlight(s, i, q[i].(status := status)) else s
  }

  /** Retire the head RDMA READ or atomic. */
  function CompleteHead(s: Sq, now: int): Sq
    requires Flight(s) != []
  {
    Postpone(CompleteRun(s, 1).(nrRdAtomic := s.nrRdAtomic - 1), now)
  }

  /** One more RDMA READ response taken; every so often a congestion packet goes back. */
  function CountRead(s: Sq): Sq {
    if MAX_CONTIG_READ_ACKS / 3 < s.nrContigReads + 1 then s.(nrContigReads := 0, cnps := s.cnps + 1)
    else s.(nrContigReads := s.nrContigReads + 1)
  }

  /** receive_RDMA_READ_response; `mem` is the outcome of scattering the payload. */
  function ReceiveRead(s: Sq, psn: int, now: int, mem: WcStatus): Sq {
    var q := Flight(s);
    var i := Match(q, psn);
    if i == |q| then s
    else
      var e := q[i];
      if e.wr.opcode != WrRead then SetFlight(s, i, e.(status := BadRespErr))
      else if i != 0 || PsnDiff(e.base + e.sent, psn) != 0 || PsnDiff(e.base + e.ack, psn) != 0 then s
      else if mem != Success then SetFlight(s, 0, e.(status := mem))
      else
        var e' := e.(localAckTime := now + s.attr.ackTimeout, sent := e.sent + 1, ack := e.ack + 1);
        var s1 := SetFlight(s, 0, e');
        CountRead(if e'.sent < e.all then s1 else CompleteHead(s1, now))
  }

  /** receive_Atomic_response. */
  function ReceiveAtomic(s: Sq, psn: int, size: int, now: int, mem: WcStatus): Sq {
    var q := Flight(s);
    var i := Match(q, psn);
    if size != ATOMIC_ACK_ETH_SIZE || i == |q| then s
    else
      var e := q[i];
      if !IsAtomic(e.wr.opcode) then SetFlight(s, i, e.(status := BadRespErr))
      else if i != 0 || PsnDiff(e.base, psn) != 0 then s
      else if mem != Success then SetFlight(s, 0, e.(status := mem))
      else CompleteHead(s, now)
  }

  /** The retry path of receive_response; `rnr` is the delay of an RNR NAK, 0 otherwise. */
  function Retry(s: Sq, rnr: nat): Sq {
    var s1 := Rewind(s);
    if rnr == 0 || s1.sending == [] then s1
    else
      var e := s1.sending[0];
      if e.wr.opcode !in {WrSend, WrSendImm, WrWriteImm} then s1
      else
        var e' := if s.attr.rnrRetry < 7 then e.(scheduleTime := rnr, rnrRetry := e.rnrRetry - 1, rnrs := e.rnrs + 1)
                  else e.(scheduleTime := rnr);
        s1.(sending := s1.sending[0 := e'])
  }

  function NakStatus(syndrome: int): Option<WcStatus> {
    if syndrome == SYND_INV_REQ_ERR then Some(RemInvReqErr)
    else if syndrome == SYND_REM_ACCESS_ERR then Some(RemAccessErr)
    else if syndrome == SYND_REM_OP_ERR then Some(RemOpErr)
    else if syndrome == SYND_INV_RD_REQ_ERR then Some(RemInvRdReqErr)
    else None
  }

  function Dispatch(s: Sq, r: Response, now: int, mem: WcStatus): Sq {
    match r.kind
    case AckKind => ReceiveAck(s, r.psn, now)
    case AtomicKind => ReceiveAtomic(s, r.psn, r.size - AETH_SIZE, now, mem)
    case _ => ReceiveRead(s, r.psn, now, mem)
  }

  /**
    receive_response.  `rnrDelay` is the table entry for the syndrome's timer field.  A NAK
    code the driver does not know is handled like an acknowledge, as in the source.
   */
  function ReceiveResponse(s: Sq, r: Response, now: int, rnrDelay: nat, mem: WcStatus): Sq {
    if !RecvOk(s.state) || r.size < AETH_SIZE then s
    else
      var s0 := s.(nrContig := 0);
      var c := SyndromeClass(r.syndrome);
      if r.kind == ReadMiddleKind || c == SYND_ACK then Dispatch(s0, r, now, mem)
      else if c == SYND_RNR_NAK then Retry(s0, rnrDelay)
      else if c == SYND_NAK then
        if r.syndrome == SYND_PSN_SEQ_ERR then Retry(s0, 0)
        else match NakStatus(r.syndrome)
          case Some(status) => Dispatch(MarkError(s0, r.psn, status), r, now, mem)
          case None => Dispatch(s0, r, now, mem)
      else s0
  }
}
