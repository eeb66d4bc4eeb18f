/**
  A requester and a responder joined by a channel.

  Every request and response packet ever sent stays in a log, and the channel may deliver
  any entry of the log at any time: packets can be lost, repeated and reordered at will.
  The one limit is packet lifetime, `Enabled` below: a packet may be delivered only while
  its PSN is within 2^23 of the PSNs it will be compared with.

  `done`, `part`, `next` and the fields of `Sent` other than `packet` are bookkeeping for the
  proofs and influence nothing: how many work requests the responder has executed in full,
  how far it is into the next one, the log position after the last delivered request, and
  which work request and packet number a sent packet belongs to.
 */
module Protocol {
  import opened Psn
  import opened OpCode
  import opened WorkRequest
  import opened SendQueue
  import opened ReceiveQueue

  datatype Sent = Sent(packet: Request, item: int, k: int, stamp: nat)

  datatype System = System(sq: Sq, rq: Rq, requests: seq<Sent>, responses: seq<Response>,
                           done: nat, part: nat, next: nat)

  datatype Action =
    | Post(wrs: seq<Wr>)
    | ModifySender(target: QpState)
    | RunSender(now: int, mem: WcStatus)
    | DeliverRequest(index: nat, memory: WcStatus, result: int)
    | AddReceive
    | RunResponder(memOk: bool)
    | DeliverCnp
    | PeerSends
    | FailResponder
    | DeliverResponse(number: nat, at: int, rnrDelay: nat, outcome: WcStatus)

  /** RDMA READs and atomics of a plan, in order. */
  function RdItems(plan: seq<Item>): seq<Item> {
    if plan == [] then []
    else
      var n := |plan| - 1;
      RdItems(plan[..n]) + if IsRdAtomic(plan[n].wr.opcode) then [plan[n]] else []
  }

  function Transmitted(s: System, now: int, mem: WcStatus): System {
    var (sq, out) := Schedule(s.sq, now, mem);
    match out
    case None => s.(sq := sq)
    case Some(packet) =>
      var ready := Prepare(s.sq, now);
      s.(sq := sq, requests := s.requests
           + [Sent(packet, |ready.plan| - |ready.sending|, ready.sending[0].sent, |RdItems(sq.plan)|)])
  }

  /** The position after the responder has moved on by one step. */
  function NextPosition(plan: seq<Item>, done: nat, part: nat): (nat, nat) {
    if done < |plan| && part + 1 < StepsOf(plan[done]) then (done, part + 1) else (done + 1, 0)
  }

  function Received(s: System, index: nat, mem: WcStatus, result: int): System
    requires index < |s.requests| && SlotsOk(s.rq)
  {
    var rq := ReceiveRequest(s.rq, s.requests[index].packet, mem, result);
    var (done, part) := if rq.psn == s.rq.psn then (s.done, s.part) else NextPosition(s.sq.plan, s.done, s.part);
    s.(rq := rq, done := done, part := part, next := index + 1)
  }

  function Answered(s: System, memOk: bool): System {
    var (rq, out) := Generate(s.rq, memOk);
    s.(rq := rq, responses := s.responses + if out.Some? then [out.value] else [])
  }

  /** `psn` can be told apart from every PSN in flight. */
  predicate InWindow(s: Sq, psn: int) {
    forall i :: 0 <= i < |Flight(s)| ==> Close(psn, Flight(s)[i].base) && Close(psn, Flight(s)[i].expected)
  }

  predicate Enabled(s: System, a: Action) {
    && SlotsOk(s.rq)
    && match a
       case DeliverRequest(index, _, _) => index < |s.requests| && Close(s.requests[index].packet.psn, s.rq.psn)
       case DeliverResponse(number, _, _, _) => number < |s.responses| && InWindow(s.sq, s.responses[number].psn)
       case DeliverCnp => s.sq.cnps > 0
       case _ => true
  }

  function Step(s: System, a: Action): System
    requires Enabled(s, a)
  {
    match a
    case Post(wrs) => s.(sq := PostSend(s.sq, wrs).0)
    case ModifySender(target) => s.(sq := Modify(s.sq, target))
    case RunSender(now, mem) => Transmitted(s, now, mem)
    case DeliverRequest(index, mem, result) => Received(s, index, mem, result)
    case AddReceive => s.(rq := PostReceive(s.rq))
    case RunResponder(memOk) => Answered(s, memOk)
    case DeliverCnp => s.(rq := ReceiveCnp(s.rq))
    case PeerSends => s.(rq := ReadyToSend(s.rq))
    case FailResponder => s.(rq := Fatal(s.rq))
    case DeliverResponse(number, now, rnrDelay, mem) =>
      s.(sq := ReceiveResponse(s.sq, s.responses[number], now, rnrDelay, mem))
  }

  /** Both ends just configured: same path MTU, and the responder expects the requester's first PSN. */
  ghost predicate Start(s: System) {
    && s.sq == Sq(s.sq.attr, INIT, [], [], [], 0, 0, 0, 0, s.sq.attr.capacity, s.sq.attr.origin,
                  Mask24(s.sq.attr.origin), 0, 0, 0, [], [], [], [])
    && s.rq == Rq(s.rq.attr, RTR, s.rq.attr.origin, RESET_OPCODE, 0, 0, 0, 0, 0, 0,
                  seq(MAX_RD_ATOM, _ => EMPTY_SLOT), [], 0, 0, [], [], [], [])
    && s.sq.attr.mtu == s.rq.attr.mtu
    && s.sq.attr.origin == s.rq.attr.origin
    && s.requests == [] && s.responses == []
    && s.done == 0 && s.part == 0 && s.next == 0
  }

  /** Every action was enabled when it was taken. */
  ghost predicate Legal(s: System, actions: seq<Action>)
    decreases |actions|
  {
    actions == [] || (Enabled(s, actions[0]) && Legal(Step(s, actions[0]), actions[1..]))
  }

  function Run(s: System, actions: seq<Action>): System
    requires Legal(s, actions)
    decreases |actions|
  {
    if actions == [] then s else Run(Step(s, actions[0]), actions[1..])
  }
}
