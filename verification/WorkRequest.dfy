/**
  Work requests, their segmentation into request packets, and what executing those
  packets is meant to do at the far end.
 */
module WorkRequest {
  import Psn
  import opened OpCode

  type Byte = x: int | 0 <= x < 0x100

  const MAX_PAYLOAD_LEN: int := 0x4000_0000

  type Addr64 = x: int | 0 <= x < Psn.TWO64

  datatype WrOpcode =
    | WrSend | WrSendImm | WrWrite | WrWriteImm | WrRead | WrCmpSwap | WrFetchAdd | WrUnsupported

  /** pib_is_wr_opcode_rd_atomic. */
  predicate IsRdAtomic(opcode: WrOpcode) {
    opcode in {WrRead, WrCmpSwap, WrFetchAdd}
  }
  predicate IsAtomic(opcode: WrOpcode) {
    opcode in {WrCmpSwap, WrFetchAdd}
  }
  predicate IsSend(opcode: WrOpcode) {
    opcode in {WrSend, WrSendImm}
  }
  predicate IsWrite(opcode: WrOpcode) {
    opcode in {WrWrite, WrWriteImm}
  }
  predicate HasImm(opcode: WrOpcode) {
    opcode in {WrSendImm, WrWriteImm}
  }

  /**
    A posted work request.  `data` is the concatenation of its gather buffers, which the
    verbs contract keeps still until completion; `length` is the driver's `total_length`.
    `copyFaults` says that reading the user's buffers fails.
   */
  datatype Wr = Wr(id: int, opcode: WrOpcode, fence: bool, signaled: bool, numSge: int,
                   data: seq<Byte>, length: nat, raddr: Addr64, rkey: int, inlined: bool, copyFaults: bool)

  function Add64(a: int, b: int): Addr64 {
    (a + b) % Psn.TWO64
  }

  // ---------------------------------------------------------------------------
  // Segmentation

  /** Payload bytes of a full packet. */
  type Mtu = m: int | 256 <= m witness 256

  /** enum ib_mtu as far as modify_qp_is_ok lets it through. */
  type PathMtu = p: int | 1 <= p <= 5 witness 1

  function Pow2(p: PathMtu): nat {
    if p == 1 then 2 else if p == 2 then 4 else if p == 3 then 8 else if p == 4 then 16 else 32
  }

  /** 128U << path_mtu. */
  function Pmtu(p: PathMtu): Mtu {
    128 * Pow2(p)
  }

  /** pib_get_num_of_packets for an RC queue pair, with its shifts. */
  function GetNumOfPackets(p: PathMtu, length: nat): nat {
    var n := (length / 128) / Pow2(p);
    if n == 0 then 1
    else if length > n * 128 * Pow2(p) then n + 1
    else n
  }

  /** 1 for an empty message, the rounded-up quotient otherwise. */
  function NumPackets(mtu: Mtu, length: nat): (n: nat)
    ensures n >= 1
  {
    if length == 0 then 1 else (length - 1) / mtu + 1
  }

  lemma DivBounds(x: nat, m: nat)
    requires m > 0
    ensures (x / m) * m <= x < (x / m) * m + m
  {
    assert x == (x / m) * m + x % m;
  }

  lemma NumPacketsBounds(mtu: Mtu, length: nat)
    ensures var n := NumPackets(mtu, length);
      && length <= n * mtu
      && (n == 1 || (n - 1) * mtu < length)
  {
    var n := NumPackets(mtu, length);
    assert n * mtu == (n - 1) * mtu + mtu;
    if length > 0 {
      DivBounds(length - 1, mtu);
    }
  }

  lemma MulMono(a: nat, b: nat, m: nat)
    requires a <= b
    ensures a * m <= b * m
  {
  }

  lemma CeilingUnique(m: nat, length: nat, a: nat, b: nat)
    requires m > 0 && a >= 1 && b >= 1
    requires length <= a * m && (a == 1 || (a - 1) * m < length)
    requires length <= b * m && (b == 1 || (b - 1) * m < length)
    ensures a == b
  {
    if a < b {
      MulMono(a, b - 1, m);
    } else if b < a {
      MulMono(b, a - 1, m);
    }
  }

  lemma ShiftBounds(length: nat, q: nat, y: nat)
    requires q > 0 && y == (length / 128) / q
    ensures y * (128 * q) <= length < (y + 1) * (128 * q)
  {
    var x := length / 128;
    DivBounds(length, 128);
    DivBounds(x, q);
    assert y * (128 * q) == (y * q) * 128;
    assert (y + 1) * (128 * q) == (y * q + q) * 128;
  }

  lemma ShiftCeiling(length: nat, m: Mtu, y: nat)
    requires y * m <= length < (y + 1) * m
    ensures NumPackets(m, length) == if y == 0 then 1 else if length > y * m then y + 1 else y
  {
    var n := if y == 0 then 1 else if length > y * m then y + 1 else y;
    assert (n - 1) * m == n * m - m;
    assert (y + 1) * m == y * m + m;
    NumPacketsBounds(m, length);
    CeilingUnique(m, length, n, NumPackets(m, length));
  }

  /** The shifts compute the rounded-up quotient for every path MTU. */
  lemma ShiftsComputeCeiling(p: PathMtu, length: nat)
    ensures GetNumOfPackets(p, length) == NumPackets(Pmtu(p), length)
  {
    var q := Pow2(p);
    var y := (length / 128) / q;
    ShiftBounds(length, q, y);
    ShiftCeiling(length, 128 * q, y);
    assert y * 128 * q == y * (128 * q);
  }

  /** No message the driver takes needs 2^23 packets. */
  lemma NumPacketsLimit(mtu: Mtu, length: nat)
    requires length <= MAX_PAYLOAD_LEN
    ensures NumPackets(mtu, length) <= 0x40_0000
  {
    var n := NumPackets(mtu, length);
    NumPacketsBounds(mtu, length);
    assert (n - 1) * 256 <= (n - 1) * mtu;
  }

  /** Bytes carried by packet `k` of `all`. */
  function PayloadSize(mtu: Mtu, length: nat, all: nat, k: int): int {
    if all - k == 1 then length - k * mtu else mtu
  }

  /** Every packet but the last is full, and the last carries what is left. */
  lemma PacketFits(mtu: Mtu, length: nat, k: nat)
    requires k < NumPackets(mtu, length)
    ensures var all := NumPackets(mtu, length);
      var size := PayloadSize(mtu, length, all, k);
      && 0 <= size <= mtu
      && k * mtu + size <= length
      && (k + 1 < all ==> size == mtu && (k + 1) * mtu == k * mtu + mtu && (k + 1) * mtu < length)
      && (k + 1 == all ==> k * mtu + size == length)
      && (k > 0 ==> size >= 1)
  {
    var all := NumPackets(mtu, length);
    NumPacketsBounds(mtu, length);
    assert (k + 1) * mtu == k * mtu + mtu;
    if k + 1 < all {
      MulMono(k + 1, all - 1, mtu);
    }
  }

  /** `x` forced into [0, n]. */
  function Clamp(x: int, n: nat): nat {
    if x < 0 then 0 else if x > n then n else x
  }

  /** The message bytes of packet `k`, as far as the gather list has them. */
  function Chunk(mtu: Mtu, wr: Wr, all: nat, k: int): seq<Byte> {
    var lo := Clamp(k * mtu, |wr.data|);
    var hi := Clamp(k * mtu + PayloadSize(mtu, wr.length, all, k), |wr.data|);
    if lo <= hi then wr.data[lo..hi] else []
  }

  /** The gather list of `wr` covers packet `k`. */
  predicate GatherOk(mtu: Mtu, wr: Wr, all: nat, k: int) {
    var size := PayloadSize(mtu, wr.length, all, k);
    size == 0 || k * mtu + size <= |wr.data|
  }

  /** A packet whose gather range exists carries exactly its share of the message. */
  lemma ChunkSize(mtu: Mtu, wr: Wr, k: nat)
    requires k < NumPackets(mtu, wr.length) && GatherOk(mtu, wr, NumPackets(mtu, wr.length), k)
    ensures |Chunk(mtu, wr, NumPackets(mtu, wr.length), k)| == PayloadSize(mtu, wr.length, NumPackets(mtu, wr.length), k)
  {
    PacketFits(mtu, wr.length, k);
  }

  /** Packets 0..k of a message, joined. */
  function JoinChunks(mtu: Mtu, wr: Wr, k: nat): seq<Byte> {
    if k == 0 then [] else JoinChunks(mtu, wr, k - 1) + Chunk(mtu, wr, NumPackets(mtu, wr.length), k - 1)
  }

  /** The part of the message the first `k` packets carry. */
  function Reached(mtu: Mtu, length: nat, k: nat): nat {
    if k < NumPackets(mtu, length) then k * mtu else length
  }

  lemma ReachStep(mtu: Mtu, length: nat, k: nat)
    requires k < NumPackets(mtu, length)
    ensures var size := PayloadSize(mtu, length, NumPackets(mtu, length), k);
      size >= 0 && Reached(mtu, length, k) == k * mtu && Reached(mtu, length, k + 1) == k * mtu + size <= length
  {
    PacketFits(mtu, length, k);
    hide NumPackets, PayloadSize;
  }

  lemma {:induction false} JoinReaches(mtu: Mtu, wr: Wr, k: nat)
    requires k <= NumPackets(mtu, wr.length) && wr.length <= |wr.data|
    ensures Reached(mtu, wr.length, k) <= wr.length && JoinChunks(mtu, wr, k) == wr.data[..Reached(mtu, wr.length, k)]
  {
    hide NumPackets, PayloadSize, Reached, Chunk;
    if k == 0 {
      ReachStep(mtu, wr.length, 0);
      assert wr.data[..0] == [];
    } else {
      JoinReaches(mtu, wr, k - 1);
      ReachStep(mtu, wr.length, k - 1);
      ChunkIs(mtu, wr, k - 1);
      var lo, hi := Reached(mtu, wr.length, k - 1), Reached(mtu, wr.length, k);
      assert wr.data[..lo] + wr.data[lo..hi] == wr.data[..hi];
    }
  }

  /** Segmenting a message and joining the pieces in order gives the message back. */
  lemma JoinRebuilds(mtu: Mtu, wr: Wr, k: nat)
    requires k <= NumPackets(mtu, wr.length) && wr.length <= |wr.data|
    ensures k < NumPackets(mtu, wr.length) ==>
              k * mtu <= wr.length && JoinChunks(mtu, wr, k) == wr.data[..k * mtu]
    ensures k == NumPackets(mtu, wr.length) ==> JoinChunks(mtu, wr, k) == wr.data[..wr.length]
  {
    JoinReaches(mtu, wr, k);
    hide NumPackets, JoinChunks;
  }

  lemma ChunkIs(mtu: Mtu, wr: Wr, k: nat)
    requires k < NumPackets(mtu, wr.length) && wr.length <= |wr.data|
    ensures var size := PayloadSize(mtu, wr.length, NumPackets(mtu, wr.length), k);
      0 <= size && k * mtu + size <= |wr.data| && Chunk(mtu, wr, NumPackets(mtu, wr.length), k) == wr.data[k * mtu..k * mtu + size]
  {
    PacketFits(mtu, wr.length, k);
    hide NumPackets, PayloadSize;
  }

  // ---------------------------------------------------------------------------
  // Request packets

  /** The opcode pib_process_rc_qp_request writes for packet `k` of `all`. */
  function RequestOpcode(opcode: WrOpcode, all: nat, k: int): OpCode {
    match opcode
    case WrSend =>
      if all == 1 then SendOnly else if k == 0 then SendFirst
      else if all == k + 1 then SendLast else SendMiddle
    case WrSendImm =>
      if all == 1 then SendOnlyImm else if k == 0 then SendFirst
      else if all == k + 1 then SendLastImm else SendMiddle
    case WrWrite =>
      if all == 1 then WriteOnly else if k == 0 then WriteFirst
      else if all == k + 1 then WriteLast else WriteMiddle
    case WrWriteImm =>
      if all == 1 then WriteOnlyImm else if k == 0 then WriteFirst
      else if all == k + 1 then WriteLastImm else WriteMiddle
    case WrRead => ReadRequest
    case WrCmpSwap => CompareSwap
    case WrFetchAdd => FetchAdd
    case WrUnsupported => Acknowledge // never sent
  }

  /** The opcodes of one work request form one complete message. */
  lemma RequestIsMessage(opcode: WrOpcode, all: nat)
    requires all >= 1 && opcode != WrUnsupported && (IsRdAtomic(opcode) ==> all == 1)
    ensures IsMessage(seq(all, k requires 0 <= k < all => RequestOpcode(opcode, all, k)))
  {
    var s := seq(all, k requires 0 <= k < all => RequestOpcode(opcode, all, k));
    if all >= 2 {
      var f := if IsSend(opcode) then SendFamily else WriteFamily;
      assert IsOpening(s[..all - 1], f);
      assert IsMessageOf(s, f);
    }
  }

  predicate HasReth(op: OpCode) {
    op in {WriteFirst, WriteOnly, WriteOnlyImm, ReadRequest}
  }
  predicate CarriesImm(op: OpCode) {
    op in {SendLastImm, SendOnlyImm, WriteLastImm, WriteOnlyImm}
  }

  const RETH_SIZE := 16
  const ATOMIC_ETH_SIZE := 28
  const IMM_SIZE := 4

  function ExtensionSize(op: OpCode): nat {
    (if HasReth(op) then RETH_SIZE else 0)
    + (if CarriesImm(op) then IMM_SIZE else 0)
    + (if op in {CompareSwap, FetchAdd} then ATOMIC_ETH_SIZE else 0)
  }

  /**
    A request packet after the base transport header: `size` is the number of bytes that
    follow, `vaddr`/`rkey`/`dmalen` the extension header where the opcode has one.
   */
  datatype Request = Request(psn: int, op: OpCode, vaddr: int, rkey: int, dmalen: int,
                             size: int, payload: seq<Byte>)

  /** A work request with the PSN range [base, base + all) it was given. */
  datatype Item = Item(wr: Wr, base: int, all: nat) {
    function End(): int { base + all }
  }

  predicate ItemOk(mtu: Mtu, item: Item) {
    item.all == NumPackets(mtu, item.wr.length)
    && (IsAtomic(item.wr.opcode) ==> item.all == 1)
  }

  /** The packet sent at position `k` of an item; for an RDMA READ, the request for what is left from `k`. */
  function PacketOf(mtu: Mtu, item: Item, k: int): Request {
    var op := RequestOpcode(item.wr.opcode, item.all, k);
    var off := k * mtu;
    if item.wr.opcode.WrRead? then
      Request(item.base + k, op, Add64(item.wr.raddr, off), item.wr.rkey, item.wr.length - off, RETH_SIZE, [])
    else if IsAtomic(item.wr.opcode) then
      Request(item.base + k, op, item.wr.raddr, item.wr.rkey, 0, ATOMIC_ETH_SIZE, [])
    else
      var payload := Chunk(mtu, item.wr, item.all, k);
      Request(item.base + k, op, item.wr.raddr, item.wr.rkey, item.wr.length,
              ExtensionSize(op) + |payload|, payload)
  }

  // ---------------------------------------------------------------------------
  // What the requests are meant to do

  datatype Effect =
    | Placed(offset: int, bytes: seq<Byte>, completes: bool)
    | Wrote(rkey: int, addr: int, bytes: seq<Byte>, notifies: bool)
    | ReadAccepted(rkey: int, addr: int, length: int)
    | AtomicApplied(rkey: int, addr: int)
    | Nothing

  /** Number of execution steps an item takes at the responder. */
  function StepsOf(item: Item): nat {
    if item.wr.opcode.WrRead? then 1 else item.all
  }

  function EffectOf(mtu: Mtu, item: Item, k: nat): Effect {
    var wr := item.wr;
    if wr.opcode.WrRead? then ReadAccepted(wr.rkey, wr.raddr, wr.length)
    else if IsAtomic(wr.opcode) then AtomicApplied(wr.rkey, wr.raddr)
    else if IsWrite(wr.opcode) then
      Wrote(wr.rkey, Add64(wr.raddr, k * mtu), Chunk(mtu, wr, item.all, k),
            wr.opcode.WrWriteImm? && k + 1 == item.all)
    else if IsSend(wr.opcode) then Placed(k * mtu, Chunk(mtu, wr, item.all, k), k + 1 == item.all)
    else Nothing
  }

  /** The first `k` steps of an item. */
  function EffectsOf(mtu: Mtu, item: Item, k: nat): seq<Effect> {
    if k == 0 then [] else EffectsOf(mtu, item, k - 1) + [EffectOf(mtu, item, k - 1)]
  }

  /** All steps of all items in order: what a perfect, loss-free run would do. */
  function IdealEffects(mtu: Mtu, plan: seq<Item>): seq<Effect> {
    if plan == [] then []
    else
      var n := |plan| - 1;
      IdealEffects(mtu, plan[..n]) + EffectsOf(mtu, plan[n], StepsOf(plan[n]))
  }

  /** The messages a receiver is meant to get: the data of the SENDs, in order. */
  function IdealMessages(plan: seq<Item>): seq<seq<Byte>> {
    if plan == [] then []
    else
      var last := plan[|plan| - 1];
      IdealMessages(plan[..|plan| - 1])
      + if IsSend(last.wr.opcode) then [last.wr.data[..Clamp(last.wr.length, |last.wr.data|)]] else []
  }

  lemma {:induction false} EffectsPrefix(mtu: Mtu, item: Item, j: nat, k: nat)
    requires j <= k
    ensures EffectsOf(mtu, item, j) <= EffectsOf(mtu, item, k)
  {
    if j < k {
      EffectsPrefix(mtu, item, j, k - 1);
    }
  }

  lemma {:induction false} IdealPrefix(mtu: Mtu, plan: seq<Item>, m: nat)
    requires m <= |plan|
    ensures IdealEffects(mtu, plan[..m]) <= IdealEffects(mtu, plan)
  {
    if m < |plan| {
      IdealPrefix(mtu, plan[..|plan| - 1], m);
      assert plan[..|plan| - 1][..m] == plan[..m];
    } else {
      assert plan[..m] == plan;
    }
  }
}
