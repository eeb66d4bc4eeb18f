/**
  A message from the sender's gather list to the receiver's scatter list, packet by packet:
  the sender's copy reads each packet's share, the receiver's copy lands it at the offset
  it has reached so far.
 */
module Transfer {
  import opened WorkRequest
  import opened SendQueue
  import opened Memory
  import opened ScatterGather

  /** One end of a transfer: regions, memory size, scatter/gather list, and access it must have. */
  datatype Side = Side(table: MrTable, memorySize: nat, need: set<Access>, sges: seq<Sge>) {
    predicate Ok() {
      TableOk(table, memorySize)
    }

    function Buffer(): seq<nat>
      requires Ok()
    {
      Flat(table, memorySize, need, sges)
    }

    /** The list holds `length` bytes, and the elements they take up lie in their regions. */
    predicate Holds(length: nat)
      requires Ok()
    {
      length <= |Buffer()| && NeededInside(table, need, sges, 0, length)
    }

    /** Where the first `length` bytes of the list are. */
    function Bytes(length: nat): seq<nat>
      requires Ok() && length <= |Buffer()|
    {
      Buffer()[..length]
    }

    /** The spots and the status of one copy. */
    function Copy(offset: nat, size: nat): (seq<nat>, WcStatus)
      requires Ok()
    {
      SgePlan(table, memorySize, need, sges, offset, size)
    }
  }

  datatype Landing = Landing(memory: seq<Byte>, offset: nat)

  /** Packet `k`: copied out at `k` path MTUs, landed at the receiver's offset. */
  function Land(from: Side, source: seq<Byte>, to: Side, l: Landing, mtu: Mtu, length: nat, k: nat): Landing
    requires from.Ok() && to.Ok()
  {
    var size := PayloadSize(mtu, length, NumPackets(mtu, length), k);
    if size < 0 then l
    else
      var out, into := from.Copy(k * mtu, size), to.Copy(l.offset, size);
      if Fits(out.0, source) && Fits(into.0, l.memory) && |out.0| == |into.0|
      then Landing(Scattered(l.memory, into.0, Gathered(source, out.0)), l.offset + size)
      else l
  }

  predicate Fits(spots: seq<nat>, memory: seq<Byte>) {
    forall i :: 0 <= i < |spots| ==> spots[i] < |memory|
  }

  /** Packets 0..k in PSN order. */
  function LandAll(from: Side, source: seq<Byte>, to: Side, memory: seq<Byte>, mtu: Mtu, length: nat, k: nat): Landing
    requires from.Ok() && to.Ok()
  {
    if k == 0 then Landing(memory, 0)
    else Land(from, source, to, LandAll(from, source, to, memory, mtu, length, k - 1), mtu, length, k - 1)
  }

  lemma BufferFits(side: Side, memory: seq<Byte>, length: nat)
    requires side.Ok() && 0 < length && side.Holds(length) && |memory| == side.memorySize
    ensures Fits(side.Bytes(length), memory)
  {
    hide Flat, SgePlan, TableOk, NeededInside;
    FlatCopy(side.table, side.memorySize, side.need, side.sges, 0, length);
    PlanInMemory(side.table, side.memorySize, side.need, side.sges, 0, length);
    assert Window(side.Buffer(), 0, length) == side.Buffer()[0..length] == side.Bytes(length);
    assert forall i :: 0 <= i < length ==> side.Bytes(length)[i] in side.Bytes(length);
  }

  /** Both ends hold `length` bytes. */
  predicate Ready(from: Side, source: seq<Byte>, to: Side, memory: seq<Byte>, length: nat) {
    && from.Ok() && to.Ok()
    && |source| == from.memorySize && |memory| == to.memorySize
    && 0 < length && from.Holds(length) && to.Holds(length)
  }

  /** Every copy of the transfer succeeds and visits the packet's share of the two buffers. */
  lemma PacketCopies(side: Side, mtu: Mtu, length: nat, k: nat)
    requires side.Ok() && 0 < length && side.Holds(length) && k < NumPackets(mtu, length)
    ensures var size := PayloadSize(mtu, length, NumPackets(mtu, length), k);
      && 0 < size <= mtu && k * mtu + size <= length
      && side.Copy(k * mtu, size) == (side.Bytes(length)[k * mtu..k * mtu + size], Success)
  {
    hide Flat, SgePlan, TableOk, NeededInside, NumPackets;
    PacketFits(mtu, length, k);
    NeededPart(side.table, side.need, side.sges, 0, length, k * mtu, PayloadSize(mtu, length, NumPackets(mtu, length), k));
    FlatCopy(side.table, side.memorySize, side.need, side.sges, k * mtu, PayloadSize(mtu, length, NumPackets(mtu, length), k));
    var lo, hi := k * mtu, k * mtu + PayloadSize(mtu, length, NumPackets(mtu, length), k);
    assert side.Bytes(length)[lo..hi] == side.Buffer()[lo..hi];
  }

  lemma GatheredPart(memory: seq<Byte>, spots: seq<nat>, lo: nat, hi: nat)
    requires lo <= hi <= |spots| && Fits(spots, memory)
    ensures Fits(spots[lo..hi], memory) && Fits(spots[..lo], memory) && Fits(spots[..hi], memory)
    ensures Gathered(memory, spots[..lo]) + Gathered(memory, spots[lo..hi]) == Gathered(memory, spots[..hi])
    ensures spots[..lo] + spots[lo..hi] == spots[..hi]
  {
  }

  /** After `k` packets the receiver's memory is as if one copy had moved the bytes so far. */
  lemma {:induction false} LandedSoFar(from: Side, source: seq<Byte>, to: Side, memory: seq<Byte>, mtu: Mtu, length: nat, k: nat)
    requires Ready(from, source, to, memory, length) && k <= NumPackets(mtu, length)
    ensures var n := Reached(mtu, length, k);
      && n <= length
      && Fits(to.Bytes(length)[..n], memory) && Fits(from.Bytes(length)[..n], source)
      && LandAll(from, source, to, memory, mtu, length, k)
         == Landing(Scattered(memory, to.Bytes(length)[..n], Gathered(source, from.Bytes(length)[..n])), n)
  {
    hide NumPackets, Flat, SgePlan, TableOk, NeededInside, PayloadSize, Gathered, Scattered;
    BufferFits(from, source, length);
    BufferFits(to, memory, length);
    if k == 0 {
      GatheredPart(source, from.Bytes(length), 0, 0);
      GatheredSize(source, from.Bytes(length)[..0]);
      ScatteredNothing(memory, to.Bytes(length)[..0], Gathered(source, from.Bytes(length)[..0]));
    } else {
      LandedSoFar(from, source, to, memory, mtu, length, k - 1);
      PacketCopies(from, mtu, length, k - 1);
      PacketCopies(to, mtu, length, k - 1);
      PacketFits(mtu, length, k - 1);
      var lo := (k - 1) * mtu;
      var hi := lo + PayloadSize(mtu, length, NumPackets(mtu, length), k - 1);
      assert hi == Reached(mtu, length, k);
      var out, into := from.Bytes(length), to.Bytes(length);
      GatheredPart(source, out, lo, hi);
      GatheredPart(memory, into, lo, hi);
      GatheredSize(source, out[..lo]);
      GatheredSize(source, out[lo..hi]);
      ScatterJoin(memory, into[..lo], Gathered(source, out[..lo]), into[lo..hi], Gathered(source, out[lo..hi]));
    }
  }

  lemma ScatteredNothing(memory: seq<Byte>, spots: seq<nat>, bytes: seq<Byte>)
    requires spots == [] && bytes == []
    ensures Scattered(memory, spots, bytes) == memory
  {
  }

  lemma GatheredSize(memory: seq<Byte>, spots: seq<nat>)
    requires Fits(spots, memory)
    ensures |Gathered(memory, spots)| == |spots|
  {
  }

  /**
    Segmenting a message and landing the packets in order puts exactly the message into the
    receive buffer, touches nothing else and counts the full length.
   */
  lemma MessageLandsIntact(from: Side, source: seq<Byte>, to: Side, memory: seq<Byte>, mtu: Mtu, length: nat)
    requires Ready(from, source, to, memory, length)
    requires forall i, j :: 0 <= i < j < length ==> to.Bytes(length)[i] != to.Bytes(length)[j]
    ensures var landed := LandAll(from, source, to, memory, mtu, length, NumPackets(mtu, length));
      var target := to.Bytes(length);
      && landed.offset == length
      && |landed.memory| == |memory|
      && Fits(target, landed.memory) && Fits(from.Bytes(length), source)
      && Gathered(landed.memory, target) == Gathered(source, from.Bytes(length))
      && forall p :: 0 <= p < |memory| && p !in target ==> landed.memory[p] == memory[p]
  {
    hide NumPackets, Flat, SgePlan, TableOk, NeededInside, PayloadSize, LandAll, Scattered;
    LandedSoFar(from, source, to, memory, mtu, length, NumPackets(mtu, length));
    assert to.Bytes(length)[..length] == to.Bytes(length) && from.Bytes(length)[..length] == from.Bytes(length);
    var target, bytes := to.Bytes(length), Gathered(source, from.Bytes(length));
    ScatterThenGather(memory, target, bytes);
    forall p | 0 <= p < |memory| && p !in target ensures Scattered(memory, target, bytes)[p] == memory[p] {
      ScatterReads(memory, target, bytes, p);
    }
  }
}
