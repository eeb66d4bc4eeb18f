/**
  What a run leaves in the receiver's memory: the effects the responder executed, applied one after
  the other.  A SEND goes to the receive buffer its turn has come to, an RDMA WRITE to the region its
  key names, an atomic to eight bytes of its region.
 */
module RunMemory {
  import Psn
  import opened WorkRequest
  import opened SendQueue
  import SQI = SendQueueInvariant
  import opened ReceiveQueue
  import opened ReceiveQueueInvariant
  import opened Protocol
  import opened ResponderExecution
  import opened AckTruth
  import opened ProtocolSafety
  import opened ProtocolTheorems
  import opened ProtocolProgress
  import opened Memory
  import opened ScatterGather
  import T = Transfer

  /** The receiver's memory and the number of receive entries used up. */
  datatype Store = Store(memory: seq<Byte>, next: nat)

  /** The receive buffers in the order they were posted, the regions, the size of the memory, and what an atomic stores. */
  datatype World = World(bufs: seq<T.Side>, table: MrTable, size: nat, atomic: (seq<Byte>, int, int) -> seq<Byte>) {
    predicate Ok() {
      TableOk(table, size) && forall i :: 0 <= i < |bufs| ==> bufs[i].Ok() && bufs[i].memorySize == size
    }
  }

  // ---------------------------------------------------------------------------
  // One effect

  /** What receive_RDMA_WRITE_request asks of a region. */
  const WRITE_ACCESS: set<Access> := {LocalWrite, RemoteWrite}

  /** The bytes from `addr` of the region a remote key names, if it grants `need` and they lie in it. */
  function Target(w: World, need: set<Access>, rkey: int, addr: int, n: nat): seq<nat>
    requires w.Ok()
  {
    if rkey < 0 || addr < 0 || !Grants(w.table, rkey, need) then []
    else
      var mr := w.table[KeyIndex(rkey)].value;
      if Outside(mr, Sge(addr, n, 0), n) then [] else Walk(mr, addr - mr.start + mr.skew, n)
  }

  /** The positions an effect writes and the bytes it writes there. */
  function Writes(w: World, st: Store, e: Effect): (seq<nat>, seq<Byte>)
    requires w.Ok()
  {
    match e
    case Placed(offset, bytes, _) =>
      if st.next >= |w.bufs| || offset < 0 || bytes == [] then ([], [])
      else
        var spots := w.bufs[st.next].Copy(offset, |bytes|).0;
        (spots, if |spots| <= |bytes| then bytes[..|spots|] else [])
    case Wrote(rkey, addr, bytes, _) =>
      var spots := Target(w, WRITE_ACCESS, rkey, addr, |bytes|);
      (spots, if |spots| == |bytes| then bytes else [])
    case AtomicApplied(rkey, addr) =>
      var bytes := w.atomic(st.memory, rkey, addr);
      var spots := Target(w, {RemoteAtomic}, rkey, addr, 8);
      if |spots| == |bytes| then (spots, bytes) else ([], [])
    case _ => ([], [])
  }

  /** The last packet of a SEND or of an RDMA WRITE with immediate data uses up a receive entry. */
  predicate Consumes(e: Effect) {
    (e.Placed? && e.completes) || (e.Wrote? && e.notifies)
  }

  function Land(w: World, st: Store, e: Effect): Store
    requires w.Ok()
  {
    var (spots, bytes) := Writes(w, st, e);
    var next := if Consumes(e) then st.next + 1 else st.next;
    if |spots| == |bytes| && T.Fits(spots, st.memory) then Store(Scattered(st.memory, spots, bytes), next)
    else Store(st.memory, next)
  }

  function After(w: World, st: Store, effects: seq<Effect>): Store
    requires w.Ok()
  {
    if effects == [] then st
    else
      var n := |effects| - 1;
      Land(w, After(w, st, effects[..n]), effects[n])
  }

  /** No effect is cut short: its positions lie in memory and there is a byte for each. */
  lemma WritesFit(w: World, st: Store, e: Effect)
    requires w.Ok() && |st.memory| == w.size
    ensures var (spots, bytes) := Writes(w, st, e); |spots| == |bytes| && T.Fits(spots, st.memory)
  {
    hide SgePlan, TableOk, Walk, Grants;
    if e.Placed? && st.next < |w.bufs| && 0 <= e.offset && e.bytes != [] {
      var b := w.bufs[st.next];
      SuccessIff(b.table, b.memorySize, b.need, b.sges, e.offset, |e.bytes|);
      PlanInMemory(b.table, b.memorySize, b.need, b.sges, e.offset, |e.bytes|);
      assert forall i :: 0 <= i < |b.Copy(e.offset, |e.bytes|).0| ==> b.Copy(e.offset, |e.bytes|).0[i] in b.Copy(e.offset, |e.bytes|).0;
    } else if e.Wrote? {
      TargetFits(w, WRITE_ACCESS, e.rkey, e.addr, |e.bytes|);
    } else if e.AtomicApplied? {
      TargetFits(w, {RemoteAtomic}, e.rkey, e.addr, 8);
    }
  }

  lemma TargetFits(w: World, need: set<Access>, rkey: int, addr: int, n: nat)
    requires w.Ok()
    ensures var spots := Target(w, need, rkey, addr, n);
      && (spots == [] || |spots| == n)
      && forall i :: 0 <= i < |spots| ==> spots[i] < w.size
  {
    hide Spot, MinNat;
    if 0 <= rkey && 0 <= addr && Grants(w.table, rkey, need) {
      var mr := w.table[KeyIndex(rkey)].value;
      assert MrOk(mr, w.size);
      if !Outside(mr, Sge(addr, n, 0), n) {
        var from := addr - mr.start + mr.skew;
        forall i | 0 <= i < n ensures Walk(mr, from, n)[i] < w.size {
          SpotInMemory(mr, w.size, from + i);
        }
      }
    }
  }

  lemma LandSize(w: World, st: Store, e: Effect)
    requires w.Ok()
    ensures |Land(w, st, e).memory| == |st.memory|
    ensures Land(w, st, e).next == st.next + if Consumes(e) then 1 else 0
  {
    hide Writes;
  }

  /** An effect changes nothing but the positions it writes. */
  lemma LandElsewhere(w: World, st: Store, e: Effect, p: nat)
    requires w.Ok() && p < |st.memory| && p !in Writes(w, st, e).0
    ensures |Land(w, st, e).memory| == |st.memory| && Land(w, st, e).memory[p] == st.memory[p]
  {
    hide Writes, Scattered;
    var (spots, bytes) := Writes(w, st, e);
    if |spots| == |bytes| && T.Fits(spots, st.memory) {
      ScatterReads(st.memory, spots, bytes, p);
    }
  }

  // ---------------------------------------------------------------------------
  // Several effects

  lemma {:induction false} AfterJoin(w: World, st: Store, a: seq<Effect>, b: seq<Effect>)
    requires w.Ok()
    ensures After(w, st, a + b) == After(w, After(w, st, a), b)
    decreases |b|
  {
    hide Land;
    if b == [] {
      assert a + b == a;
    } else {
      var n := |b| - 1;
      AfterJoin(w, st, a, b[..n]);
      assert (a + b)[..|a + b| - 1] == a + b[..n] && (a + b)[|a + b| - 1] == b[n];
    }
  }

  lemma AfterOne(w: World, st: Store, effects: seq<Effect>, e: Effect)
    requires w.Ok()
    ensures After(w, st, effects + [e]) == Land(w, After(w, st, effects), e)
  {
    hide Land;
    assert (effects + [e])[..|effects|] == effects;
  }

  function CountUsed(effects: seq<Effect>): nat {
    if effects == [] then 0
    else CountUsed(effects[..|effects| - 1]) + if Consumes(effects[|effects| - 1]) then 1 else 0
  }

  lemma {:induction false} AfterSize(w: World, st: Store, effects: seq<Effect>)
    requires w.Ok()
    ensures |After(w, st, effects).memory| == |st.memory|
    ensures After(w, st, effects).next == st.next + CountUsed(effects)
    decreases |effects|
  {
    hide Land;
    if effects != [] {
      var n := |effects| - 1;
      AfterSize(w, st, effects[..n]);
      LandSize(w, After(w, st, effects[..n]), effects[n]);
    }
  }

  /** No effect from number `from` on writes to `place`. */
  ghost predicate Untouched(w: World, st: Store, effects: seq<Effect>, from: nat, place: seq<nat>)
    requires w.Ok()
  {
    forall k, p :: from <= k < |effects| && p in place ==> p !in Writes(w, After(w, st, effects[..k]), effects[k]).0
  }

  /** What stood at `place` after the first `from` effects stands there still if no later one wrote there. */
  lemma {:induction false} StaysPut(w: World, st: Store, effects: seq<Effect>, from: nat, place: seq<nat>, p: nat)
    requires w.Ok() && from <= |effects| && Untouched(w, st, effects, from, place) && p in place && p < |st.memory|
    ensures |After(w, st, effects).memory| == |After(w, st, effects[..from]).memory| == |st.memory|
    ensures After(w, st, effects).memory[p] == After(w, st, effects[..from]).memory[p]
    decreases |effects|
  {
    hide Land, Writes;
    AfterSize(w, st, effects);
    AfterSize(w, st, effects[..from]);
    if from < |effects| {
      var n := |effects| - 1;
      assert effects[..n][..from] == effects[..from];
      assert Untouched(w, st, effects[..n], from, place) by {
        forall k, q | from <= k < n && q in place ensures q !in Writes(w, After(w, st, effects[..n][..k]), effects[..n][k]).0 {
          assert effects[..n][..k] == effects[..k];
        }
      }
      StaysPut(w, st, effects[..n], from, place, p);
      LandElsewhere(w, After(w, st, effects[..n]), effects[n], p);
    } else {
      assert effects[..from] == effects;
    }
  }

  // ---------------------------------------------------------------------------
  // Only what a key gives away

  /** Position `p` holds byte `k` of the range at `addr`, in the region the remote key names. */
  predicate RemoteByte(w: World, need: set<Access>, rkey: int, addr: int, p: nat, k: nat)
    requires w.Ok()
  {
    && 0 <= rkey && w.table[(rkey / 0x100) % MAX_MR_PER_PD].Some?
    && var mr := w.table[(rkey / 0x100) % MAX_MR_PER_PD].value;
       && mr.valid && mr.rkey == rkey && (forall a :: a in need ==> a in mr.access)
       && mr.start <= addr + k < mr.start + mr.length && mr.pageSize > 0
       && var x := addr + k - mr.start + mr.skew;
          x / mr.pageSize < |mr.pages| && p == mr.pages[x / mr.pageSize] + x % mr.pageSize
  }

  /** An effect may write `p`: a SEND into the receive buffer in turn, the others where their remote key lets them. */
  ghost predicate MayWrite(w: World, next: nat, e: Effect, p: nat)
    requires w.Ok()
  {
    match e
    case Placed(_, _, _) =>
      next < |w.bufs| && var b := w.bufs[next]; exists i, k :: Permitted(b.table, b.memorySize, b.need, b.sges, p, i, k)
    case Wrote(rkey, addr, bytes, _) => exists k: nat :: k < |bytes| && RemoteByte(w, {LocalWrite, RemoteWrite}, rkey, addr, p, k)
    case AtomicApplied(rkey, addr) => exists k: nat :: k < 8 && RemoteByte(w, {RemoteAtomic}, rkey, addr, p, k)
    case _ => false
  }

  lemma TargetByte(w: World, need: set<Access>, rkey: int, addr: int, n: nat, p: nat) returns (k: nat)
    requires w.Ok() && p in Target(w, need, rkey, addr, n)
    ensures k < n && RemoteByte(w, need, rkey, addr, p, k)
  {
    hide MinNat;
    var mr := w.table[KeyIndex(rkey)].value;
    assert MrOk(mr, w.size);
    OutsideIff(mr, Sge(addr, n, 0), n);
    var from, spots := addr - mr.start + mr.skew, Target(w, need, rkey, addr, n);
    k :| 0 <= k < |spots| && spots[k] == p;
    assert spots[k] == Spot(mr, from + k);
    PageIndex(from + k, mr.pageSize, |mr.pages|);
  }

  lemma WritesAllowed(w: World, st: Store, e: Effect, p: nat)
    requires w.Ok() && p in Writes(w, st, e).0
    ensures MayWrite(w, st.next, e, p)
  {
    hide TableOk, Target, SgePlan, Permitted, RemoteByte;
    match e
    case Placed(offset, bytes, _) =>
      var b := w.bufs[st.next];
      var i, k := OnlyPermitted(b.table, b.memorySize, b.need, b.sges, offset, |bytes|, p);
    case Wrote(rkey, addr, bytes, _) =>
      var k := TargetByte(w, WRITE_ACCESS, rkey, addr, |bytes|, p);
    case AtomicApplied(rkey, addr) =>
      var k := TargetByte(w, {RemoteAtomic}, rkey, addr, 8, p);
    case _ =>
  }

  /**
    Whatever was executed, a byte of the receiver's memory that has changed was open to one of the effects: it
    belongs to the receive buffer a SEND went to, or to a region whose key an RDMA WRITE or an atomic carried.
   */
  lemma {:induction false} OnlyAllowedChange(w: World, st: Store, effects: seq<Effect>, p: nat) returns (j: nat)
    requires w.Ok() && p < |st.memory| == |After(w, st, effects).memory| && After(w, st, effects).memory[p] != st.memory[p]
    ensures j < |effects| && MayWrite(w, After(w, st, effects[..j]).next, effects[j], p)
    decreases |effects|
  {
    hide Land, Writes, MayWrite;
    var n := |effects| - 1;
    var before := After(w, st, effects[..n]);
    AfterSize(w, st, effects[..n]);
    if p in Writes(w, before, effects[n]).0 {
      WritesAllowed(w, before, effects[n], p);
      j := n;
    } else {
      LandElsewhere(w, before, effects[n], p);
      j := OnlyAllowedChange(w, st, effects[..n], p);
      assert effects[..n][..j] == effects[..j];
    }
  }

  // ---------------------------------------------------------------------------
  // The message of one item

  function MessageOf(item: Item): seq<Byte> {
    item.wr.data[..Clamp(item.wr.length, |item.wr.data|)]
  }

  predicate CarriesData(opcode: WrOpcode) {
    IsSend(opcode) || IsWrite(opcode)
  }

  /** The bytes of the message the first `k` packets bring. */
  function Brought(mtu: Mtu, item: Item, k: nat): nat {
    Clamp(Reached(mtu, item.wr.length, k), |item.wr.data|)
  }

  lemma ChunkPlace(mtu: Mtu, item: Item, k: nat)
    requires ItemOk(mtu, item) && CarriesData(item.wr.opcode) && k < item.all
    ensures var lo, hi := Brought(mtu, item, k), Brought(mtu, item, k + 1);
      && lo <= hi <= |MessageOf(item)|
      && Chunk(mtu, item.wr, item.all, k) == MessageOf(item)[lo..hi]
      && (lo < hi ==> k * mtu == lo)
      && (k + 1 == item.all ==> hi == |MessageOf(item)|)
  {
    ReachStep(mtu, item.wr.length, k);
    hide NumPackets, PayloadSize;
    var lo, hi := Brought(mtu, item, k), Brought(mtu, item, k + 1);
    assert k + 1 == item.all ==> Reached(mtu, item.wr.length, k + 1) == item.wr.length;
    assert hi <= |MessageOf(item)|;
    assert MessageOf(item)[lo..hi] == item.wr.data[lo..hi];
  }

  /** The effect of packet `k` writes its part of the message to its part of `place`. */
  predicate PartTo(w: World, st: Store, mtu: Mtu, item: Item, place: seq<nat>, k: nat)
    requires w.Ok()
  {
    var (spots, bytes) := Writes(w, st, EffectOf(mtu, item, k));
    var lo, hi := Brought(mtu, item, k), Brought(mtu, item, k + 1);
    lo <= hi <= |place| && hi <= |MessageOf(item)| && spots == place[lo..hi] && bytes == MessageOf(item)[lo..hi]
  }

  /** Packet by packet, the item's effects write its message to `place`. */
  ghost predicate WritesTo(w: World, next: nat, mtu: Mtu, item: Item, place: seq<nat>)
    requires w.Ok()
  {
    && |place| == |MessageOf(item)|
    && (forall i :: 0 <= i < |place| ==> place[i] < w.size)
    && forall k: nat, memory :: k < item.all ==> PartTo(w, Store(memory, next), mtu, item, place, k)
  }

  predicate UsesEntry(opcode: WrOpcode) {
    IsSend(opcode) || opcode == WrWriteImm
  }

  lemma EffectConsumes(mtu: Mtu, item: Item, k: nat)
    ensures Consumes(EffectOf(mtu, item, k)) <==> UsesEntry(item.wr.opcode) && k + 1 == item.all
  {
    hide Chunk;
  }

  lemma {:induction false} ItemLands(w: World, st: Store, mtu: Mtu, item: Item, place: seq<nat>, k: nat)
    requires w.Ok() && |st.memory| == w.size && ItemOk(mtu, item) && k <= item.all && WritesTo(w, st.next, mtu, item, place)
    ensures var n := Brought(mtu, item, k);
      && n <= |place| && T.Fits(place[..n], st.memory)
      && After(w, st, EffectsOf(mtu, item, k))
         == Store(Scattered(st.memory, place[..n], MessageOf(item)[..n]),
                  if UsesEntry(item.wr.opcode) && k == item.all then st.next + 1 else st.next)
    decreases k
  {
    hide NumPackets, Brought, MessageOf, EffectOf, Writes, After, Scattered;
    AllPositive(mtu, item);
    if k == 0 {
      StartsEmpty(mtu, item);
      EmptyStart(w, st, place, MessageOf(item));
    } else {
      ItemLands(w, st, mtu, item, place, k - 1);
      AfterOne(w, st, EffectsOf(mtu, item, k - 1), EffectOf(mtu, item, k - 1));
      EffectConsumes(mtu, item, k - 1);
      var lo, hi, message := Brought(mtu, item, k - 1), Brought(mtu, item, k), MessageOf(item);
      var memory := Scattered(st.memory, place[..lo], message[..lo]);
      assert PartTo(w, Store(memory, st.next), mtu, item, place, k - 1);
      ScatterJoin(st.memory, place[..lo], message[..lo], place[lo..hi], message[lo..hi]);
      assert place[..lo] + place[lo..hi] == place[..hi] && message[..lo] + message[lo..hi] == message[..hi];
    }
  }

  lemma EmptyStart(w: World, st: Store, spots: seq<nat>, message: seq<Byte>)
    requires w.Ok()
    ensures T.Fits(spots[..0], st.memory) && Scattered(st.memory, spots[..0], message[..0]) == st.memory
    ensures After(w, st, []) == st
  {
  }

  lemma AllPositive(mtu: Mtu, item: Item)
    requires ItemOk(mtu, item)
    ensures item.all >= 1
  {
    hide NumPackets;
  }

  lemma StartsEmpty(mtu: Mtu, item: Item)
    requires ItemOk(mtu, item)
    ensures Brought(mtu, item, 0) == 0
  {
    hide NumPackets;
  }

  lemma WholeBrought(mtu: Mtu, item: Item)
    requires ItemOk(mtu, item) && CarriesData(item.wr.opcode)
    ensures Brought(mtu, item, item.all) == |MessageOf(item)|
  {
    hide NumPackets;
  }

  ghost predicate Distinct(place: seq<nat>) {
    forall i, j :: 0 <= i < j < |place| ==> place[i] != place[j]
  }

  /** `message` stands at `place`, byte for byte. */
  ghost predicate InPlace(memory: seq<Byte>, place: seq<nat>, message: seq<Byte>) {
    T.Fits(place, memory) && Gathered(memory, place) == message
  }

  /** With its last packet the message is in place. */
  lemma MessageInPlace(w: World, st: Store, mtu: Mtu, item: Item, place: seq<nat>)
    requires w.Ok() && |st.memory| == w.size && ItemOk(mtu, item) && CarriesData(item.wr.opcode)
    requires WritesTo(w, st.next, mtu, item, place) && Distinct(place)
    ensures InPlace(After(w, st, EffectsOf(mtu, item, item.all)).memory, place, MessageOf(item))
  {
    hide NumPackets, Brought, MessageOf, EffectsOf, Writes, After, Scattered, Gathered;
    ItemLands(w, st, mtu, item, place, item.all);
    WholeBrought(mtu, item);
    var message := MessageOf(item);
    assert place[..|place|] == place && message[..|message|] == message;
    ScatterThenGather(st.memory, place, message);
  }

  // ---------------------------------------------------------------------------
  // Where SENDs and RDMA WRITEs go

  /** The list holds `length` bytes, in elements that are usable and lie in their regions. */
  predicate Roomy(side: T.Side, length: nat) {
    side.Ok() && side.Holds(length)
  }

  /** One packet of a SEND goes to its part of the buffer. */
  lemma SendChunk(w: World, st: Store, mtu: Mtu, item: Item, k: nat)
    requires w.Ok() && ItemOk(mtu, item) && IsSend(item.wr.opcode) && k < item.all
    requires st.next < |w.bufs| && Roomy(w.bufs[st.next], |MessageOf(item)|)
    ensures |MessageOf(item)| <= |w.bufs[st.next].Buffer()|
    ensures PartTo(w, st, mtu, item, w.bufs[st.next].Bytes(|MessageOf(item)|), k)
  {
    hide NumPackets, Brought, MessageOf, Roomy, Flat, SgePlan, NeededInside, TableOk, ItemOk, Chunk;
    var side, length := w.bufs[st.next], |MessageOf(item)|;
    var lo, hi := Brought(mtu, item, k), Brought(mtu, item, k + 1);
    ChunkPlace(mtu, item, k);
    RoomyParts(side, length);
    if lo < hi {
      PayloadLands(side, length, lo, hi);
    }
  }

  lemma SendWritesTo(w: World, next: nat, mtu: Mtu, item: Item)
    requires w.Ok() && ItemOk(mtu, item) && IsSend(item.wr.opcode)
    requires next < |w.bufs| && Roomy(w.bufs[next], |MessageOf(item)|)
    ensures WritesTo(w, next, mtu, item, w.bufs[next].Bytes(|MessageOf(item)|))
  {
    hide PartTo, MessageOf, Roomy, ItemOk, IsSend;
    RoomyParts(w.bufs[next], |MessageOf(item)|);
    forall k: nat, memory: seq<Byte> | k < item.all
      ensures PartTo(w, Store(memory, next), mtu, item, w.bufs[next].Bytes(|MessageOf(item)|), k)
    {
      SendChunk(w, Store(memory, next), mtu, item, k);
    }
  }

  lemma RoomyParts(side: T.Side, length: nat)
    requires Roomy(side, length)
    ensures side.Ok() && length <= |side.Buffer()|
    ensures forall i :: 0 <= i < length ==> side.Bytes(length)[i] < side.memorySize
  {
    hide SgePlan, Flat, NeededInside, TableOk;
    if length > 0 {
      FlatCopy(side.table, side.memorySize, side.need, side.sges, 0, length);
      PlanInMemory(side.table, side.memorySize, side.need, side.sges, 0, length);
      assert Window(side.Buffer(), 0, length) == side.Buffer()[0..length] == side.Bytes(length);
      assert forall i :: 0 <= i < length ==> side.Bytes(length)[i] in side.Bytes(length);
    }
  }

  /** A payload that fits goes to its place in the buffer. */
  lemma PayloadLands(side: T.Side, length: nat, lo: nat, hi: nat)
    requires Roomy(side, length) && lo < hi <= length
    ensures side.Copy(lo, hi - lo).0 == side.Bytes(length)[lo..hi]
  {
    hide Flat, SgePlan, TableOk, NeededInside;
    NeededPart(side.table, side.need, side.sges, 0, length, lo, hi - lo);
    FlatCopy(side.table, side.memorySize, side.need, side.sges, lo, hi - lo);
    assert side.Bytes(length)[lo..hi] == side.Buffer()[lo..hi];
  }

  /** The key names a region that may be written from afar and holds the range; no address in it wraps. */
  predicate Writable(w: World, rkey: int, addr: int, length: nat)
    requires w.Ok()
  {
    && 0 <= rkey && 0 <= addr && w.table[(rkey / 0x100) % MAX_MR_PER_PD].Some?
    && var mr := w.table[(rkey / 0x100) % MAX_MR_PER_PD].value;
       && mr.valid && mr.rkey == rkey && LocalWrite in mr.access && RemoteWrite in mr.access
       && mr.start <= addr && addr + length <= mr.start + mr.length <= Psn.TWO64
  }

  /** The positions of a writable range. */
  function Region(w: World, rkey: int, addr: int, length: nat): seq<nat>
    requires w.Ok() && Writable(w, rkey, addr, length)
  {
    var mr := w.table[KeyIndex(rkey)].value;
    assert MrOk(mr, w.size);
    Walk(mr, addr - mr.start + mr.skew, length)
  }

  lemma RegionPart(w: World, rkey: int, addr: int, length: nat, lo: nat, hi: nat)
    requires w.Ok() && Writable(w, rkey, addr, length) && lo < hi <= length
    ensures |Region(w, rkey, addr, length)| == length
    ensures Target(w, WRITE_ACCESS, rkey, Add64(addr, lo), hi - lo) == Region(w, rkey, addr, length)[lo..hi]
  {
    hide Spot;
    var mr := w.table[KeyIndex(rkey)].value;
    assert MrOk(mr, w.size);
    assert Add64(addr, lo) == addr + lo;
    var from := addr - mr.start + mr.skew;
    assert Walk(mr, from + lo, hi - lo) == Walk(mr, from, length)[lo..hi];
  }

  lemma RegionFits(w: World, rkey: int, addr: int, length: nat)
    requires w.Ok() && Writable(w, rkey, addr, length)
    ensures |Region(w, rkey, addr, length)| == length
    ensures forall i :: 0 <= i < length ==> Region(w, rkey, addr, length)[i] < w.size
  {
    hide Spot;
    var mr := w.table[KeyIndex(rkey)].value;
    assert MrOk(mr, w.size);
    forall i | 0 <= i < length ensures Region(w, rkey, addr, length)[i] < w.size {
      SpotInMemory(mr, w.size, addr - mr.start + mr.skew + i);
    }
  }

  /** One packet of an RDMA WRITE goes to its part of the range. */
  lemma WriteChunk(w: World, st: Store, mtu: Mtu, item: Item, k: nat)
    requires w.Ok() && ItemOk(mtu, item) && IsWrite(item.wr.opcode) && k < item.all
    requires Writable(w, item.wr.rkey, item.wr.raddr, |MessageOf(item)|)
    ensures PartTo(w, st, mtu, item, Region(w, item.wr.rkey, item.wr.raddr, |MessageOf(item)|), k)
  {
    hide NumPackets, Brought, MessageOf, Region, Target, Writable, Add64, ItemOk, Chunk;
    var length := |MessageOf(item)|;
    var lo, hi := Brought(mtu, item, k), Brought(mtu, item, k + 1);
    ChunkPlace(mtu, item, k);
    RegionFits(w, item.wr.rkey, item.wr.raddr, length);
    if lo < hi {
      RegionPart(w, item.wr.rkey, item.wr.raddr, length, lo, hi);
    } else {
      TargetEmpty(w, item.wr.rkey, Add64(item.wr.raddr, k * mtu));
    }
  }

  lemma WriteWritesTo(w: World, next: nat, mtu: Mtu, item: Item)
    requires w.Ok() && ItemOk(mtu, item) && IsWrite(item.wr.opcode)
    requires Writable(w, item.wr.rkey, item.wr.raddr, |MessageOf(item)|)
    ensures WritesTo(w, next, mtu, item, Region(w, item.wr.rkey, item.wr.raddr, |MessageOf(item)|))
  {
    hide PartTo, MessageOf, ItemOk, IsWrite, Writable, Region;
    var place := Region(w, item.wr.rkey, item.wr.raddr, |MessageOf(item)|);
    RegionFits(w, item.wr.rkey, item.wr.raddr, |MessageOf(item)|);
    forall k: nat, memory: seq<Byte> | k < item.all ensures PartTo(w, Store(memory, next), mtu, item, place, k) {
      WriteChunk(w, Store(memory, next), mtu, item, k);
    }
  }

  lemma TargetEmpty(w: World, rkey: int, addr: int)
    requires w.Ok()
    ensures Target(w, WRITE_ACCESS, rkey, addr, 0) == []
  {
  }

  // ---------------------------------------------------------------------------
  // Whole runs

  /** How many items of the plan use up a receive entry. */
  function EntriesUsed(plan: seq<Item>): nat {
    if plan == [] then 0
    else EntriesUsed(plan[..|plan| - 1]) + if UsesEntry(plan[|plan| - 1].wr.opcode) then 1 else 0
  }

  lemma {:induction false} ItemUses(mtu: Mtu, item: Item, k: nat)
    requires k <= item.all && item.all >= 1
    ensures CountUsed(EffectsOf(mtu, item, k)) == if UsesEntry(item.wr.opcode) && k == item.all then 1 else 0
    decreases k
  {
    hide EffectOf;
    if k > 0 {
      ItemUses(mtu, item, k - 1);
      EffectConsumes(mtu, item, k - 1);
      var effects := EffectsOf(mtu, item, k);
      assert effects[..|effects| - 1] == EffectsOf(mtu, item, k - 1);
    }
  }

  lemma {:induction false} CountJoin(a: seq<Effect>, b: seq<Effect>)
    ensures CountUsed(a + b) == CountUsed(a) + CountUsed(b)
    decreases |b|
  {
    hide Consumes;
    if b == [] {
      assert a + b == a;
    } else {
      CountJoin(a, b[..|b| - 1]);
      assert (a + b)[..|a + b| - 1] == a + b[..|b| - 1];
    }
  }

  /** Executing the first items uses up as many receive entries as they are SENDs and RDMA WRITEs with immediate data. */
  lemma {:induction false} PlanUses(mtu: Mtu, plan: seq<Item>)
    requires forall i :: 0 <= i < |plan| ==> ItemOk(mtu, plan[i])
    ensures CountUsed(IdealEffects(mtu, plan)) == EntriesUsed(plan)
    decreases |plan|
  {
    hide EffectsOf, NumPackets, Consumes;
    if plan != [] {
      var m := |plan| - 1;
      PlanUses(mtu, plan[..m]);
      AllPositive(mtu, plan[m]);
      CountJoin(IdealEffects(mtu, plan[..m]), EffectsOf(mtu, plan[m], StepsOf(plan[m])));
      ItemUses(mtu, plan[m], StepsOf(plan[m]));
    }
  }

  /** Item `i` of the plan has been executed, and its effects end with number `end`. */
  ghost predicate ExecutedUpTo(r: Rq, plan: seq<Item>, i: nat, end: nat) {
    i < |plan| && end <= |r.effects| && r.effects[..end] == IdealEffects(r.attr.mtu, plan[..i + 1])
  }

  /** The place of item `i`: its receive buffer or its remote range, if that has room. */
  ghost predicate HasPlace(w: World, plan: seq<Item>, i: nat, place: seq<nat>)
    requires w.Ok() && i < |plan|
  {
    var item, next := plan[i], EntriesUsed(plan[..i]);
    && Distinct(place)
    && (IsSend(item.wr.opcode) ==>
          next < |w.bufs| && Roomy(w.bufs[next], |MessageOf(item)|) && place == w.bufs[next].Bytes(|MessageOf(item)|))
    && (IsWrite(item.wr.opcode) ==>
          Writable(w, item.wr.rkey, item.wr.raddr, |MessageOf(item)|)
          && place == Region(w, item.wr.rkey, item.wr.raddr, |MessageOf(item)|))
  }

  lemma PlaceWritten(w: World, mtu: Mtu, plan: seq<Item>, i: nat, place: seq<nat>)
    requires w.Ok() && i < |plan| && ItemOk(mtu, plan[i]) && CarriesData(plan[i].wr.opcode) && HasPlace(w, plan, i, place)
    ensures WritesTo(w, EntriesUsed(plan[..i]), mtu, plan[i], place) && Distinct(place)
  {
    hide WritesTo, Roomy, Writable, Region, ItemOk, Distinct, EntriesUsed, MessageOf;
    if IsSend(plan[i].wr.opcode) {
      SendWritesTo(w, EntriesUsed(plan[..i]), mtu, plan[i]);
    } else {
      WriteWritesTo(w, EntriesUsed(plan[..i]), mtu, plan[i]);
    }
  }

  /** The memory just after item `i`. */
  lemma ItemInPlace(w: World, memory: seq<Byte>, mtu: Mtu, plan: seq<Item>, i: nat, place: seq<nat>)
    requires w.Ok() && |memory| == w.size && i < |plan| && (forall j :: 0 <= j < |plan| ==> ItemOk(mtu, plan[j]))
    requires CarriesData(plan[i].wr.opcode) && HasPlace(w, plan, i, place)
    ensures InPlace(After(w, Store(memory, 0), IdealEffects(mtu, plan[..i + 1])).memory, place, MessageOf(plan[i]))
  {
    hide WritesTo, HasPlace, ItemOk, Distinct, EntriesUsed, EffectsOf, IdealEffects, After, InPlace, CountUsed, MessageOf;
    var front, item := plan[..i], plan[i];
    var st := After(w, Store(memory, 0), IdealEffects(mtu, front));
    PlanUses(mtu, front);
    AfterSize(w, Store(memory, 0), IdealEffects(mtu, front));
    PlaceWritten(w, mtu, plan, i, place);
    MessageInPlace(w, st, mtu, item, place);
    assert plan[..i + 1] == front + [item];
    IdealLast(mtu, front, item);
    AfterJoin(w, Store(memory, 0), IdealEffects(mtu, front), EffectsOf(mtu, item, item.all));
  }

  /**
    In every run, whatever the channel does, the message of an executed SEND or RDMA WRITE stands in
    its receive buffer or remote range, byte for byte, from its last packet on until some later effect
    of the run writes there.  The buffer of a SEND is the one whose turn it is: as many as the SENDs
    and RDMA WRITEs with immediate data before it are used up.
   */
  lemma MessagesInMemory(s: System, actions: seq<Action>, w: World, memory: seq<Byte>, i: nat, place: seq<nat>, end: nat, now: nat)
    requires Start(s) && Legal(s, actions) && w.Ok() && |memory| == w.size
    requires var t := Run(s, actions);
      && ExecutedUpTo(t.rq, t.sq.plan, i, end) && end <= now <= |t.rq.effects|
      && CarriesData(t.sq.plan[i].wr.opcode) && HasPlace(w, t.sq.plan, i, place)
      && Untouched(w, Store(memory, 0), t.rq.effects[..now], end, place)
    ensures var t := Run(s, actions);
      InPlace(After(w, Store(memory, 0), t.rq.effects[..now]).memory, place, MessageOf(t.sq.plan[i]))
  {
    hide SQI.Inv, AllGenuine, AllTrue, LocalInv, AcksTrue, ReadsAscend, Run, Legal, Executed, HasPlace, After, Gathered, MessageOf, IdealEffects, EffectsOf;
    SafeRun(s, actions);
    var t := Run(s, actions);
    var mtu, st := t.rq.attr.mtu, Store(memory, 0);
    ItemInPlace(w, memory, mtu, t.sq.plan, i, place);
    assert t.rq.effects[..now][..end] == t.rq.effects[..end];
    AfterSize(w, st, t.rq.effects[..now]);
    StaysInPlace(w, st, t.rq.effects[..now], end, place, MessageOf(t.sq.plan[i]));
  }

  lemma StaysInPlace(w: World, st: Store, effects: seq<Effect>, end: nat, place: seq<nat>, message: seq<Byte>)
    requires w.Ok() && end <= |effects| && Untouched(w, st, effects, end, place)
    requires InPlace(After(w, st, effects[..end]).memory, place, message)
    ensures InPlace(After(w, st, effects).memory, place, message)
  {
    hide After, Untouched;
    AfterSize(w, st, effects[..end]);
    AfterSize(w, st, effects);
    var before, after := After(w, st, effects[..end]).memory, After(w, st, effects).memory;
    forall j | 0 <= j < |place| ensures after[place[j]] == before[place[j]] {
      StaysPut(w, st, effects, end, place, place[j]);
    }
    assert Gathered(after, place) == Gathered(before, place);
  }

  /** Every item the responder is past has been executed; a SEND among them is in the inbox in its turn. */
  lemma DoneIsExecuted(s: System, actions: seq<Action>, i: nat)
    requires Start(s) && Legal(s, actions) && i < Run(s, actions).done
    ensures var t := Run(s, actions);
      && i < |t.sq.plan| && ExecutedUpTo(t.rq, t.sq.plan, i, |IdealEffects(t.rq.attr.mtu, t.sq.plan[..i + 1])|)
      && (IsSend(t.sq.plan[i].wr.opcode) ==>
            var n := |IdealMessages(t.sq.plan[..i])|; n < |t.rq.inbox| && t.rq.inbox[n] == MessageOf(t.sq.plan[i]))
  {
    hide SQI.Inv, AllGenuine, AllTrue, LocalInv, AcksTrue, ReadsAscend, Run, Legal, PlanOk, RecordsMatch, MidMessage, IdealEffects, EffectsOf, IdealMessages;
    SafeRun(s, actions);
    var t := Run(s, actions);
    var plan, mtu := t.sq.plan, t.rq.attr.mtu;
    DoneInEffects(t.rq, plan, t.done, t.part, i);
    if IsSend(plan[i].wr.opcode) {
      assert plan[..i + 1] == plan[..i] + [plan[i]];
      IdealLast(mtu, plan[..i], plan[i]);
      MessagesPrefix(plan[..t.done], i + 1);
      assert plan[..t.done][..i + 1] == plan[..i + 1];
    }
  }

  /** So has every request that was retired with success. */
  lemma SuccessIsInMemory(s: System, actions: seq<Action>, w: World, memory: seq<Byte>, i: nat, place: seq<nat>)
    requires Start(s) && Legal(s, actions) && w.Ok() && |memory| == w.size
    requires var t := Run(s, actions);
      && i < |t.sq.retired| && t.sq.retired[i].status == Success && CarriesData(t.sq.retired[i].wr.opcode)
      && i < |t.sq.plan| && HasPlace(w, t.sq.plan, i, place)
      && Untouched(w, Store(memory, 0), t.rq.effects, |IdealEffects(t.rq.attr.mtu, t.sq.plan[..i + 1])|, place)
    ensures var t := Run(s, actions);
      && t.sq.plan[i].wr == t.sq.retired[i].wr
      && InPlace(After(w, Store(memory, 0), t.rq.effects).memory, place, MessageOf(t.sq.plan[i]))
  {
    hide Run, Legal, HasPlace, After, Untouched, IdealEffects, InPlace, MessageOf;
    SuccessMeansExecuted(s, actions, i);
    var t := Run(s, actions);
    var end := |IdealEffects(t.rq.attr.mtu, t.sq.plan[..i + 1])|;
    assert t.rq.effects[..|t.rq.effects|] == t.rq.effects;
    MessagesInMemory(s, actions, w, memory, i, place, end, |t.rq.effects|);
  }

  // ---------------------------------------------------------------------------
  // Empty messages

  /**
    An empty SEND in its turn is executed if and only if some element of its receive buffer starts
    after the first byte of its region and before its end, with no bad key up to it; otherwise it
    puts the responder in error.
   */
  lemma EmptySendIff(r: Rq, item: Item, side: T.Side)
    requires Poised(r, item, 0) && IsSend(item.wr.opcode) && item.wr.length == 0 && RecvOk(r.state) && r.receives > 0
    requires side.Ok()
    ensures var t := ReceiveSend(r, PacketOf(r.attr.mtu, item, 0), side.Copy(0, 0).1);
      && (t.psn != r.psn <==> exists i :: 0 <= i < |side.sges| && EndsEmptyCopy(side.table, side.need, side.sges, i))
      && (t.psn == r.psn ==> t.state == ERR)
  {
    hide Poised, SgePlan, TableOk, ReceiveSend, EndsEmptyCopy, PacketOf;
    EmptyCopySucceedsIff(side.table, side.memorySize, side.need, side.sges);
    OnePacket(r, item);
    SendServedIff(r, item, 0, side.Copy(0, 0).1);
    if side.Copy(0, 0).1 != Success {
      EmptySendEnds(r, item, side.Copy(0, 0).1);
    }
  }

  lemma OnePacket(r: Rq, item: Item)
    requires Poised(r, item, 0) && IsSend(item.wr.opcode) && item.wr.length == 0
    ensures item.all == 1 && GatherOk(r.attr.mtu, item.wr, item.all, 0)
  {
    hide MidMessage;
  }

  lemma EmptySendEnds(r: Rq, item: Item, mem: WcStatus)
    requires Poised(r, item, 0) && IsSend(item.wr.opcode) && item.wr.length == 0 && RecvOk(r.state) && r.receives > 0
    requires mem != Success
    ensures ReceiveSend(r, PacketOf(r.attr.mtu, item, 0), mem).state == ERR
  {
    OnePacket(r, item);
    hide Chunk, RequestOpcode, SizeOk, JoinChunks, NumPackets, Initial, Final, CarriesImm, HasReth, PushAck;
  }

  /** An empty SEND to a buffer of one element that starts with its region is refused. */
  lemma EmptySendRefused(r: Rq, item: Item, side: T.Side, sge: Sge)
    requires Poised(r, item, 0) && IsSend(item.wr.opcode) && item.wr.length == 0 && RecvOk(r.state) && r.receives > 0
    requires side.Ok() && side.sges == [sge] && Good(side.table, side.need, sge)
    requires sge.addr == RegionOf(side.table, side.need, sge).start
    ensures ReceiveSend(r, PacketOf(r.attr.mtu, item, 0), side.Copy(0, 0).1).state == ERR
  {
    hide Poised, SgePlan, TableOk, ReceiveSend, PacketOf, Good;
    EmptyCopyRefused(side.table, side.memorySize, side.need, sge);
    EmptySendEnds(r, item, side.Copy(0, 0).1);
  }
}
