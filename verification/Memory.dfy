/**
  Moving bytes between a packet buffer and registered memory: the walk over the pages of a
  memory region, and the loop over scatter/gather elements on top of it.  What the loop
  achieves is in ScatterGather.dfy.

  Physical memory is one array.  A page walk or a scatter/gather copy is described by the
  sequence of memory positions it visits, its spots, in order.
 */
module Memory {
  import opened WorkRequest
  import opened SendQueue

  datatype Access = LocalWrite | RemoteWrite | RemoteRead | RemoteAtomic

  /** A registered region: `skew` is the offset of its first byte in its first page. */
  datatype Mr = Mr(valid: bool, lkey: nat, rkey: nat, access: set<Access>, start: nat, length: nat,
                   skew: nat, pageSize: nat, pages: seq<nat>)

  datatype Sge = Sge(addr: nat, length: nat, lkey: nat)

  datatype Direction = CopyFrom | CopyTo

  const MAX_MR_PER_PD := 4096

  /** Registration pins pages that cover the region. */
  predicate MrOk(mr: Mr, memorySize: nat) {
    && mr.pageSize > 0
    && mr.skew + mr.length <= |mr.pages| * mr.pageSize
    && forall i :: 0 <= i < |mr.pages| ==> mr.pages[i] + mr.pageSize <= memorySize
  }

  type MrTable = t: seq<Option<Mr>> | |t| == MAX_MR_PER_PD witness seq(MAX_MR_PER_PD, _ => None)

  predicate TableOk(table: MrTable, memorySize: nat) {
    forall i :: 0 <= i < MAX_MR_PER_PD && table[i].Some? ==> MrOk(table[i].value, memorySize)
  }

  // ---------------------------------------------------------------------------
  // Spots

  /** Position in memory of byte `x` of the pages. */
  function Spot(mr: Mr, x: nat): nat
    requires mr.pageSize > 0 && x < |mr.pages| * mr.pageSize
  {
    PageIndex(x, mr.pageSize, |mr.pages|);
    mr.pages[x / mr.pageSize] + x % mr.pageSize
  }

  lemma PageIndex(x: nat, ps: nat, n: nat)
    requires ps > 0 && x < n * ps
    ensures 0 <= x / ps < n
  {
    DivBounds(x, ps);
    if n <= x / ps {
      MulMono(n, x / ps, ps);
    }
  }

  /** The positions of `size` bytes from byte `offset` of the pages. */
  function Walk(mr: Mr, offset: nat, size: nat): seq<nat>
    requires mr.pageSize > 0 && offset + size <= |mr.pages| * mr.pageSize
  {
    seq<nat>(size, i requires 0 <= i < size => Spot(mr, offset + i))
  }

  function Gathered(mem: seq<Byte>, spots: seq<nat>): seq<Byte>
    requires forall i :: 0 <= i < |spots| ==> spots[i] < |mem|
  {
    seq(|spots|, i requires 0 <= i < |spots| => mem[spots[i]])
  }

  /** Writing `bytes` to `spots` one after the other. */
  function Scattered(mem: seq<Byte>, spots: seq<nat>, bytes: seq<Byte>): (mem': seq<Byte>)
    requires |spots| == |bytes| && forall i :: 0 <= i < |spots| ==> spots[i] < |mem|
    ensures |mem'| == |mem|
  {
    if spots == [] then mem
    else
      var n := |spots| - 1;
      Scattered(mem, spots[..n], bytes[..n])[spots[n] := bytes[n]]
  }

  /** `bytes` written into `buffer` at `at`. */
  function Overwrite(buffer: seq<Byte>, at: nat, bytes: seq<Byte>): seq<Byte>
    requires at + |bytes| <= |buffer|
  {
    buffer[..at] + bytes + buffer[at + |bytes|..]
  }

  lemma {:induction false} ScatterJoin(mem: seq<Byte>, s: seq<nat>, a: seq<Byte>, t: seq<nat>, b: seq<Byte>)
    requires |s| == |a| && |t| == |b|
    requires forall i :: 0 <= i < |s| ==> s[i] < |mem|
    requires forall i :: 0 <= i < |t| ==> t[i] < |mem|
    ensures forall i :: 0 <= i < |s + t| ==> (s + t)[i] < |mem|
    ensures Scattered(Scattered(mem, s, a), t, b) == Scattered(mem, s + t, a + b)
    decreases |t|
  {
    if t == [] {
      assert s + t == s && a + b == a;
    } else {
      var n := |t| - 1;
      ScatterJoin(mem, s, a, t[..n], b[..n]);
      assert (s + t)[..|s + t| - 1] == s + t[..n];
      assert (a + b)[..|a + b| - 1] == a + b[..n];
    }
  }

  /** Spots that were not visited keep their byte; a spot visited last at step `i` holds byte `i`. */
  lemma {:induction false} ScatterReads(mem: seq<Byte>, spots: seq<nat>, bytes: seq<Byte>, p: nat)
    requires |spots| == |bytes| && p < |mem| && forall i :: 0 <= i < |spots| ==> spots[i] < |mem|
    ensures p !in spots ==> Scattered(mem, spots, bytes)[p] == mem[p]
    ensures forall i :: 0 <= i < |spots| && spots[i] == p && p !in spots[i + 1..] ==> Scattered(mem, spots, bytes)[p] == bytes[i]
  {
    if spots != [] {
      var n := |spots| - 1;
      ScatterReads(mem, spots[..n], bytes[..n], p);
      forall i | 0 <= i < |spots| && spots[i] == p && p !in spots[i + 1..]
        ensures Scattered(mem, spots, bytes)[p] == bytes[i]
      {
        if i < n {
          assert spots[i + 1..][n - i - 1] == spots[n];
          assert spots[..n][i + 1..] == spots[i + 1..][..n - i - 1];
        }
      }
    }
  }

  /** Scattering to distinct spots and gathering them again returns the bytes. */
  lemma ScatterThenGather(mem: seq<Byte>, spots: seq<nat>, bytes: seq<Byte>)
    requires |spots| == |bytes| && forall i :: 0 <= i < |spots| ==> spots[i] < |mem|
    requires forall i, j :: 0 <= i < j < |spots| ==> spots[i] != spots[j]
    ensures Gathered(Scattered(mem, spots, bytes), spots) == bytes
  {
    forall i | 0 <= i < |spots| ensures Scattered(mem, spots, bytes)[spots[i]] == bytes[i] {
      ScatterReads(mem, spots, bytes, spots[i]);
    }
  }

  // ---------------------------------------------------------------------------
  // memcpy in one direction or the other

  lemma ScatterStep(mem: seq<Byte>, spots: seq<nat>, bytes: seq<Byte>, n: nat)
    requires n < |spots| == |bytes| && forall i :: 0 <= i < |spots| ==> spots[i] < |mem|
    ensures Scattered(mem, spots[..n + 1], bytes[..n + 1]) == Scattered(mem, spots[..n], bytes[..n])[spots[n] := bytes[n]]
  {
    assert spots[..n + 1][..n] == spots[..n] && bytes[..n + 1][..n] == bytes[..n];
  }

  /** mr_copy_data_sub for the two copying directions. */
  method CopyRange(mem: array<Byte>, target: nat, buffer: array<Byte>, at: nat, range: nat, direction: Direction, ghost spots: seq<nat>)
    requires mem != buffer && target + range <= mem.Length && at + range <= buffer.Length
    requires |spots| == range && forall i :: 0 <= i < range ==> spots[i] == target + i
    modifies mem, buffer
    ensures Copied(direction, old(mem[..]), old(buffer[..]), at, spots, mem[..], buffer[..])
  {
    ghost var bytes := buffer[at..at + range];
    var i := 0;
    while i < range
      invariant 0 <= i <= range
      invariant direction == CopyFrom ==> mem[..] == old(mem[..])
      invariant direction == CopyFrom ==> forall j :: 0 <= j < buffer.Length ==>
        buffer[j] == if at <= j < at + i then old(mem[..])[target + j - at] else old(buffer[..])[j]
      invariant direction == CopyTo ==> buffer[..] == old(buffer[..]) && mem[..] == Scattered(old(mem[..]), spots[..i], bytes[..i])
    {
      if direction == CopyFrom {
        buffer[at + i] := mem[target + i];
      } else {
        ScatterStep(old(mem[..]), spots, bytes, i);
        mem[target + i] := buffer[at + i];
      }
      i := i + 1;
    }
    assert spots[..range] == spots && bytes[..range] == bytes;
    assert direction == CopyFrom ==> buffer[..] == Overwrite(old(buffer[..]), at, Gathered(old(mem[..]), spots));
  }

  // ---------------------------------------------------------------------------
  // The page walk

  /** What a copy over `spots` does to memory and buffer. */
  ghost predicate Copied(direction: Direction, mem: seq<Byte>, buffer: seq<Byte>, at: nat, spots: seq<nat>,
                         mem': seq<Byte>, buffer': seq<Byte>)
  {
    && at + |spots| <= |buffer|
    && (forall i :: 0 <= i < |spots| ==> spots[i] < |mem|)
    && match direction
       case CopyFrom => mem' == mem && buffer' == Overwrite(buffer, at, Gathered(mem, spots))
       case CopyTo => buffer' == buffer && mem' == Scattered(mem, spots, buffer[at..at + |spots|])
  }

  lemma OverwriteJoin(buffer: seq<Byte>, at: nat, a: seq<Byte>, b: seq<Byte>)
    requires at + |a| + |b| <= |buffer|
    ensures Overwrite(Overwrite(buffer, at, a), at + |a|, b) == Overwrite(buffer, at, a + b)
  {
    var once := Overwrite(buffer, at, a);
    assert once[..at + |a|] == buffer[..at] + a;
    assert once[at + |a| + |b|..] == buffer[at + |a| + |b|..];
    assert buffer[..at] + a + b == buffer[..at] + (a + b);
  }

  /** Two copies in a row are one copy over the joined spots. */
  lemma CopiedJoin(direction: Direction, mem: seq<Byte>, buffer: seq<Byte>, at: nat, s: seq<nat>,
                   mem1: seq<Byte>, buffer1: seq<Byte>, t: seq<nat>, mem2: seq<Byte>, buffer2: seq<Byte>)
    requires Copied(direction, mem, buffer, at, s, mem1, buffer1)
    requires Copied(direction, mem1, buffer1, at + |s|, t, mem2, buffer2)
    ensures Copied(direction, mem, buffer, at, s + t, mem2, buffer2)
  {
    if direction == CopyFrom {
      assert Gathered(mem, s + t) == Gathered(mem, s) + Gathered(mem, t);
      OverwriteJoin(buffer, at, Gathered(mem, s), Gathered(mem, t));
    } else {
      var a, b := buffer[at..at + |s|], buffer[at + |s|..at + |s| + |t|];
      ScatterJoin(mem, s, a, t, b);
      assert buffer[at..at + |s + t|] == a + b;
    }
  }

  lemma CopiedNothing(direction: Direction, mem: seq<Byte>, buffer: seq<Byte>, at: nat)
    requires at <= |buffer|
    ensures Copied(direction, mem, buffer, at, [], mem, buffer)
  {
    assert Gathered(mem, []) == [];
    assert Overwrite(buffer, at, []) == buffer;
  }

  lemma InPage(x: nat, i: nat, r: nat, ps: nat)
    requires ps > 0 && r < ps && x == i * ps + r
    ensures x / ps == i && x % ps == r
  {
    DivBounds(x, ps);
    var q := x / ps;
    if q < i {
      MulMono(q + 1, i, ps);
    } else if i < q {
      MulMono(i + 1, q, ps);
    }
    assert x == q * ps + x % ps;
  }

  lemma SpotInPage(mr: Mr, x: nat, i: nat, r: nat)
    requires mr.pageSize > 0 && i < |mr.pages| && r < mr.pageSize && x == i * mr.pageSize + r
    requires x < |mr.pages| * mr.pageSize
    ensures Spot(mr, x) == mr.pages[i] + r
  {
    InPage(x, i, r, mr.pageSize);
  }

  /** Within one page the walk is contiguous. */
  lemma WalkInPage(mr: Mr, offset: nat, i: nat, r: nat, range: nat)
    requires mr.pageSize > 0 && i < |mr.pages| && offset + range <= |mr.pages| * mr.pageSize
    requires offset == i * mr.pageSize + r && r + range <= mr.pageSize
    ensures forall j :: 0 <= j < range ==> Walk(mr, offset, range)[j] == mr.pages[i] + r + j
  {
    hide Spot;
    forall j | 0 <= j < range ensures Walk(mr, offset, range)[j] == mr.pages[i] + r + j {
      SpotInPage(mr, offset + j, i, r + j);
    }
  }

  lemma WalkNothing(mr: Mr, offset: nat)
    requires mr.pageSize > 0 && offset <= |mr.pages| * mr.pageSize
    ensures Walk(mr, offset, 0) == []
  {
  }

  lemma WalkJoin(mr: Mr, offset: nat, a: nat, b: nat)
    requires mr.pageSize > 0 && offset + a + b <= |mr.pages| * mr.pageSize
    ensures |Walk(mr, offset, a)| == a
    ensures Walk(mr, offset, a) + Walk(mr, offset + a, b) == Walk(mr, offset, a + b)
  {
    hide Spot;
  }

  lemma SpotInMemory(mr: Mr, memorySize: nat, x: nat)
    requires MrOk(mr, memorySize) && x < |mr.pages| * mr.pageSize
    ensures Spot(mr, x) < memorySize
  {
    PageIndex(x, mr.pageSize, |mr.pages|);
  }

  /**
    mr_copy_data: from byte `x` of the region, page by page.  The loop looks at every page and
    copies where the current offset falls inside it.
   */
  method CopyPages(mr: Mr, mem: array<Byte>, buffer: array<Byte>, at: nat, x: nat, size: nat, direction: Direction)
    requires mem != buffer && MrOk(mr, mem.Length) && at + size <= buffer.Length && x + size <= mr.length
    modifies mem, buffer
    ensures Copied(direction, old(mem[..]), old(buffer[..]), at, Walk(mr, x + mr.skew, size), mem[..], buffer[..])
  {
    hide Copied, Walk, Spot, MrOk;
    ghost var mem0, buffer0 := mem[..], buffer[..];
    ghost var from := x + mr.skew;
    PagesCover(mr, mem.Length, x, size);
    CopiedNothing(direction, mem0, buffer0, at);
    WalkNothing(mr, from);
    if size == 0 {
      return;
    }
    var ps := mr.pageSize;
    var offset: nat, done: nat, left: nat := x + mr.skew, 0, size;
    var addr: nat, i: nat := 0, 0;
    while i < |mr.pages|
      invariant i <= |mr.pages| && addr == i * ps
      invariant done + left == size && left > 0 && addr <= offset == from + done
      invariant Copied(direction, mem0, buffer0, at, Walk(mr, from, done), mem[..], buffer[..])
    {
      assert (i + 1) * ps == addr + ps;
      if addr <= offset < addr + ps {
        var range := if addr + ps - offset < left then addr + ps - offset else left;
        ghost var mem1, buffer1 := mem[..], buffer[..];
        CopyPage(mr, i, mem, buffer, at + done, offset, range, direction);
        WalkJoin(mr, from, done, range);
        CopiedJoin(direction, mem0, buffer0, at, Walk(mr, from, done), mem1, buffer1, Walk(mr, offset, range), mem[..], buffer[..]);
        offset, done, left := offset + range, done + range, left - range;
      }
      if left == 0 {
        return;
      }
      addr, i := addr + ps, i + 1;
    }
    assert false;
  }

  lemma PagesCover(mr: Mr, memorySize: nat, x: nat, size: nat)
    requires MrOk(mr, memorySize) && x + size <= mr.length
    ensures mr.pageSize > 0 && x + mr.skew + size <= |mr.pages| * mr.pageSize
  {
  }

  /** The part of the walk that falls into page `i`. */
  method CopyPage(mr: Mr, i: nat, mem: array<Byte>, buffer: array<Byte>, at: nat, offset: nat, range: nat, direction: Direction)
    requires mem != buffer && MrOk(mr, mem.Length) && i < |mr.pages| && at + range <= buffer.Length
    requires i * mr.pageSize <= offset && offset + range <= i * mr.pageSize + mr.pageSize && range > 0
    requires offset + range <= |mr.pages| * mr.pageSize
    modifies mem, buffer
    ensures Copied(direction, old(mem[..]), old(buffer[..]), at, Walk(mr, offset, range), mem[..], buffer[..])
  {
    hide Copied, Walk, Spot;
    InPage(offset, i, offset - i * mr.pageSize, mr.pageSize);
    WalkInPage(mr, offset, i, offset % mr.pageSize, range);
    WalkJoin(mr, offset, range, 0);
    CopyRange(mem, mr.pages[i] + offset % mr.pageSize, buffer, at, range, direction, Walk(mr, offset, range));
  }

  // ---------------------------------------------------------------------------
  // Scatter/gather

  /** The index field of a key. */
  function KeyIndex(key: nat): nat {
    (key / 0x100) % MAX_MR_PER_PD
  }

  /**
    The entry under the index of `key` is a valid region with that very key and all the rights
    asked for.
   */
  predicate Usable(table: MrTable, key: nat, need: set<Access>) {
    var entry := table[(key / 0x100) % MAX_MR_PER_PD];
    && entry.Some? && entry.value.valid && entry.value.lkey == key
    && forall a :: a in need ==> a in entry.value.access
  }

  /** The region an element names, if its key and access rights are good. */
  function Lookup(table: MrTable, key: nat, need: set<Access>): Option<Mr> {
    var entry := table[KeyIndex(key)];
    if entry.Some? && entry.value.valid && entry.value.lkey == key && need <= entry.value.access then entry else None
  }

  /** The bounds test of pib_util_mr_copy_data fails: the element is skipped. */
  predicate Outside(mr: Mr, sge: Sge, range: nat) {
    || sge.addr < mr.start || mr.start + mr.length <= sge.addr
    || sge.addr + range <= mr.start || mr.start + mr.length < sge.addr + range
  }

  function MinNat(a: nat, b: nat): nat {
    if a < b then a else b
  }

  /** The offset left for the elements after `sge`. */
  function NextOffset(sge: Sge, offset: nat): nat {
    if sge.length < offset then offset - sge.length else 0
  }

  /** The spots one element contributes. */
  function Piece(mr: Mr, sge: Sge, offset: nat, range: nat): seq<nat>
    requires mr.pageSize > 0 && mr.skew + mr.length <= |mr.pages| * mr.pageSize && !Outside(mr, sge, range)
  {
    if offset < range then Walk(mr, sge.addr - mr.start + offset + mr.skew, range - offset) else []
  }

  /** The spots pib_util_mr_copy_data visits and the status it returns, element by element. */
  function SgePlan(table: MrTable, memorySize: nat, need: set<Access>, sges: seq<Sge>, offset: nat, size: nat): (seq<nat>, WcStatus)
    requires TableOk(table, memorySize)
    decreases |sges|
  {
    if sges == [] then ([], LocProtErr)
    else match Lookup(table, sges[0].lkey, need)
      case None => ([], LocProtErr)
      case Some(mr) =>
        var range := MinNat(sges[0].length, offset + size);
        if Outside(mr, sges[0], range) then SgePlan(table, memorySize, need, sges[1..], NextOffset(sges[0], offset), size)
        else
          var piece := Piece(mr, sges[0], offset, range);
          if |piece| == size then (piece, Success)
          else if |piece| > size then (piece, LocProtErr)
          else
            var (rest, status) := SgePlan(table, memorySize, need, sges[1..], NextOffset(sges[0], offset), size - |piece|);
            (piece + rest, status)
  }

  lemma LookupIff(table: MrTable, key: nat, need: set<Access>)
    ensures Lookup(table, key, need) == if Usable(table, key, need) then table[KeyIndex(key)] else None
  {
  }

  /** A range of `n` bytes from `addr` lies in the region; an empty one lies strictly between its ends. */
  predicate Within(mr: Mr, addr: nat, n: nat) {
    && mr.start <= addr && addr + n <= mr.start + mr.length
    && (n == 0 ==> mr.start < addr < mr.start + mr.length)
  }

  lemma OutsideIff(mr: Mr, sge: Sge, range: nat)
    ensures Outside(mr, sge, range) <==> !Within(mr, sge.addr, range)
  {
  }

  lemma LookupOk(table: MrTable, memorySize: nat, key: nat, need: set<Access>)
    requires TableOk(table, memorySize) && Lookup(table, key, need).Some?
    ensures MrOk(Lookup(table, key, need).value, memorySize)
  {
  }

  lemma PieceSize(mr: Mr, sge: Sge, offset: nat, size: nat, memorySize: nat)
    requires MrOk(mr, memorySize) && !Outside(mr, sge, MinNat(sge.length, offset + size))
    ensures var range := MinNat(sge.length, offset + size);
      |Piece(mr, sge, offset, range)| == (if offset < range then range - offset else 0) <= size
  {
    hide Spot;
  }

  /** One element of the plan, after `spots` were visited. */
  lemma PlanStep(table: MrTable, memorySize: nat, need: set<Access>, sges: seq<Sge>, i: nat, offset: nat, size: nat, spots: seq<nat>)
    requires TableOk(table, memorySize) && i < |sges|
    ensures var (all, outcome) := SgePlan(table, memorySize, need, sges[i..], offset, size);
      var next := NextOffset(sges[i], offset);
      match Lookup(table, sges[i].lkey, need)
      case None => outcome == LocProtErr && spots + all == spots
      case Some(mr) =>
        var range := MinNat(sges[i].length, offset + size);
        && MrOk(mr, memorySize)
        && (Outside(mr, sges[i], range) ==> (all, outcome) == SgePlan(table, memorySize, need, sges[i + 1..], next, size))
        && (!Outside(mr, sges[i], range) ==>
              var piece := Piece(mr, sges[i], offset, range);
              && |piece| <= size
              && (|piece| == size ==> outcome == Success && spots + all == spots + piece)
              && (|piece| < size ==>
                    var (rest, outcome') := SgePlan(table, memorySize, need, sges[i + 1..], next, size - |piece|);
                    outcome == outcome' && spots + all == (spots + piece) + rest))
  {
    assert sges[i..][0] == sges[i] && sges[i..][1..] == sges[i + 1..];
    var entry := Lookup(table, sges[i].lkey, need);
    if entry.Some? && !Outside(entry.value, sges[i], MinNat(sges[i].length, offset + size)) {
      LookupOk(table, memorySize, sges[i].lkey, need);
      PieceSize(entry.value, sges[i], offset, size, memorySize);
    }
    hide Walk, Spot, Piece;
  }

  /** pib_util_mr_copy_data. */
  method CopyData(table: MrTable, sges: seq<Sge>, mem: array<Byte>, buffer: array<Byte>, offset: nat, size: nat,
                  need: set<Access>, direction: Direction) returns (status: WcStatus)
    requires mem != buffer && TableOk(table, mem.Length) && size <= buffer.Length
    modifies mem, buffer
    ensures MAX_PAYLOAD_LEN < size ==> status == LocLenErr && mem[..] == old(mem[..]) && buffer[..] == old(buffer[..])
    ensures size <= MAX_PAYLOAD_LEN ==>
      var (spots, outcome) := SgePlan(table, mem.Length, need, sges, offset, size);
      status == outcome && Copied(direction, old(mem[..]), old(buffer[..]), 0, spots, mem[..], buffer[..])
    ensures size <= MAX_PAYLOAD_LEN && (sges == [] || !Usable(table, sges[0].lkey, need)) ==>
      status == LocProtErr && mem[..] == old(mem[..]) && buffer[..] == old(buffer[..])
  {
    hide Copied, Walk, Spot, Piece, SgePlan, TableOk, Lookup, Usable;
    ghost var mem0, buffer0 := mem[..], buffer[..];
    if sges != [] {
      LookupIff(table, sges[0].lkey, need);
    }
    CopiedNothing(direction, mem0, buffer0, 0);
    if MAX_PAYLOAD_LEN < size {
      return LocLenErr;
    }
    var off: nat, at: nat, left: nat, i: nat := offset, 0, size, 0;
    ghost var (all, outcome) := SgePlan(table, mem.Length, need, sges, offset, size);
    ghost var spots: seq<nat> := [];
    assert sges[0..] == sges && spots + all == all;
    while i < |sges|
      invariant i <= |sges| && at + left == size && |spots| == at
      invariant i == 0 ==> mem[..] == mem0 && buffer[..] == buffer0
      invariant i > 0 ==> Usable(table, sges[0].lkey, need)
      invariant Copied(direction, mem0, buffer0, 0, spots, mem[..], buffer[..])
      invariant spots + SgePlan(table, mem.Length, need, sges[i..], off, left).0 == all
      invariant SgePlan(table, mem.Length, need, sges[i..], off, left).1 == outcome
    {
      var sge := sges[i];
      PlanStep(table, mem.Length, need, sges, i, off, left, spots);
      var entry := Lookup(table, sge.lkey, need);
      if entry.None? {
        return LocProtErr;
      }
      var mr := entry.value;
      var range := MinNat(sge.length, off + left);
      if !Outside(mr, sge, range) {
        var chunk := CopyElement(mr, sge, mem, buffer, at, off, left, direction, mem0, buffer0, spots);
        spots := spots + Piece(mr, sge, off, range);
        at, left := at + chunk, left - chunk;
        if left == 0 {
          return Success;
        }
      }
      off, i := NextOffset(sge, off), i + 1;
    }
    PlanEnd(table, mem.Length, need, sges[i..], off, left, spots);
    return LocProtErr;
  }

  lemma PlanEnd(table: MrTable, memorySize: nat, need: set<Access>, sges: seq<Sge>, offset: nat, size: nat, spots: seq<nat>)
    requires TableOk(table, memorySize) && sges == []
    ensures var (all, outcome) := SgePlan(table, memorySize, need, sges, offset, size); spots + all == spots && outcome == LocProtErr
  {
  }

  /** The copy for one element. */
  method CopyElement(mr: Mr, sge: Sge, mem: array<Byte>, buffer: array<Byte>, at: nat, offset: nat, left: nat, direction: Direction,
                     ghost mem0: seq<Byte>, ghost buffer0: seq<Byte>, ghost spots: seq<nat>) returns (chunk: nat)
    requires mem != buffer && MrOk(mr, mem.Length) && at + left <= buffer.Length
    requires !Outside(mr, sge, MinNat(sge.length, offset + left))
    requires |spots| == at && Copied(direction, mem0, buffer0, 0, spots, mem[..], buffer[..])
    modifies mem, buffer
    ensures var piece := Piece(mr, sge, offset, MinNat(sge.length, offset + left));
      chunk == |piece| <= left && Copied(direction, mem0, buffer0, 0, spots + piece, mem[..], buffer[..])
  {
    PieceSize(mr, sge, offset, left, mem.Length);
    hide Copied, Walk, Spot;
    var range := MinNat(sge.length, offset + left);
    ghost var piece := Piece(mr, sge, offset, range);
    if offset < range {
      ghost var mem1, buffer1 := mem[..], buffer[..];
      CopyPages(mr, mem, buffer, at, sge.addr - mr.start + offset, range - offset, direction);
      CopiedJoin(direction, mem0, buffer0, 0, spots, mem1, buffer1, piece, mem[..], buffer[..]);
      return range - offset;
    }
    assert spots + piece == spots;
    return 0;
  }

  // ---------------------------------------------------------------------------
  // Copies named by a remote key

  /** The region a remote key names grants `need`. */
  predicate Grants(table: MrTable, rkey: nat, need: set<Access>) {
    var entry := table[KeyIndex(rkey)];
    entry.Some? && entry.value.valid && entry.value.rkey == rkey && need <= entry.value.access
  }

  /**
    pib_util_mr_copy_data_with_rkey: all of the range is moved, or nothing.  The range must lie
    in the region; an empty one must also lie strictly between the region's ends.
   */
  method CopyWithRkey(table: MrTable, rkey: nat, mem: array<Byte>, buffer: array<Byte>, address: nat, size: nat,
                      need: set<Access>, direction: Direction) returns (status: WcStatus)
    requires mem != buffer && TableOk(table, mem.Length) && size <= buffer.Length
    modifies mem, buffer
    ensures MAX_PAYLOAD_LEN < size <==> status == LocLenErr
    ensures status in {Success, LocLenErr, LocProtErr}
    ensures status == Success <==>
      && size <= MAX_PAYLOAD_LEN && table[(rkey / 0x100) % MAX_MR_PER_PD].Some?
      && var mr := table[(rkey / 0x100) % MAX_MR_PER_PD].value;
         mr.valid && mr.rkey == rkey && (forall a :: a in need ==> a in mr.access) && Within(mr, address, size)
    ensures status == Success ==>
      var mr := table[KeyIndex(rkey)].value;
      Copied(direction, old(mem[..]), old(buffer[..]), 0, Walk(mr, address - mr.start + mr.skew, size), mem[..], buffer[..])
    ensures status != Success ==> mem[..] == old(mem[..]) && buffer[..] == old(buffer[..])
  {
    hide Copied, Walk;
    if MAX_PAYLOAD_LEN < size {
      return LocLenErr;
    }
    if !Grants(table, rkey, need) {
      return LocProtErr;
    }
    var mr := table[KeyIndex(rkey)].value;
    if Outside(mr, Sge(address, size, 0), size) {
      return LocProtErr;
    }
    CopyPages(mr, mem, buffer, 0, address - mr.start, size, direction);
    return Success;
  }
}
