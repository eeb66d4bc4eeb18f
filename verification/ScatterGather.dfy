/**
  What the scatter/gather loop achieves: which bytes of the concatenated list a copy visits, when
  it succeeds, and what happens to elements that lie outside their region.

  The loop looks at an element only when it comes to it and stops as soon as the size is used up,
  so nothing here is asked of the elements behind that point.
 */
module ScatterGather {
  import opened SendQueue
  import opened Memory

  // ---------------------------------------------------------------------------
  // The concatenated list

  /** The element names a region it may use. */
  predicate Good(table: MrTable, need: set<Access>, sge: Sge) {
    Usable(table, sge.lkey, need)
  }

  function RegionOf(table: MrTable, need: set<Access>, sge: Sge): Mr
    requires Good(table, need, sge)
  {
    table[(sge.lkey / 0x100) % MAX_MR_PER_PD].value
  }

  /** The loop finds that region, or none. */
  lemma FindsRegion(table: MrTable, memorySize: nat, need: set<Access>, sge: Sge)
    requires TableOk(table, memorySize)
    ensures Lookup(table, sge.lkey, need) == if Good(table, need, sge) then Some(RegionOf(table, need, sge)) else None
    ensures Good(table, need, sge) ==> MrOk(RegionOf(table, need, sge), memorySize)
  {
    LookupIff(table, sge.lkey, need);
  }

  /** Position of byte `k` of an element; the size of the memory, which is no position, if it lies outside the region. */
  function ByteSpot(mr: Mr, memorySize: nat, sge: Sge, k: nat): nat
    requires MrOk(mr, memorySize)
  {
    if mr.start <= sge.addr + k < mr.start + mr.length then Spot(mr, sge.addr + k - mr.start + mr.skew) else memorySize
  }

  /** All bytes of one element; those of an element without a region are at no position. */
  function Span(table: MrTable, memorySize: nat, need: set<Access>, sge: Sge): (spots: seq<nat>)
    requires TableOk(table, memorySize)
    ensures |spots| == sge.length
  {
    if !Good(table, need, sge) then seq<nat>(sge.length, _ => memorySize)
    else
      var mr := RegionOf(table, need, sge);
      seq<nat>(sge.length, k requires 0 <= k < sge.length => ByteSpot(mr, memorySize, sge, k))
  }

  /** The concatenated scatter/gather list. */
  function Flat(table: MrTable, memorySize: nat, need: set<Access>, sges: seq<Sge>): (spots: seq<nat>)
    requires TableOk(table, memorySize)
    ensures |spots| == TotalLength(sges)
  {
    if sges == [] then [] else Span(table, memorySize, need, sges[0]) + Flat(table, memorySize, need, sges[1..])
  }

  function TotalLength(sges: seq<Sge>): nat {
    if sges == [] then 0 else sges[0].length + TotalLength(sges[1..])
  }

  /** The part of a list from `offset`, at most `size` long. */
  function Window<T>(s: seq<T>, offset: nat, size: nat): (w: seq<T>)
    ensures offset + size <= |s| ==> w == s[offset..offset + size]
    ensures |w| <= size && |w| <= |s|
  {
    if |s| <= offset then [] else if offset + size <= |s| then s[offset..offset + size] else s[offset..]
  }

  lemma WindowSplits<T>(a: seq<T>, b: seq<T>, offset: nat, size: nat)
    requires size > 0
    ensures var w := Window(a, offset, size);
      var next := if |a| < offset then offset - |a| else 0;
      && Window(a + b, offset, size) == w + Window(b, next, size - |w|)
      && (|w| == size ==> offset + size <= |a|)
      && (|w| < size ==> (offset + size <= |a + b| <==> next + size - |w| <= |b|))
  {
    var all := a + b;
    if |a| <= offset {
      assert offset + size <= |all| ==> all[offset..offset + size] == b[offset - |a|..offset - |a| + size];
      assert |all| > offset ==> all[offset..] == b[offset - |a|..];
    } else if offset + size <= |a| {
      assert all[offset..offset + size] == a[offset..offset + size];
    } else {
      var left := size - (|a| - offset);
      assert offset + size <= |all| ==> all[offset..offset + size] == a[offset..] + b[0..left];
      assert all[offset..] == a[offset..] + b && b[0..] == b;
    }
  }

  // ---------------------------------------------------------------------------
  // Shares of the window

  /** How many bytes of the window from `offset`, `size` long, fall into an element. */
  function Share(sge: Sge, offset: nat, size: nat): (n: nat)
    ensures n <= size
  {
    var range := MinNat(sge.length, offset + size);
    if offset < range then range - offset else 0
  }

  /** The share of each element the window reaches or passes, if none is skipped. */
  function Shares(sges: seq<Sge>, offset: nat, size: nat): seq<nat> {
    if sges == [] || size == 0 then []
    else
      var share := Share(sges[0], offset, size);
      [share] + Shares(sges[1..], NextOffset(sges[0], offset), size - share)
  }

  /** The part of the element the loop looks at does not lie in its region. */
  predicate Skipped(table: MrTable, need: set<Access>, sge: Sge, offset: nat, size: nat)
    requires Good(table, need, sge)
  {
    !Within(RegionOf(table, need, sge), sge.addr, MinNat(sge.length, offset + size))
  }

  /** How many bytes the loop takes from an element. */
  function Amount(table: MrTable, need: set<Access>, sge: Sge, offset: nat, size: nat): (n: nat)
    requires Good(table, need, sge)
    ensures n <= size
  {
    if Skipped(table, need, sge, offset, size) then 0 else Share(sge, offset, size)
  }

  /** The bytes the loop takes from each element until the size is used up or a key is bad. */
  function Contributed(table: MrTable, need: set<Access>, sges: seq<Sge>, offset: nat, size: nat): seq<nat> {
    if sges == [] || size == 0 || !Good(table, need, sges[0]) then []
    else
      var n := Amount(table, need, sges[0], offset, size);
      [n] + Contributed(table, need, sges[1..], NextOffset(sges[0], offset), size - n)
  }

  /**
    Until the size is used up, every element has a good key, and every element the window reaches lies
    in its region as far as the window goes.
   */
  predicate NeededInside(table: MrTable, need: set<Access>, sges: seq<Sge>, offset: nat, size: nat) {
    sges == [] || size == 0 || (
      && Good(table, need, sges[0])
      && (Share(sges[0], offset, size) > 0 ==> !Skipped(table, need, sges[0], offset, size))
      && NeededInside(table, need, sges[1..], NextOffset(sges[0], offset), size - Share(sges[0], offset, size)))
  }

  /** Each element contributes its own share if and only if every element needed is usable and lies in its region. */
  lemma {:induction false} SharesIff(table: MrTable, need: set<Access>, sges: seq<Sge>, offset: nat, size: nat)
    ensures Contributed(table, need, sges, offset, size) == Shares(sges, offset, size)
      <==> NeededInside(table, need, sges, offset, size)
    decreases |sges|
  {
    hide Skipped, Share, Good;
    if sges != [] && size > 0 && Good(table, need, sges[0]) {
      var share, n := Share(sges[0], offset, size), Amount(table, need, sges[0], offset, size);
      var next := NextOffset(sges[0], offset);
      var got, due := Contributed(table, need, sges[1..], next, size - n), Shares(sges[1..], next, size - share);
      FirstThenRest(n, got, share, due);
      if n == share {
        SharesIff(table, need, sges[1..], next, size - share);
      }
    }
  }

  lemma FirstThenRest(a: nat, s: seq<nat>, b: nat, t: seq<nat>)
    ensures [a] + s == [b] + t <==> a == b && s == t
  {
    if [a] + s == [b] + t {
      assert ([a] + s)[0] == ([b] + t)[0];
      assert s == ([a] + s)[1..] == ([b] + t)[1..] == t;
    }
  }

  function Sum(s: seq<nat>): nat {
    if s == [] then 0 else s[0] + Sum(s[1..])
  }

  lemma SumFirst(n: nat, s: seq<nat>)
    ensures Sum([n] + s) == n + Sum(s)
  {
    assert ([n] + s)[1..] == s;
  }

  lemma SumNothing()
    ensures Sum([]) == 0
  {
  }

  // ---------------------------------------------------------------------------
  // One element of the loop

  /** The positions one element gives. */
  function Given(table: MrTable, memorySize: nat, need: set<Access>, sge: Sge, offset: nat, size: nat): seq<nat>
    requires TableOk(table, memorySize) && Good(table, need, sge)
  {
    if Skipped(table, need, sge, offset, size) then []
    else
      var mr := RegionOf(table, need, sge);
      OutsideIff(mr, sge, MinNat(sge.length, offset + size));
      Piece(mr, sge, offset, MinNat(sge.length, offset + size))
  }

  lemma GivenSize(table: MrTable, memorySize: nat, need: set<Access>, sge: Sge, offset: nat, size: nat)
    requires TableOk(table, memorySize) && Good(table, need, sge)
    ensures |Given(table, memorySize, need, sge, offset, size)| == Amount(table, need, sge, offset, size)
  {
    hide Walk, Spot;
    var mr := RegionOf(table, need, sge);
    OutsideIff(mr, sge, MinNat(sge.length, offset + size));
    if !Skipped(table, need, sge, offset, size) {
      PieceSize(mr, sge, offset, size, memorySize);
    }
  }

  lemma PlanHead(table: MrTable, memorySize: nat, need: set<Access>, sges: seq<Sge>, offset: nat, size: nat)
    requires TableOk(table, memorySize) && size > 0 && sges != [] && Good(table, need, sges[0])
    ensures var given := Given(table, memorySize, need, sges[0], offset, size);
      && |given| == Amount(table, need, sges[0], offset, size) <= size
      && (|given| == size ==> SgePlan(table, memorySize, need, sges, offset, size) == (given, Success))
      && (|given| < size ==>
            var (rest, outcome) := SgePlan(table, memorySize, need, sges[1..], NextOffset(sges[0], offset), size - |given|);
            SgePlan(table, memorySize, need, sges, offset, size) == (given + rest, outcome))
  {
    hide TableOk, Lookup, SgePlan, Outside, Piece, Share, Good, Within, RegionOf;
    FindsRegion(table, memorySize, need, sges[0]);
    OutsideIff(RegionOf(table, need, sges[0]), sges[0], MinNat(sges[0].length, offset + size));
    GivenSize(table, memorySize, need, sges[0], offset, size);
    PlanStep(table, memorySize, need, sges, 0, offset, size, []);
    var all := SgePlan(table, memorySize, need, sges, offset, size).0;
    assert sges[0..] == sges && [] + all == all;
    var given := Given(table, memorySize, need, sges[0], offset, size);
    assert [] + given == given;
    assert given == [] ==> given + all == all;
  }

  /** The loop stops at the end of the list and at a bad key. */
  lemma PlanStops(table: MrTable, memorySize: nat, need: set<Access>, sges: seq<Sge>, offset: nat, size: nat)
    requires TableOk(table, memorySize) && (sges == [] || !Good(table, need, sges[0]))
    ensures SgePlan(table, memorySize, need, sges, offset, size) == ([], LocProtErr)
  {
    hide TableOk, Lookup, Good;
    if sges != [] {
      FindsRegion(table, memorySize, need, sges[0]);
    }
  }

  /** A copy succeeds if and only if what the elements contribute adds up to its size. */
  lemma {:induction false} SuccessIff(table: MrTable, memorySize: nat, need: set<Access>, sges: seq<Sge>, offset: nat, size: nat)
    requires TableOk(table, memorySize) && size > 0
    ensures var (spots, status) := SgePlan(table, memorySize, need, sges, offset, size);
      var total := Sum(Contributed(table, need, sges, offset, size));
      && |spots| == total <= size
      && status in {Success, LocProtErr} && (status == Success <==> total == size)
    decreases |sges|
  {
    hide TableOk, Good, SgePlan, Given, Amount, Sum;
    SumNothing();
    if sges == [] || !Good(table, need, sges[0]) {
      PlanStops(table, memorySize, need, sges, offset, size);
    } else {
      var n := Amount(table, need, sges[0], offset, size);
      var next := NextOffset(sges[0], offset);
      PlanHead(table, memorySize, need, sges, offset, size);
      SumFirst(n, Contributed(table, need, sges[1..], next, size - n));
      if n < size {
        SuccessIff(table, memorySize, need, sges[1..], next, size - n);
      }
    }
  }

  // ---------------------------------------------------------------------------
  // The right bytes

  /** An element that is not skipped contributes its share of the concatenated bytes. */
  lemma GivenIsWindow(table: MrTable, memorySize: nat, need: set<Access>, sge: Sge, offset: nat, size: nat)
    requires TableOk(table, memorySize) && Good(table, need, sge) && size > 0
    requires Share(sge, offset, size) > 0 ==> !Skipped(table, need, sge, offset, size)
    ensures Given(table, memorySize, need, sge, offset, size) == Window(Span(table, memorySize, need, sge), offset, size)
    ensures Amount(table, need, sge, offset, size) == Share(sge, offset, size)
  {
    hide Spot;
    GivenSize(table, memorySize, need, sge, offset, size);
    var mr := RegionOf(table, need, sge);
    FindsRegion(table, memorySize, need, sge);
    OutsideIff(mr, sge, MinNat(sge.length, offset + size));
    if Share(sge, offset, size) > 0 {
      PieceIsWindow(mr, memorySize, sge, offset, size);
    }
  }

  lemma PieceIsWindow(mr: Mr, memorySize: nat, sge: Sge, offset: nat, size: nat)
    requires MrOk(mr, memorySize) && Share(sge, offset, size) > 0 && !Outside(mr, sge, MinNat(sge.length, offset + size))
    ensures Piece(mr, sge, offset, MinNat(sge.length, offset + size))
      == Window(seq<nat>(sge.length, k requires 0 <= k < sge.length => ByteSpot(mr, memorySize, sge, k)), offset, size)
  {
    hide Spot;
  }

  /**
    If every element the window needs is usable and lies in its region, the copy visits exactly the bytes
    from `offset` to `offset + size` of the concatenated buffers, and succeeds if and only if that range fits.
   */
  lemma {:induction false} FlatCopy(table: MrTable, memorySize: nat, need: set<Access>, sges: seq<Sge>, offset: nat, size: nat)
    requires TableOk(table, memorySize) && size > 0 && NeededInside(table, need, sges, offset, size)
    ensures var flat := Flat(table, memorySize, need, sges);
      var (spots, status) := SgePlan(table, memorySize, need, sges, offset, size);
      && spots == Window(flat, offset, size)
      && status in {Success, LocProtErr}
      && (status == Success <==> offset + size <= |flat|)
    decreases |sges|
  {
    hide SgePlan, Span, Window, Given, Skipped, TableOk, Good, Share, Amount;
    if sges == [] {
      PlanStops(table, memorySize, need, sges, offset, size);
    } else {
      var span, rest := Span(table, memorySize, need, sges[0]), Flat(table, memorySize, need, sges[1..]);
      var window := Window(span, offset, size);
      var next := NextOffset(sges[0], offset);
      GivenIsWindow(table, memorySize, need, sges[0], offset, size);
      PlanHead(table, memorySize, need, sges, offset, size);
      WindowSplits(span, rest, offset, size);
      if |window| == size {
        assert window + Window(rest, next, 0) == window;
      } else {
        FlatCopy(table, memorySize, need, sges[1..], next, size - |window|);
      }
    }
  }

  /** A copy succeeds with every element giving its own share if and only if what it needs is there. */
  lemma RightCopyIff(table: MrTable, memorySize: nat, need: set<Access>, sges: seq<Sge>, offset: nat, size: nat)
    requires TableOk(table, memorySize) && size > 0
    ensures
      && SgePlan(table, memorySize, need, sges, offset, size).1 == Success
      && Contributed(table, need, sges, offset, size) == Shares(sges, offset, size)
      <==> NeededInside(table, need, sges, offset, size) && offset + size <= TotalLength(sges)
  {
    hide SgePlan, Contributed, Shares, NeededInside, TableOk;
    SharesIff(table, need, sges, offset, size);
    if NeededInside(table, need, sges, offset, size) {
      FlatCopy(table, memorySize, need, sges, offset, size);
    }
  }

  // ---------------------------------------------------------------------------
  // Elements outside their region

  /** The offset that is left when the loop comes to element `i`. */
  function OffsetAt(sges: seq<Sge>, i: nat, offset: nat): nat
    requires i <= |sges|
  {
    if i == 0 then offset else OffsetAt(sges[1..], i - 1, NextOffset(sges[0], offset))
  }

  /** The bytes still to copy when the loop comes to element `i`; none if it ends before. */
  function LeftAt(table: MrTable, need: set<Access>, sges: seq<Sge>, i: nat, offset: nat, size: nat): (left: nat)
    requires i <= |sges|
    ensures left <= size
  {
    if i == 0 then size
    else if !Good(table, need, sges[0]) then 0
    else LeftAt(table, need, sges[1..], i - 1, NextOffset(sges[0], offset), size - Amount(table, need, sges[0], offset, size))
  }

  /** The loop comes to element `i`, the window reaches it, and it lies outside its region. */
  predicate SkippedAt(table: MrTable, need: set<Access>, sges: seq<Sge>, i: nat, offset: nat, size: nat)
    requires i < |sges|
  {
    var off, left := OffsetAt(sges, i, offset), LeftAt(table, need, sges, i, offset, size);
    Share(sges[i], off, left) > 0 && Good(table, need, sges[i]) && Skipped(table, need, sges[i], off, left)
  }

  /**
    An element the window reaches that lies outside its region is skipped, not refused: the copy goes
    on as if the list continued after it, so the bytes of later elements take the place of its own.
    It still succeeds if and only if those elements have that many bytes to give.
   */
  lemma {:induction false} SkippedElementShifts(table: MrTable, memorySize: nat, need: set<Access>, sges: seq<Sge>, i: nat,
                                               offset: nat, size: nat)
    requires TableOk(table, memorySize) && i < |sges| && SkippedAt(table, need, sges, i, offset, size)
    ensures var left := LeftAt(table, need, sges, i, offset, size);
      var (rest, outcome) := SgePlan(table, memorySize, need, sges[i + 1..], 0, left);
      var (spots, status) := SgePlan(table, memorySize, need, sges, offset, size);
      && !NeededInside(table, need, sges, offset, size)
      && |spots| >= |rest| && spots[|spots| - |rest|..] == rest && |spots| - |rest| == size - left
      && status == outcome
      && (status == Success <==> Sum(Contributed(table, need, sges[i + 1..], 0, left)) == left)
    decreases i
  {
    hide TableOk, Good, Skipped, Share, Amount, Sum, Contributed, SgePlan, NeededInside, Given;
    var left := LeftAt(table, need, sges, i, offset, size);
    SuccessIff(table, memorySize, need, sges[i + 1..], 0, left);
    SkippedNotInside(table, need, sges, i, offset, size);
    PlanHead(table, memorySize, need, sges, offset, size);
    if i == 0 {
      ReachedHasOffset(sges[0], offset, size);
      SkippedGivesNothing(table, memorySize, need, sges[0], offset, size);
      var rest := SgePlan(table, memorySize, need, sges[1..], 0, size).0;
      assert [] + rest == rest;
    } else {
      assert sges[1..][i - 1] == sges[i] && sges[1..][i..] == sges[i + 1..];
      SkippedElementShifts(table, memorySize, need, sges[1..], i - 1, NextOffset(sges[0], offset),
                           size - Amount(table, need, sges[0], offset, size));
    }
  }

  lemma SkippedGivesNothing(table: MrTable, memorySize: nat, need: set<Access>, sge: Sge, offset: nat, size: nat)
    requires TableOk(table, memorySize) && Good(table, need, sge) && Skipped(table, need, sge, offset, size)
    ensures Given(table, memorySize, need, sge, offset, size) == [] && Amount(table, need, sge, offset, size) == 0
  {
  }

  lemma ReachedHasOffset(sge: Sge, offset: nat, size: nat)
    requires Share(sge, offset, size) > 0
    ensures NextOffset(sge, offset) == 0
  {
  }

  lemma {:induction false} SkippedNotInside(table: MrTable, need: set<Access>, sges: seq<Sge>, i: nat, offset: nat, size: nat)
    requires i < |sges| && SkippedAt(table, need, sges, i, offset, size)
    ensures !NeededInside(table, need, sges, offset, size)
    decreases i
  {
    hide Skipped, Share, Good;
    if i > 0 {
      assert sges[1..][i - 1] == sges[i];
      SkippedNotInside(table, need, sges[1..], i - 1, NextOffset(sges[0], offset),
                       size - Amount(table, need, sges[0], offset, size));
    }
  }

  /** Two elements, the first outside its region: a copy that fits into the second succeeds with the second's bytes. */
  lemma SecondTakesOver(table: MrTable, memorySize: nat, need: set<Access>, a: Sge, b: Sge, size: nat)
    requires TableOk(table, memorySize) && 0 < size <= a.length && size <= b.length
    requires Good(table, need, a) && Good(table, need, b)
    requires Skipped(table, need, a, 0, size) && !Skipped(table, need, b, 0, size)
    ensures SgePlan(table, memorySize, need, [a, b], 0, size) == (Span(table, memorySize, need, b)[..size], Success)
  {
    hide TableOk, Good, SgePlan, Span, Given;
    assert [a, b][1..] == [b] && [b][1..] == [];
    PlanHead(table, memorySize, need, [a, b], 0, size);
    SkippedGivesNothing(table, memorySize, need, a, 0, size);
    FlatCopy(table, memorySize, need, [b], 0, size);
    var span := Span(table, memorySize, need, b);
    assert Flat(table, memorySize, need, [b]) == span + [] == span;
    assert [] + span[..size] == span[..size];
  }

  /** No copy beyond the total length succeeds, whatever is skipped. */
  lemma TooLongFails(table: MrTable, memorySize: nat, need: set<Access>, sges: seq<Sge>, offset: nat, size: nat)
    requires TableOk(table, memorySize) && size > 0 && TotalLength(sges) < offset + size
    ensures SgePlan(table, memorySize, need, sges, offset, size).1 != Success
  {
    hide TableOk, SgePlan, Contributed;
    SuccessIff(table, memorySize, need, sges, offset, size);
    ContributedBound(table, need, sges, offset, size);
  }

  lemma {:induction false} ContributedBound(table: MrTable, need: set<Access>, sges: seq<Sge>, offset: nat, size: nat)
    ensures Sum(Contributed(table, need, sges, offset, size)) <= (if TotalLength(sges) < offset then 0 else TotalLength(sges) - offset)
    decreases |sges|
  {
    hide Skipped, Good, Sum;
    SumNothing();
    if sges != [] && size > 0 && Good(table, need, sges[0]) {
      var n, next := Amount(table, need, sges[0], offset, size), NextOffset(sges[0], offset);
      ContributedBound(table, need, sges[1..], next, size - n);
      SumFirst(n, Contributed(table, need, sges[1..], next, size - n));
    }
  }

  /** A copy that runs to the end of the list succeeds if and only if everything it needs is there. */
  lemma TailCopySucceedsIff(table: MrTable, memorySize: nat, need: set<Access>, sges: seq<Sge>, offset: nat, size: nat)
    requires TableOk(table, memorySize) && size > 0 && TotalLength(sges) == offset + size
    ensures SgePlan(table, memorySize, need, sges, offset, size).1 == Success <==> NeededInside(table, need, sges, offset, size)
  {
    hide TableOk, SgePlan, Contributed, NeededInside;
    SuccessIff(table, memorySize, need, sges, offset, size);
    TailSum(table, need, sges, offset, size);
  }

  lemma {:induction false} TailSum(table: MrTable, need: set<Access>, sges: seq<Sge>, offset: nat, size: nat)
    requires TotalLength(sges) == offset + size
    ensures Sum(Contributed(table, need, sges, offset, size)) == size <==> NeededInside(table, need, sges, offset, size)
    decreases |sges|
  {
    hide Skipped, Good, Sum;
    SumNothing();
    if sges != [] && size > 0 && Good(table, need, sges[0]) {
      var n, next := Amount(table, need, sges[0], offset, size), NextOffset(sges[0], offset);
      SumFirst(n, Contributed(table, need, sges[1..], next, size - n));
      if n == Share(sges[0], offset, size) {
        TailSum(table, need, sges[1..], next, size - n);
      } else {
        ContributedBound(table, need, sges[1..], next, size);
      }
    }
  }

  // ---------------------------------------------------------------------------
  // Empty copies

  predicate StartsWithin(mr: Mr, sge: Sge) {
    mr.start < sge.addr < mr.start + mr.length
  }

  /** Element `i` starts strictly inside its region, and no key up to it is bad. */
  predicate EndsEmptyCopy(table: MrTable, need: set<Access>, sges: seq<Sge>, i: nat)
    requires i < |sges|
  {
    (forall j :: 0 <= j <= i ==> Good(table, need, sges[j])) && StartsWithin(RegionOf(table, need, sges[i]), sges[i])
  }

  /**
    An empty copy succeeds if and only if some element starts after the first byte of its region and
    before its end, and no key up to that element is bad.
   */
  lemma {:induction false} EmptyCopySucceedsIff(table: MrTable, memorySize: nat, need: set<Access>, sges: seq<Sge>)
    requires TableOk(table, memorySize)
    ensures SgePlan(table, memorySize, need, sges, 0, 0).1 == Success <==> exists i :: 0 <= i < |sges| && EndsEmptyCopy(table, need, sges, i)
    decreases |sges|
  {
    hide TableOk, Lookup, Walk, Spot, SgePlan, Good;
    if sges == [] || !Good(table, need, sges[0]) {
      PlanStops(table, memorySize, need, sges, 0, 0);
    } else {
      var rest := sges[1..];
      FindsRegion(table, memorySize, need, sges[0]);
      EmptyCopySucceedsIff(table, memorySize, need, rest);
      PlanStep(table, memorySize, need, sges, 0, 0, 0, []);
      assert sges[0..] == sges;
      forall i | 0 <= i < |rest| && EndsEmptyCopy(table, need, rest, i) ensures EndsEmptyCopy(table, need, sges, i + 1) {
        assert forall j :: 0 < j <= i + 1 ==> sges[j] == rest[j - 1];
      }
      forall i | 0 < i < |sges| && EndsEmptyCopy(table, need, sges, i) ensures EndsEmptyCopy(table, need, rest, i - 1) {
        assert forall j :: 0 <= j <= i - 1 ==> rest[j] == sges[j + 1];
      }
      assert EndsEmptyCopy(table, need, sges, 0) <==> StartsWithin(RegionOf(table, need, sges[0]), sges[0]);
    }
  }

  /** One element that starts at the first byte of its region: an empty copy is refused. */
  lemma EmptyCopyRefused(table: MrTable, memorySize: nat, need: set<Access>, sge: Sge)
    requires TableOk(table, memorySize) && Good(table, need, sge)
    requires sge.addr == RegionOf(table, need, sge).start
    ensures SgePlan(table, memorySize, need, [sge], 0, 0).1 == LocProtErr
  {
    hide TableOk, Lookup, SgePlan, Good;
    FindsRegion(table, memorySize, need, sge);
    PlanStep(table, memorySize, need, [sge], 0, 0, 0, []);
    assert [sge][0..] == [sge] && [sge][1..] == [];
    PlanStops(table, memorySize, need, [], NextOffset(sge, 0), 0);
  }

  // ---------------------------------------------------------------------------
  // Parts of a window

  /** A part of the window reaches no further into an element than the window does. */
  lemma SkippedPart(table: MrTable, need: set<Access>, sge: Sge, offset: nat, size: nat, skip: nat, part: nat)
    requires skip + part <= size && Good(table, need, sge) && !Skipped(table, need, sge, offset, size)
    requires Share(sge, offset + skip, part) > 0
    ensures !Skipped(table, need, sge, offset + skip, part)
  {
    hide Good;
  }

  /** What is needed for a window is enough for every part of it. */
  lemma {:induction false} NeededPart(table: MrTable, need: set<Access>, sges: seq<Sge>, offset: nat, size: nat, skip: nat, part: nat)
    requires NeededInside(table, need, sges, offset, size) && skip + part <= size
    ensures NeededInside(table, need, sges, offset + skip, part)
    decreases |sges|
  {
    hide Good, Skipped;
    if sges != [] && part > 0 {
      var len := sges[0].length;
      var share, share' := Share(sges[0], offset, size), Share(sges[0], offset + skip, part);
      var next := NextOffset(sges[0], offset);
      if share' > 0 {
        SkippedPart(table, need, sges[0], offset, size, skip, part);
      }
      if len <= offset {
        NeededPart(table, need, sges[1..], next, size, skip, part);
      } else if len <= offset + skip {
        NeededPart(table, need, sges[1..], next, size - share, offset + skip - len, part);
      } else if offset + skip + part > len {
        NeededPart(table, need, sges[1..], next, size - share, 0, part - share');
      }
    }
  }

  /** The spots of a plan are positions in memory. */
  lemma {:induction false} PlanInMemory(table: MrTable, memorySize: nat, need: set<Access>, sges: seq<Sge>, offset: nat, size: nat)
    requires TableOk(table, memorySize) && size > 0
    ensures forall p :: p in SgePlan(table, memorySize, need, sges, offset, size).0 ==> p < memorySize
    decreases |sges|
  {
    hide TableOk, Good, SgePlan, Given, Amount;
    if sges == [] || !Good(table, need, sges[0]) {
      PlanStops(table, memorySize, need, sges, offset, size);
    } else {
      PlanHead(table, memorySize, need, sges, offset, size);
      GivenInMemory(table, memorySize, need, sges[0], offset, size);
      var n := Amount(table, need, sges[0], offset, size);
      if n < size {
        PlanInMemory(table, memorySize, need, sges[1..], NextOffset(sges[0], offset), size - n);
      }
    }
  }

  lemma GivenInMemory(table: MrTable, memorySize: nat, need: set<Access>, sge: Sge, offset: nat, size: nat)
    requires TableOk(table, memorySize) && Good(table, need, sge)
    ensures forall p :: p in Given(table, memorySize, need, sge, offset, size) ==> p < memorySize
  {
    hide Piece;
    FindsRegion(table, memorySize, need, sge);
    OutsideIff(RegionOf(table, need, sge), sge, MinNat(sge.length, offset + size));
    if !Skipped(table, need, sge, offset, size) {
      PieceInMemory(RegionOf(table, need, sge), memorySize, sge, offset, MinNat(sge.length, offset + size));
    }
  }

  lemma PieceInMemory(mr: Mr, memorySize: nat, sge: Sge, offset: nat, range: nat)
    requires MrOk(mr, memorySize) && !Outside(mr, sge, range)
    ensures forall p :: p in Piece(mr, sge, offset, range) ==> p < memorySize
  {
    hide Spot;
    if offset < range {
      var from := sge.addr - mr.start + offset + mr.skew;
      forall p | p in Piece(mr, sge, offset, range) ensures p < memorySize {
        var k :| 0 <= k < range - offset && Walk(mr, from, range - offset)[k] == p;
        SpotInMemory(mr, memorySize, from + k);
      }
    }
  }

  // ---------------------------------------------------------------------------
  // Protection

  /**
    Position `p` holds byte `k` of element `i`, which lies in the region under the element's key; that
    region is valid, has that very key and all the rights asked for, and `p` is in one of its pages.
   */
  predicate Permitted(table: MrTable, memorySize: nat, need: set<Access>, sges: seq<Sge>, p: nat, i: nat, k: nat)
    requires TableOk(table, memorySize)
  {
    && i < |sges| && k < sges[i].length
    && var entry := table[(sges[i].lkey / 0x100) % MAX_MR_PER_PD];
       && entry.Some? && entry.value.valid && entry.value.lkey == sges[i].lkey
       && (forall a :: a in need ==> a in entry.value.access)
       && var mr := entry.value;
          && mr.start <= sges[i].addr + k < mr.start + mr.length
          && var x := sges[i].addr + k - mr.start + mr.skew;
             x / mr.pageSize < |mr.pages| && p == mr.pages[x / mr.pageSize] + x % mr.pageSize
  }

  lemma PieceByte(mr: Mr, memorySize: nat, sge: Sge, offset: nat, range: nat, p: nat) returns (k: nat)
    requires MrOk(mr, memorySize) && !Outside(mr, sge, range) && p in Piece(mr, sge, offset, range)
    ensures k < range && mr.start <= sge.addr + k < mr.start + mr.length
    ensures var x := sge.addr + k - mr.start + mr.skew;
      x / mr.pageSize < |mr.pages| && p == mr.pages[x / mr.pageSize] + x % mr.pageSize
  {
    var piece := Piece(mr, sge, offset, range);
    var from := sge.addr - mr.start + offset + mr.skew;
    var j :| 0 <= j < |piece| && piece[j] == p;
    k := offset + j;
    assert piece[j] == Walk(mr, from, range - offset)[j] == Spot(mr, from + j);
    PageIndex(from + j, mr.pageSize, |mr.pages|);
  }

  lemma GivenPermitted(table: MrTable, memorySize: nat, need: set<Access>, sges: seq<Sge>, offset: nat, size: nat, p: nat) returns (k: nat)
    requires TableOk(table, memorySize) && sges != [] && Good(table, need, sges[0])
    requires p in Given(table, memorySize, need, sges[0], offset, size)
    ensures Permitted(table, memorySize, need, sges, p, 0, k)
  {
    var mr, range := RegionOf(table, need, sges[0]), MinNat(sges[0].length, offset + size);
    FindsRegion(table, memorySize, need, sges[0]);
    OutsideIff(mr, sges[0], range);
    k := PieceByte(mr, memorySize, sges[0], offset, range, p);
  }

  lemma {:induction false} EmptyVisitsNothing(table: MrTable, memorySize: nat, need: set<Access>, sges: seq<Sge>, offset: nat)
    requires TableOk(table, memorySize)
    ensures SgePlan(table, memorySize, need, sges, offset, 0).0 == []
    decreases |sges|
  {
    if sges != [] {
      EmptyVisitsNothing(table, memorySize, need, sges[1..], NextOffset(sges[0], offset));
    }
  }

  /**
    Whatever the list, the offset and the size, every position a copy visits belongs to an element
    whose key names a valid region with the rights asked for, and holds a byte of that region.
   */
  lemma {:induction false} OnlyPermitted(table: MrTable, memorySize: nat, need: set<Access>, sges: seq<Sge>, offset: nat, size: nat, p: nat)
    returns (i: nat, k: nat)
    requires TableOk(table, memorySize) && p in SgePlan(table, memorySize, need, sges, offset, size).0
    ensures Permitted(table, memorySize, need, sges, p, i, k)
    decreases |sges|
  {
    hide TableOk, Good, SgePlan, Given, Amount, Permitted;
    if size == 0 {
      EmptyVisitsNothing(table, memorySize, need, sges, offset);
      assert false;
    }
    if sges == [] || !Good(table, need, sges[0]) {
      PlanStops(table, memorySize, need, sges, offset, size);
      assert false;
    }
    PlanHead(table, memorySize, need, sges, offset, size);
    var given, next := Given(table, memorySize, need, sges[0], offset, size), NextOffset(sges[0], offset);
    if p in given {
      k := GivenPermitted(table, memorySize, need, sges, offset, size, p);
      i := 0;
    } else {
      i, k := OnlyPermitted(table, memorySize, need, sges[1..], next, size - |given|, p);
      PermittedLater(table, memorySize, need, sges, p, i, k);
      i := i + 1;
    }
  }

  lemma PermittedLater(table: MrTable, memorySize: nat, need: set<Access>, sges: seq<Sge>, p: nat, i: nat, k: nat)
    requires TableOk(table, memorySize) && sges != [] && Permitted(table, memorySize, need, sges[1..], p, i, k)
    ensures Permitted(table, memorySize, need, sges, p, i + 1, k)
  {
    assert sges[1..][i] == sges[i + 1];
  }
}
