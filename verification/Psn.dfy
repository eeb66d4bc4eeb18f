/**
  Packet sequence numbers.

  A PSN on the wire has 24 bits and lives in 32-bit fields that the driver never
  masks (`expected_psn`, `based_psn`, `responder.psn`).  The driver compares two of
  them only through `get_psn_diff`.

  Everywhere else in this project a PSN is the unbounded number of the packet in the
  stream of its queue pair, and every decision goes through `PsnDiff`, which first
  cuts both numbers to 32 bits.  `DiffSeesOnlyResidues` shows that this loses nothing:
  the result is the same whether a number is kept whole, cut to 32 bits, or masked to
  24 bits on the wire.
 */
module Psn {
  const TWO8: int := 0x100
  const TWO23: int := 0x80_0000
  const TWO24: int := 0x100_0000
  const TWO31: int := 0x8000_0000
  const TWO32: int := 0x1_0000_0000
  const TWO64: int := 0x1_0000_0000_0000_0000

  newtype uint32 = x: int | 0 <= x < 0x1_0000_0000

  function Cut32(x: int): uint32 {
    (x % TWO32) as uint32
  }

  /** PIB_PSN_MASK: what a packet carries. */
  function Mask24(x: int): int {
    x % TWO24
  }

  /** A 32-bit pattern read as a two's-complement number. */
  function Signed32(x: int): int {
    if x < TWO31 then x else x - TWO32
  }

  /** The low 24 bits of `x`, sign-extended. */
  function SignExtend24(x: int): int {
    var r := x % TWO24;
    if r < TWO23 then r else r - TWO24
  }

  /** get_psn_diff: subtract, shift left by 8, reread as signed, shift right by 8. */
  function GetPsnDiff(psn: uint32, basedPsn: uint32): int {
    var difference := (psn as int - basedPsn as int) % TWO32;
    var shifted := (difference * TWO8) % TWO32;
    Signed32(shifted) / TWO8
  }

  /** get_psn_diff on the 32-bit cuts of two stream positions. */
  function PsnDiff(psn: int, basedPsn: int): int {
    GetPsnDiff(Cut32(psn), Cut32(basedPsn))
  }

  /** Two stream positions are close enough for 24 bits to tell them apart and order them. */
  predicate Close(a: int, b: int) {
    -TWO23 < a - b < TWO23
  }

  lemma {:induction false} ShiftKeepsLow24(difference: int)
    requires 0 <= difference < TWO32
    ensures (difference * TWO8) % TWO32 == (difference % TWO24) * TWO8
  {
    var q, r := difference / TWO24, difference % TWO24;
    assert difference * TWO8 == q * TWO32 + r * TWO8;
  }

  lemma SignExtendCongruent(x: int, y: int, k: int)
    requires x == y + k * TWO24
    ensures SignExtend24(x) == SignExtend24(y)
  {
  }

  lemma DiffIsSignExtension(psn: int, basedPsn: int)
    ensures PsnDiff(psn, basedPsn) == SignExtend24(psn - basedPsn)
  {
    var a, b := Cut32(psn) as int, Cut32(basedPsn) as int;
    var difference := (a - b) % TWO32;
    ShiftKeepsLow24(difference);
    var k := (psn / TWO32 - basedPsn / TWO32 + (a - b) / TWO32) * TWO8;
    assert psn - basedPsn == difference + k * TWO24;
    SignExtendCongruent(psn - basedPsn, difference, k);
  }

  /** The driver's 32-bit and 24-bit views of a PSN give the same answer as the whole number. */
  lemma DiffSeesOnlyResidues(psn: int, basedPsn: int)
    ensures PsnDiff(Mask24(psn), basedPsn) == PsnDiff(psn, basedPsn)
    ensures PsnDiff(psn, Cut32(basedPsn) as int) == PsnDiff(psn, basedPsn)
    ensures PsnDiff(Mask24(psn), Mask24(basedPsn)) == PsnDiff(psn, basedPsn)
  {
    DiffIsSignExtension(psn, basedPsn);
    DiffIsSignExtension(Mask24(psn), basedPsn);
    DiffIsSignExtension(psn, Cut32(basedPsn) as int);
    DiffIsSignExtension(Mask24(psn), Mask24(basedPsn));
    SignExtendCongruent(psn - basedPsn, Mask24(psn) - basedPsn, psn / TWO24);
    SignExtendCongruent(psn - Cut32(basedPsn) as int, psn - basedPsn, (basedPsn / TWO32) * TWO8);
    SignExtendCongruent(psn - basedPsn, Mask24(psn) - Mask24(basedPsn), psn / TWO24 - basedPsn / TWO24);
  }

  /** get_psn_diff recovers the true distance exactly when that distance fits in 24 signed bits. */
  lemma DiffExact(psn: int, basedPsn: int)
    ensures PsnDiff(psn, basedPsn) == psn - basedPsn <==> -TWO23 <= psn - basedPsn < TWO23
  {
    DiffIsSignExtension(psn, basedPsn);
  }
}
