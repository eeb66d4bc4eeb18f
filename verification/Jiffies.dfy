/**
  Kernel time.  A jiffies value is kept whole here and compared, as in the kernel, by the
  sign of a 64-bit difference.
 */
module Jiffies {
  import Psn

  const TWO63: int := 0x8000_0000_0000_0000

  /** PIB_SCHED_TIMEOUT. */
  const SCHED_TIMEOUT: int := 0x3FFF_FFFF

  function Signed64(x: int): int {
    var r := x % Psn.TWO64;
    if r < TWO63 then r else r - Psn.TWO64
  }

  /** time_after(a, b). */
  predicate TimeAfter(a: int, b: int) {
    Signed64(b - a) < 0
  }

  /** time_before_eq(a, b). */
  predicate TimeBeforeEq(a: int, b: int) {
    Signed64(b - a) >= 0
  }

  /** Two times are within half the range of the counter. */
  predicate Near(a: int, b: int) {
    -TWO63 < a - b < TWO63
  }

  /** The wrapped comparison is the true one for times within half the range. */
  lemma TimeAfterExact(a: int, b: int)
    requires Near(a, b)
    ensures TimeAfter(a, b) <==> a > b
    ensures TimeBeforeEq(a, b) <==> a <= b
  {
  }
}
