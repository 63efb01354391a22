/**
 The parts of C++ integer semantics that the reduction program relies on:
 the range of a 32-bit `int`, the range of values `rand()` returns, and the
 remainder operator `%`, which truncates toward zero.
 */
module CInt {

  const INT32_MIN: int := -0x8000_0000
  const INT32_MAX: int := 0x7FFF_FFFF

  /** A C++ `int` on the platforms the program targets: 32-bit two's complement. */
  type Int32 = x: int | INT32_MIN <= x <= INT32_MAX

  predicate InInt32(x: int) {
    INT32_MIN <= x <= INT32_MAX
  }

  /**
   A value `rand()` may return: an `int` between 0 and RAND_MAX. RAND_MAX is
   platform-defined, but `rand()` returns `int`, so RAND_MAX is at most INT_MAX.
   */
  type RandValue = x: int | 0 <= x <= INT32_MAX

  /** C++ `x / m` for a positive divisor: the quotient truncated toward zero. */
  function Quot(x: int, m: int): int
    requires m > 0
  {
    if x >= 0 then x / m else -((-x) / m)
  }

  /**
   C++ `x % m` for a positive divisor. C++ division truncates toward zero, so the
   remainder has the sign of `x`; Dafny's `%` is Euclidean, hence the case split.
   The ensures clauses state the C++ rule that `(x / m) * m + x % m == x`, with a
   remainder smaller than `m` in magnitude and on the same side of zero as `x`.
   */
  function Rem(x: int, m: int): (r: int)
    requires m > 0
    ensures Quot(x, m) * m + r == x
    ensures 0 <= x ==> 0 <= r < m
    ensures x < 0 ==> -m < r <= 0
  {
    if x >= 0 then x % m else -((-x) % m)
  }
}
