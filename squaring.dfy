/**
 * Squaring a prime before it is added to the running sum. The primes are
 * native `usize` values (64 bits wide here); the program first tries the
 * overflow-checked native square and falls back to an arbitrary-precision
 * square when that overflows.
 */
module Squaring {
  import opened Wrappers

  /** The largest value of a 64-bit `usize`. */
  const USIZE_MAX: nat := 0xFFFF_FFFF_FFFF_FFFF

  /** The first native value whose square no longer fits in a `usize`: 2^32. */
  const SQUARE_LIMIT: nat := 0x1_0000_0000

  type Usize = n: nat | n <= USIZE_MAX

  lemma {:induction false} SquareMonotone(a: nat, b: nat)
    requires a <= b
    ensures a * a <= b * b
  {
    assert a * a <= a * b by {
      assert a * (b - a) >= 0;
    }
    assert a * b <= b * b by {
      assert (b - a) * b >= 0;
    }
  }

  /** n² is a native value exactly when n is below 2^32. */
  lemma {:induction false} SquareFits(n: nat)
    ensures n * n <= USIZE_MAX <==> n < SQUARE_LIMIT
  {
    if n < SQUARE_LIMIT {
      SquareMonotone(n, SQUARE_LIMIT - 1);
    } else {
      SquareMonotone(SQUARE_LIMIT, n);
    }
  }

  /**
   * `n.checked_pow(2)`: the native square, or None when it would overflow
   * the `usize` range.
   */
  function CheckedSquare(n: Usize): (r: Option<Usize>)
    ensures r.Some? <==> n * n <= USIZE_MAX
    ensures r.Some? <==> n < SQUARE_LIMIT
    ensures r.Some? ==> r.value == n * n
  {
    SquareFits(n);
    if n * n <= USIZE_MAX then Some(n * n) else None
  }

  /** `Int::from(n).dsquare()`: the arbitrary-precision square. */
  function BigSquare(n: int): (r: int)
    ensures r >= 0
    ensures r == 0 <==> n == 0
    ensures r == n * n
  {
    n * n
  }

  /**
   * The native path, when it succeeds, adds the same value as the fallback;
   * the fallback is taken only from 2^32 on, where n² exceeds the native range.
   */
  lemma {:induction false} SquarePathsAgree(n: Usize)
    ensures CheckedSquare(n).Some? ==> CheckedSquare(n).value == BigSquare(n)
    ensures CheckedSquare(n).None? <==> n >= SQUARE_LIMIT
    ensures n >= SQUARE_LIMIT ==> BigSquare(n) > USIZE_MAX
  {
    SquareFits(n);
  }
}
