# Sums of squared primes divisible by their index

A Dafny model of a small search program. The program walks the primes
p_1 = 2, p_2 = 3, p_3 = 5, … and keeps the running sum
S_k = p_1² + … + p_k², starting from S_0 = 0. It reports every 1-based
index k for which k divides S_k.

The program is one iterator chain followed by a consuming loop:

- the prime source (`Primes::all()`);
- a `scan` whose closure squares each prime and adds the square to its
  retained state, then yields a copy of the state. The square comes from the
  native `usize` `checked_pow(2)`, or from an arbitrary-precision square when
  the native one overflows;
- `enumerate`, which numbers the running sums from 0;
- `filter`, which keeps the pairs (i, S) with S % (i+1) == 0;
- a `while let` loop that reports i+1 for each pair it pulls.

Modules:

- `Wrappers` (wrappers.dfy): the `Option` the iterators yield.
- `Primes` (primes.dfy): primality by trial division. `IsPrimePrefix` says a
  sequence is exactly the first k primes in order. This predicate stands in
  for the prime source.
- `Squaring` (squaring.dfy): the 64-bit `usize` range, `checked_pow(2)`, and
  the arbitrary-precision square.
- `SquareSums` (square_sums.dfy): the specification. It defines S_k, the
  report condition, the list of reported indices, and the lemmas about them.
- `Search` (search.dfy): the imperative pipeline.
  - Class `Scan` is the scan adaptor. Its `state` field is the closure's
    running sum.
  - Class `Filter` is the enumerate and filter adaptors. Its `count` field is
    the enumerate counter.
  - Method `Run` is the `while let` loop of `main`.

The program runs forever over all primes. The model runs over any finite
prefix of the primes and proves that what it reports for that prefix is
exactly the set of qualifying indices.

## Model

| member | source | states |
|---|---|---|
| `Primes.IsPrimeCorrect` | src/main.rs:10 | trial division accepts n exactly when n >= 2 and no e with 2 <= e < n divides n |
| `Primes.NoDivisorFromCorrect` | src/main.rs:10 | trial division from d succeeds exactly when no e in [d, n) divides n |
| `Primes.PrefixGrows` | src/main.rs:10 | the j-th prime (0-based) of a prime prefix is at least j + 2 |
| `Primes.FirstThreePrimes` | src/main.rs:10 | 2, 3, 5 is the start of the prime sequence |
| `Primes.SkippingIsNoPrefix` | src/main.rs:10 | a list that skips a prime (2, 5) is not the start of the prime sequence |
| `Squaring.SquareFits` | src/main.rs:13 | n² fits in a 64-bit `usize` exactly when n < 2^32 |
| `Squaring.CheckedSquare` | src/main.rs:13 | `checked_pow(2)` yields a value exactly when n² <= `usize::MAX`, which is exactly when n < 2^32, and that value is n² |
| `Squaring.BigSquare` | src/main.rs:17 | `Int::from(n).dsquare()` is n·n: never negative, and zero only for n = 0 |
| `Squaring.SquarePathsAgree` | src/main.rs:13-18 | when the native path succeeds it adds the same value as the arbitrary-precision path; the fallback is taken exactly from 2^32 on, where n² exceeds the native range |
| `SquareSums.SumSqAppend` | src/main.rs:11-19 | the sum of squares of a concatenation is the sum of the two parts' sums |
| `SquareSums.SumSqAgree` | src/main.rs:11-19 | the running sum built last-element-last equals an independent front-to-back sum of squares |
| `SquareSums.SumSqStep` | src/main.rs:13-18 | consuming the prime at position k adds exactly its square: S_{k+1} = S_k + p_{k+1}² |
| `SquareSums.SumSqStrictlyIncreasing` | src/main.rs:13-19 | with positive entries, S_j < S_k whenever j < k |
| `SquareSums.SumSqAtLeastLast` | src/main.rs:13-19 | S_k >= p_k² for every k >= 1 |
| `SquareSums.Qualifies` | src/main.rs:22 | the `filter` predicate `n % (i+1) == 0` for k = i+1 is "k >= 1 and S_k mod k = 0"; index 0 never qualifies and index 1 always does |
| `SquareSums.ReportedInMembers` | src/main.rs:21-22 | an index is in the reports for (lo, hi] exactly when lo < k <= hi, k >= 1 and k divides S_k |
| `SquareSums.ReportedInIncreasing` | src/main.rs:21-27 | the reports for any range are in strictly increasing order |
| `SquareSums.ReportedInSplit` | src/main.rs:24-29 | reporting (lo, mid] and then (mid, hi] yields exactly the reports of (lo, hi] in the same order |
| `SquareSums.ReportedExactly` | src/main.rs:21-27 | the reported indices are exactly {k : 1 <= k <= number of primes, S_k mod k = 0}, listed in strictly increasing order |
| `SquareSums.ReportedInOfPrefix` | src/main.rs:21-22 | a prefix of the primes gives the same reports as the full list up to the prefix's length |
| `SquareSums.ReportedOfPrefix` | src/main.rs:21-27 | the reports for the first m primes are decided by those primes alone and are a prefix of the reports for any longer list |
| `SquareSums.FirstIndexReported` | src/main.rs:11-22 | for every non-empty list of primes, index 1 is the first index reported |
| `SquareSums.FirstThreeReported` | src/main.rs:11-22 | with primes 2, 3, 5 the sums are 4, 13, 38 and only index 1 is reported |
| `Search.PrefixFitsUsize` | src/main.rs:21-22 | a prime prefix has fewer than `usize::MAX` entries, so neither the enumerate counter nor the divisor i+1 overflows |
| `Search.Scan.constructor` | src/main.rs:10-11 | the scan reads the given primes and starts from the state 0 with nothing consumed |
| `Search.Scan.Accumulate` | src/main.rs:11-19 | the closure adds exactly n² to its state in place, whichever squaring path it takes, and yields `Some` copy of the new state, never `None` |
| `Search.Scan.Next` | src/main.rs:10-20 | each pull consumes one prime, adds its square, keeps the state equal to S_k for the k primes consumed, and yields S_k; it yields None only once the prefix is exhausted |
| `Search.Filter.constructor` | src/main.rs:10-22 | the chain starts with its counter at 0 over a fresh scan of the given primes |
| `Search.Filter.Next` | src/main.rs:21-22 | the next pair is (i, S_{i+1}) for the first i+1 past the previous pull with S_{i+1} mod (i+1) = 0; every index passed over does not qualify; None means the prefix is exhausted with no further qualifying index; the divisor is always at least 1 |
| `Search.Run` | src/main.rs:24-29 | the loop reports exactly the list of qualifying indices: every k in 1..n with S_k mod k = 0, no other, in strictly increasing order |
| `Search.ScanSnapshots` | src/main.rs:19 | each yielded value is a copy: after the state has moved on to 38, the values yielded earlier are still 4 and 13 |

## Left out

- Printing and timing: `Instant::now`, the elapsed-milliseconds field and `println!` are I/O and wall-clock behaviour. `Run` returns the reported indices in order instead of printing them.
- The prime sieve: the `primal` crate is a foreign library. It is replaced by the input sequence together with the requirement `IsPrimePrefix`, which says the input is the first k primes in order.
- The internals of the arbitrary-precision integer type (`ramp::Int`, `dsquare`, its `+=` and `%`): it is foreign code, and is modelled by Dafny's unbounded `int`. The running sum is never negative. So Dafny's Euclidean `%` and the Rust remainder agree on it.
- The unbounded run: the program never stops, and the model covers any finite prefix of the primes instead.
- The width of `usize` depends on the platform. The model fixes it at 64 bits (`USIZE_MAX` = 2^64 - 1).
- The program has no fixed-width sum that stops on overflow and no tagged inline/heap representation with one-way promotion. It keeps the sum in an arbitrary-precision integer throughout, and only the squaring has a native fast path.
