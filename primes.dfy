/**
 * The prime source. The program reads primes from a sieve library; here the
 * source is a given finite prefix p_1, p_2, …, p_k of the primes, and
 * primality is decided by trial division.
 */
module Primes {

  /** Trial division: no divisor d, d+1, …, n-1 divides n. */
  function NoDivisorFrom(n: nat, d: nat): bool
    requires 2 <= d
    decreases n - d
  {
    d >= n || (n % d != 0 && NoDivisorFrom(n, d + 1))
  }

  predicate IsPrime(n: nat)
  {
    n >= 2 && NoDivisorFrom(n, 2)
  }

  lemma {:induction false} NoDivisorFromCorrect(n: nat, d: nat)
    requires 2 <= d
    ensures NoDivisorFrom(n, d) <==> forall e :: d <= e < n ==> n % e != 0
    decreases n - d
  {
    if d < n {
      NoDivisorFromCorrect(n, d + 1);
    }
  }

  /** Trial division agrees with the definition of a prime. */
  lemma IsPrimeCorrect(n: nat)
    ensures IsPrime(n) <==> n >= 2 && forall e :: 2 <= e < n ==> n % e != 0
  {
    NoDivisorFromCorrect(n, 2);
  }

  /**
   * `ps` lists the first |ps| primes in order: it starts at 2, holds only
   * primes, increases strictly and skips no prime.
   */
  predicate IsPrimePrefix(ps: seq<nat>)
  {
    (|ps| > 0 ==> ps[0] == 2) &&
    (forall j :: 0 <= j < |ps| ==> IsPrime(ps[j])) &&
    (forall j :: 0 <= j < |ps| - 1 ==> ps[j] < ps[j + 1]) &&
    (forall j, q :: 0 <= j < |ps| - 1 && ps[j] < q < ps[j + 1] ==> !IsPrime(q))
  }

  /** The j-th entry (0-based) of a prime prefix is at least j + 2. */
  lemma {:induction false} PrefixGrows(ps: seq<nat>, j: nat)
    requires IsPrimePrefix(ps)
    requires j < |ps|
    ensures ps[j] >= j + 2
  {
    if j > 0 {
      PrefixGrows(ps, j - 1);
    }
  }

  /** The first three primes are 2, 3 and 5. */
  lemma FirstThreePrimes()
    ensures IsPrimePrefix([2, 3, 5])
  {
    var ps: seq<nat> := [2, 3, 5];
    assert IsPrime(2) && IsPrime(3) && IsPrime(5);
    assert !IsPrime(4);
    forall j, q | 0 <= j < |ps| - 1 && ps[j] < q < ps[j + 1]
      ensures !IsPrime(q)
    {
      assert j == 1 && q == 4;
    }
  }

  /** A list that skips 3 is not the start of the primes. */
  lemma SkippingIsNoPrefix()
    ensures !IsPrimePrefix([2, 5])
  {
    var ps: seq<nat> := [2, 5];
    assert ps[0] < 3 < ps[1] && IsPrime(3);
  }
}
