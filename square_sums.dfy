/**
 * The mathematics behind the search: S_k = p_1² + … + p_k² with S_0 = 0,
 * and the report condition "k divides S_k" for 1-based indices k.
 */
module SquareSums {

  function Square(x: nat): nat
  {
    x * x
  }

  /** The running sum of squares, built the way the scan builds it: last element added last. */
  function SumSq(s: seq<nat>): nat
  {
    if s == [] then 0 else SumSq(s[..|s| - 1]) + Square(s[|s| - 1])
  }

  /** An independent reference definition, summing from the front. */
  function SumSqFromFront(s: seq<nat>): nat
  {
    if s == [] then 0 else Square(s[0]) + SumSqFromFront(s[1..])
  }

  lemma {:induction false} SumSqAppend(a: seq<nat>, b: seq<nat>)
    ensures SumSq(a + b) == SumSq(a) + SumSq(b)
    decreases |b|
  {
    if b == [] {
      assert a + b == a;
    } else {
      var b' := b[..|b| - 1];
      assert (a + b)[..|a + b| - 1] == a + b';
      SumSqAppend(a, b');
    }
  }

  /** Both summation orders give the same value. */
  lemma {:induction false} SumSqAgree(s: seq<nat>)
    ensures SumSq(s) == SumSqFromFront(s)
  {
    if s != [] {
      SumSqAgree(s[1..]);
      SumSqAppend([s[0]], s[1..]);
      assert [s[0]] + s[1..] == s;
      assert [s[0]][..0] == [];
    }
  }

  /** Consuming the element at position k adds its square: S_{k+1} = S_k + p_{k+1}². */
  lemma SumSqStep(s: seq<nat>, k: nat)
    requires k < |s|
    ensures SumSq(s[..k + 1]) == SumSq(s[..k]) + Square(s[k])
  {
    assert s[..k + 1][..k] == s[..k];
  }

  /** With positive entries, S_j < S_k whenever j < k: every step strictly increases the sum. */
  lemma {:induction false} SumSqStrictlyIncreasing(s: seq<nat>, j: nat, k: nat)
    requires forall i :: 0 <= i < |s| ==> s[i] > 0
    requires j < k <= |s|
    ensures SumSq(s[..j]) < SumSq(s[..k])
    decreases k - j
  {
    SumSqStep(s, k - 1);
    assert Square(s[k - 1]) > 0;
    if j < k - 1 {
      SumSqStrictlyIncreasing(s, j, k - 1);
    }
  }

  /** S_k is at least p_k². */
  lemma SumSqAtLeastLast(s: seq<nat>, k: nat)
    requires 1 <= k <= |s|
    ensures SumSq(s[..k]) >= Square(s[k - 1])
  {
    SumSqStep(s, k - 1);
  }

  /**
   * The report condition for the 1-based index k: k divides S_k. Index 0
   * never qualifies, and index 1 always does.
   */
  function Qualifies(s: seq<nat>, k: nat): (b: bool)
    requires k <= |s|
    ensures b ==> k >= 1
    ensures k == 1 ==> b
  {
    k >= 1 && SumSq(s[..k]) % k == 0
  }

  /** The qualifying indices k with lo < k <= hi, in increasing order. */
  function ReportedIn(s: seq<nat>, lo: nat, hi: nat): seq<nat>
    requires lo <= hi <= |s|
    decreases hi
  {
    if hi == lo then []
    else ReportedIn(s, lo, hi - 1) + (if Qualifies(s, hi) then [hi] else [])
  }

  /** Every index of the prefix that the search reports. */
  function Reported(s: seq<nat>): seq<nat>
  {
    ReportedIn(s, 0, |s|)
  }

  lemma {:induction false} ReportedInMembers(s: seq<nat>, lo: nat, hi: nat, k: nat)
    requires lo <= hi <= |s|
    ensures k in ReportedIn(s, lo, hi) <==> lo < k <= hi && Qualifies(s, k)
    decreases hi
  {
    if hi > lo {
      ReportedInMembers(s, lo, hi - 1, k);
    }
  }

  predicate StrictlyIncreasing(r: seq<nat>)
  {
    forall a, b :: 0 <= a < b < |r| ==> r[a] < r[b]
  }

  lemma {:induction false} ReportedInIncreasing(s: seq<nat>, lo: nat, hi: nat)
    requires lo <= hi <= |s|
    ensures StrictlyIncreasing(ReportedIn(s, lo, hi))
    decreases hi
  {
    if hi > lo {
      ReportedInIncreasing(s, lo, hi - 1);
      var r' := ReportedIn(s, lo, hi - 1);
      if Qualifies(s, hi) {
        var r := r' + [hi];
        forall a, b | 0 <= a < b < |r|
          ensures r[a] < r[b]
        {
          if b == |r'| {
            ReportedInMembers(s, lo, hi - 1, r'[a]);
          }
        }
      } else {
        assert ReportedIn(s, lo, hi) == r' + [];
        assert r' + [] == r';
      }
    }
  }

  /** Reporting (lo, mid] and then (mid, hi] yields exactly the reports of (lo, hi]. */
  lemma {:induction false} ReportedInSplit(s: seq<nat>, lo: nat, mid: nat, hi: nat)
    requires lo <= mid <= hi <= |s|
    ensures ReportedIn(s, lo, mid) + ReportedIn(s, mid, hi) == ReportedIn(s, lo, hi)
    decreases hi
  {
    if hi == mid {
      assert ReportedIn(s, lo, mid) + [] == ReportedIn(s, lo, mid);
    } else {
      ReportedInSplit(s, lo, mid, hi - 1);
      var tail := if Qualifies(s, hi) then [hi] else [];
      assert ReportedIn(s, lo, mid) + (ReportedIn(s, mid, hi - 1) + tail)
          == (ReportedIn(s, lo, mid) + ReportedIn(s, mid, hi - 1)) + tail;
    }
  }

  /**
   * The reported indices are exactly {k : 1 <= k <= |s|, k divides S_k},
   * listed 1-based and in strictly increasing order.
   */
  lemma ReportedExactly(s: seq<nat>)
    ensures forall k: nat :: k in Reported(s) <==> 1 <= k <= |s| && SumSq(s[..k]) % k == 0
    ensures StrictlyIncreasing(Reported(s))
  {
    forall k: nat
      ensures k in Reported(s) <==> 1 <= k <= |s| && SumSq(s[..k]) % k == 0
    {
      ReportedInMembers(s, 0, |s|, k);
    }
    ReportedInIncreasing(s, 0, |s|);
  }

  /** A prefix t of s agrees with s on every report up to its own length. */
  lemma {:induction false} ReportedInOfPrefix(s: seq<nat>, m: nat, hi: nat)
    requires hi <= m <= |s|
    ensures ReportedIn(s[..m], 0, hi) == ReportedIn(s, 0, hi)
    decreases hi
  {
    if hi > 0 {
      ReportedInOfPrefix(s, m, hi - 1);
      assert s[..m][..hi] == s[..hi];
    }
  }

  /**
   * The reports for the first m primes are decided by those primes alone and
   * come first among the reports of any longer prefix: no look-ahead, no reordering.
   */
  lemma ReportedOfPrefix(s: seq<nat>, m: nat)
    requires m <= |s|
    ensures Reported(s[..m]) == ReportedIn(s, 0, m)
    ensures Reported(s[..m]) <= Reported(s)
  {
    var t := s[..m];
    assert |t| == m;
    ReportedInOfPrefix(s, m, m);
    assert Reported(t) == ReportedIn(s, 0, m);
    ReportedInSplit(s, 0, m, |s|);
    assert Reported(s) == Reported(t) + ReportedIn(s, m, |s|);
  }

  /** Index 1 is always reported: 1 divides S_1. */
  lemma FirstIndexReported(s: seq<nat>)
    requires |s| >= 1
    ensures Reported(s) != [] && Reported(s)[0] == 1
  {
    ReportedInSplit(s, 0, 1, |s|);
    assert ReportedIn(s, 0, 1) == [1];
  }

  /** With primes 2, 3, 5 the sums are 4, 13, 38, and only index 1 is reported. */
  lemma FirstThreeReported()
    ensures SumSq([2, 3, 5][..1]) == 4
    ensures SumSq([2, 3, 5][..2]) == 13
    ensures SumSq([2, 3, 5][..3]) == 38
    ensures Reported([2, 3, 5]) == [1]
  {
    var s: seq<nat> := [2, 3, 5];
    SumSqStep(s, 0);
    SumSqStep(s, 1);
    SumSqStep(s, 2);
    assert s[..0] == [];
  }
}
