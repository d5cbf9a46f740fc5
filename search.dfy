/**
 * The program's pipeline: the prime source feeds `scan`, whose closure keeps
 * the running sum of squares; `enumerate` numbers the sums; `filter` keeps
 * the pairs (i, S) with S % (i+1) == 0; the `while let` loop in `main`
 * reports i+1 for each pair it pulls.
 */
module Search {
  import opened Wrappers
  import opened Primes
  import opened Squaring
  import opened SquareSums

  /** A prime prefix is shorter than the `usize` range, so the 1-based index never overflows. */
  lemma PrefixFitsUsize(ps: seq<Usize>)
    requires IsPrimePrefix(ps)
    ensures |ps| < USIZE_MAX
  {
    if |ps| > 0 {
      PrefixGrows(ps, |ps| - 1);
    }
  }

  /** The `scan` adaptor over the prime source, with its closure's retained state. */
  class Scan {
    /** The finite prefix of the prime source this scan reads. */
    const primes: seq<Usize>
    /** How many primes the scan has pulled from the source. */
    var consumed: nat
    /** The closure's state: the running sum, owned by the scan. */
    var state: int

    ghost predicate Valid()
      reads this
    {
      consumed <= |primes| && state == SumSq(primes[..consumed])
    }

    /** The scan starts from the state 0 with nothing consumed. */
    constructor (primes: seq<Usize>)
      ensures Valid()
      ensures this.primes == primes && consumed == 0 && state == 0
    {
      this.primes := primes;
      consumed := 0;
      state := 0;
    }

    /**
     * The closure body for prime n: add n² to the state in place, through the
     * native square when it fits and the arbitrary-precision one otherwise,
     * and yield a copy of the new state. It never yields None.
     */
    method Accumulate(n: Usize) returns (r: Option<int>)
      modifies this`state
      ensures state == old(state) + n * n
      ensures r == Some(state)
    {
      var sq := CheckedSquare(n);
      if sq.Some? {
        state := state + sq.value;
      } else {
        state := state + BigSquare(n);
      }
      r := Some(state);
    }

    /** Pull the next prime and run the closure on it; None once the source is exhausted. */
    method Next() returns (r: Option<int>)
      requires Valid()
      modifies this
      ensures Valid()
      ensures old(consumed) < |primes| ==>
        consumed == old(consumed) + 1 &&
        state == old(state) + Square(primes[old(consumed)]) &&
        r == Some(state)
      ensures old(consumed) == |primes| ==>
        consumed == old(consumed) && state == old(state) && r == None
    {
      if consumed == |primes| {
        return None;
      }
      var n := primes[consumed];
      ghost var ps: seq<nat> := primes;
      SumSqStep(ps, consumed);
      assert ps[..consumed + 1] == primes[..consumed + 1];
      consumed := consumed + 1;
      r := Accumulate(n);
    }
  }

  /** The `enumerate` and `filter` adaptors stacked on the scan. */
  class Filter {
    const scan: Scan
    /** The `enumerate` counter: how many sums have been numbered. */
    var count: Usize

    ghost predicate Valid()
      reads this, scan
    {
      scan.Valid() && count == scan.consumed && IsPrimePrefix(scan.primes)
    }

    constructor (primes: seq<Usize>)
      requires IsPrimePrefix(primes)
      ensures Valid() && fresh(scan)
      ensures scan.primes == primes && count == 0
    {
      scan := new Scan(primes);
      count := 0;
    }

    /**
     * Pull numbered sums until one satisfies S % (i+1) == 0 and yield it as
     * (i, S_{i+1}), or yield None when the source is exhausted. The divisor
     * i+1 is at least 1, and the indices passed over do not qualify.
     */
    method Next() returns (item: Option<(Usize, int)>)
      requires Valid()
      modifies this, scan
      ensures Valid()
      ensures item.Some? ==>
        old(count) < count &&
        item.value == (count - 1, SumSq(scan.primes[..count])) &&
        ReportedIn(scan.primes, old(count), count) == [count]
      ensures item.None? ==>
        count == |scan.primes| &&
        ReportedIn(scan.primes, old(count), count) == []
    {
      ghost var start := count;
      while true
        invariant Valid()
        invariant start <= count
        invariant ReportedIn(scan.primes, start, count) == []
        decreases |scan.primes| - count
      {
        var r := scan.Next();
        if r.None? {
          return None;
        }
        var n := r.value;
        PrefixFitsUsize(scan.primes);
        var i := count;
        count := count + 1;
        if n % (i + 1) == 0 {
          return Some((i, n));
        }
      }
    }
  }

  /**
   * The `while let` loop of `main` over a finite prefix of the primes: the
   * indices it reports, in the order it reports them.
   */
  method Run(primes: seq<Usize>) returns (reported: seq<nat>)
    requires IsPrimePrefix(primes)
    ensures reported == Reported(primes)
    ensures forall k: nat :: k in reported <==> 1 <= k <= |primes| && SumSq(primes[..k]) % k == 0
    ensures StrictlyIncreasing(reported)
  {
    var iter := new Filter(primes);
    reported := [];
    while true
      invariant fresh(iter.scan)
      invariant iter.Valid() && iter.scan.primes == primes
      invariant reported == ReportedIn(primes, 0, iter.count)
      decreases |primes| - iter.count
    {
      ghost var before := iter.count;
      var item := iter.Next();
      ReportedInSplit(primes, 0, before, iter.count);
      match item
      case None =>
        break;
      case Some((i, _)) =>
        reported := reported + [i + 1];
    }
    ReportedExactly(primes);
  }

  /**
   * Each value the scan yields is a copy: after the scan has gone on to 38,
   * the first value it yielded is still 4.
   */
  method ScanSnapshots() returns (first: Option<int>, second: Option<int>, third: Option<int>, retained: int)
    ensures first == Some(4) && second == Some(13) && third == Some(38)
    ensures retained == 38
  {
    FirstThreeReported();
    var scan := new Scan([2, 3, 5]);
    first := scan.Next();
    second := scan.Next();
    third := scan.Next();
    retained := scan.state;
  }
}
