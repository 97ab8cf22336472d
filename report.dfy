/**
 * The statistics aggregator (pkg/report/report.go): it consumes the stream of
 * `{duration, error}` results, tallies errors by message, and summarises the
 * successful latencies. The stream is the sequence of results in arrival order.
 */
module Report {
  import opened Wrappers
  import opened GoTypes
  import opened Sorting

  /** One outcome: the measured duration in nanoseconds and the call's error, if any. */
  datatype Result = Result(totalTime: int64, err: Option<Error>)

  /** A percentile point, written in per-mille (99.9 is 999), and the latency read there. */
  datatype Percentile = Percentile(permille: nat, latency: int)

  /** `Stats` without the clock-driven TotalTime and RPS. Durations are nanoseconds. */
  datatype Stats = Stats(
    total: nat,
    fastest: int,
    slowest: int,
    average: int,
    percentiles: seq<Percentile>,
    errors: map<string, int>)

  /** The stats `NewReport` starts from: all zero, no percentiles, an empty error map. */
  const NewStats: Stats := Stats(0, 0, 0, 0, [], map[])

  /** The fixed percentile points 10, 25, 50, 75, 90, 95, 99 and 99.9, in per-mille. */
  const PercentilePoints: seq<nat> := [100, 250, 500, 750, 900, 950, 990, 999]

  /** A Go map read: a missing key reads 0. */
  function Get(m: map<string, int>, k: string): int
  {
    if k in m then m[k] else 0
  }

  /** `Errors[k]++`. */
  function Bump(m: map<string, int>, k: string): map<string, int>
  {
    m[k := Get(m, k) + 1]
  }

  /** The durations of the error-free results, in arrival order. */
  function Latencies(rs: seq<Result>): seq<int>
  {
    if rs == [] then []
    else Latencies(rs[..|rs| - 1]) + (if rs[|rs| - 1].err.None? then [rs[|rs| - 1].totalTime as int] else [])
  }

  /** The error map after every erroneous result has bumped its message. */
  function TallyErrors(errors: map<string, int>, rs: seq<Result>): map<string, int>
  {
    if rs == [] then errors
    else
      var before := TallyErrors(errors, rs[..|rs| - 1]);
      if rs[|rs| - 1].err.Some? then Bump(before, rs[|rs| - 1].err.value.message) else before
  }

  /** How many results failed with message m. */
  function ErrorCount(rs: seq<Result>, m: string): nat
  {
    if rs == [] then 0
    else ErrorCount(rs[..|rs| - 1], m) + (if rs[|rs| - 1].err == Some(Error(m)) then 1 else 0)
  }

  /** How many results failed at all. */
  function NumErrors(rs: seq<Result>): nat
  {
    if rs == [] then 0
    else NumErrors(rs[..|rs| - 1]) + (if rs[|rs| - 1].err.Some? then 1 else 0)
  }

  function Sum(s: seq<int>): int
  {
    if s == [] then 0 else Sum(s[..|s| - 1]) + s[|s| - 1]
  }

  /** Go's integer division, which truncates toward zero (Dafny's `/` is Euclidean). */
  function GoDiv(a: int, n: int): int
    requires n > 0
  {
    if a >= 0 then a / n else -((-a) / n)
  }

  /**
   * `int(float64(n) * p / 100)` read with exact rationals: the nearest-rank
   * index floor(n * p / 100), which lies in [0, n) for every point below 100.
   */
  function PercentileIndex(n: nat, permille: nat): (i: nat)
    requires n > 0 && permille < 1000
    ensures i < n
  {
    assert n * permille < n * 1000;
    n * permille / 1000
  }

  /** The eight percentiles read off an ascending list of latencies. */
  function PercentilesOf(sorted: seq<int>): (ps: seq<Percentile>)
    requires |sorted| > 0
  {
    seq(|PercentilePoints|, k requires 0 <= k < |PercentilePoints| =>
          Percentile(PercentilePoints[k], sorted[PercentileIndex(|sorted|, PercentilePoints[k])]))
  }

  /** The stats `processResults` leaves behind, starting from `s0`, after consuming `rs`. */
  function Processed(s0: Stats, rs: seq<Result>): Stats
  {
    Summarised(s0, TallyErrors(s0.errors, rs), SortAscending(Latencies(rs)))
  }

  /** The stats after the tally produced `errors` and the sorted latencies `sorted`. */
  function Summarised(s0: Stats, errors: map<string, int>, sorted: seq<int>): Stats
  {
    if |sorted| == 0 then s0.(errors := errors)
    else
      s0.(errors := errors,
          total := |sorted|,
          fastest := sorted[0],
          slowest := sorted[|sorted| - 1],
          average := GoDiv(Sum(sorted), |sorted|),
          percentiles := s0.percentiles + PercentilesOf(sorted))
  }

  // ---------------------------------------------------------------------------
  // The steps of processResults

  /** The consuming loop: bump the error map on an error, otherwise append the latency. */
  method Tally(errors0: map<string, int>, results: seq<Result>) returns (errors: map<string, int>, latencies: seq<int>)
    ensures errors == TallyErrors(errors0, results)
    ensures latencies == Latencies(results)
  {
    errors, latencies := errors0, [];
    var i := 0;
    while i < |results|
      invariant 0 <= i <= |results|
      invariant errors == TallyErrors(errors0, results[..i])
      invariant latencies == Latencies(results[..i])
    {
      assert results[..i + 1][..i] == results[..i];
      var res := results[i];
      if res.err.Some? {
        errors := errors[res.err.value.message := Get(errors, res.err.value.message) + 1];
      } else {
        latencies := latencies + [res.totalTime as int];
      }
      i := i + 1;
    }
    assert results[..i] == results;
  }

  /** The mean: accumulate `avgTotal` over the latencies, then divide as Go does. */
  method Average(latencies: seq<int>) returns (average: int)
    requires |latencies| > 0
    ensures average == GoDiv(Sum(latencies), |latencies|)
  {
    var avgTotal := 0;
    var i := 0;
    while i < |latencies|
      invariant 0 <= i <= |latencies|
      invariant avgTotal == Sum(latencies[..i])
    {
      assert latencies[..i + 1][..i] == latencies[..i];
      avgTotal := avgTotal + latencies[i];
      i := i + 1;
    }
    assert latencies[..i] == latencies;
    average := GoDiv(avgTotal, |latencies|);
  }

  /** The percentile loop: one entry per fixed point, appended in order. */
  method ReadPercentiles(sorted: seq<int>) returns (ps: seq<Percentile>)
    requires |sorted| > 0
    ensures ps == PercentilesOf(sorted)
  {
    ps := [];
    var k := 0;
    while k < |PercentilePoints|
      invariant 0 <= k <= |PercentilePoints|
      invariant |ps| == k
      invariant forall j :: 0 <= j < k ==>
                  ps[j] == Percentile(PercentilePoints[j], sorted[PercentileIndex(|sorted|, PercentilePoints[j])])
    {
      var p := PercentilePoints[k];
      var i := |sorted| * p / 1000;
      assert i == PercentileIndex(|sorted|, p);
      ps := ps + [Percentile(p, sorted[i])];
      k := k + 1;
    }
  }

  /** The `report` object: its stats are filled in place by ProcessResults. */
  class Report {
    var stats: Stats

    /** `NewReport`: the error map starts empty. */
    constructor ()
      ensures stats == NewStats
    {
      stats := NewStats;
    }

    /**
     * `processResults` over the whole result stream. With no successes only the
     * error map changes; otherwise the latencies are sorted and summarised.
     */
    method ProcessResults(results: seq<Result>)
      modifies this
      ensures stats == Processed(old(stats), results)
    {
      var errors, latencies := Tally(stats.errors, results);
      stats := stats.(errors := errors);
      if |latencies| == 0 {
        return;
      }
      latencies := SortAscending(latencies);
      stats := stats.(total := |latencies|, fastest := latencies[0], slowest := latencies[|latencies| - 1]);
      var average := Average(latencies);
      stats := stats.(average := average);
      var ps := ReadPercentiles(latencies);
      stats := stats.(percentiles := stats.percentiles + ps);
    }
  }

  // ---------------------------------------------------------------------------
  // Counting

  /** Each erroneous result adds one to its message's count, and nothing else does. */
  lemma {:induction false} TallyCounts(errors: map<string, int>, rs: seq<Result>, m: string)
    ensures Get(TallyErrors(errors, rs), m) == Get(errors, m) + ErrorCount(rs, m)
    ensures m in TallyErrors(errors, rs) <==> m in errors || ErrorCount(rs, m) > 0
  {
    if rs != [] {
      TallyCounts(errors, rs[..|rs| - 1], m);
    }
  }

  /** Every result is either an error or a latency. */
  lemma {:induction false} ErrorsPlusLatencies(rs: seq<Result>)
    ensures NumErrors(rs) + |Latencies(rs)| == |rs|
  {
    if rs != [] {
      ErrorsPlusLatencies(rs[..|rs| - 1]);
    }
  }

  /** The sum of m's values over the given keys. */
  ghost function SumOver(keys: set<string>, m: map<string, int>): int
    requires keys <= m.Keys
    decreases keys
  {
    if keys == {} then 0
    else
      var k :| k in keys;
      m[k] + SumOver(keys - {k}, m)
  }

  /** The sum of a map's values. */
  ghost function MapSum(m: map<string, int>): int
  {
    SumOver(m.Keys, m)
  }

  /** SumOver does not depend on which key it picks first. */
  lemma {:induction false} SumOverRemove(keys: set<string>, m: map<string, int>, k: string)
    requires keys <= m.Keys && k in keys
    ensures SumOver(keys, m) == m[k] + SumOver(keys - {k}, m)
    decreases keys
  {
    var j :| j in keys && SumOver(keys, m) == m[j] + SumOver(keys - {j}, m);
    if j != k {
      assert keys - {j} - {k} == keys - {k} - {j};
      SumOverRemove(keys - {j}, m, k);
      SumOverRemove(keys - {k}, m, j);
    }
  }

  /** SumOver only reads the keys it sums over. */
  lemma {:induction false} SumOverAgree(keys: set<string>, m: map<string, int>, n: map<string, int>)
    requires keys <= m.Keys && keys <= n.Keys
    requires forall k :: k in keys ==> m[k] == n[k]
    ensures SumOver(keys, m) == SumOver(keys, n)
    decreases keys
  {
    if keys != {} {
      var k :| k in keys;
      SumOverRemove(keys, m, k);
      SumOverRemove(keys, n, k);
      SumOverAgree(keys - {k}, m, n);
    }
  }

  /** `Errors[k]++` adds one to the total error count. */
  lemma MapSumBump(m: map<string, int>, k: string)
    ensures MapSum(Bump(m, k)) == MapSum(m) + 1
  {
    var b := Bump(m, k);
    SumOverRemove(b.Keys, b, k);
    SumOverAgree(b.Keys - {k}, b, m);
    if k in m {
      SumOverRemove(m.Keys, m, k);
      assert b.Keys - {k} == m.Keys - {k};
    } else {
      assert b.Keys - {k} == m.Keys;
    }
  }

  lemma {:induction false} TallyMapSum(errors: map<string, int>, rs: seq<Result>)
    ensures MapSum(TallyErrors(errors, rs)) == MapSum(errors) + NumErrors(rs)
  {
    if rs != [] {
      TallyMapSum(errors, rs[..|rs| - 1]);
      if rs[|rs| - 1].err.Some? {
        MapSumBump(TallyErrors(errors, rs[..|rs| - 1]), rs[|rs| - 1].err.value.message);
      }
    }
  }

  /**
   * Starting from a new report, the error counts and Total add up to the number
   * of results consumed.
   */
  lemma CountsAddUp(rs: seq<Result>)
    ensures MapSum(Processed(NewStats, rs).errors) + Processed(NewStats, rs).total == |rs|
  {
    TallyMapSum(map[], rs);
    ErrorsPlusLatencies(rs);
    var empty: map<string, int> := map[];
    assert |empty| == 0;
  }

  /** With no successes, only the error map changes: a new report keeps zero totals and no percentiles. */
  lemma NoSuccessesKeepsZeros(s0: Stats, rs: seq<Result>)
    requires Latencies(rs) == []
    ensures Processed(s0, rs) == s0.(errors := TallyErrors(s0.errors, rs))
    ensures s0 == NewStats ==>
              var s := Processed(s0, rs);
              s.total == 0 && s.fastest == 0 && s.slowest == 0 && s.average == 0 && s.percentiles == []
  {
  }

  // ---------------------------------------------------------------------------
  // Order statistics

  /** Fastest and Slowest are the least and greatest successful latency, and Total their number. */
  lemma ExtremesAreMinMax(s0: Stats, rs: seq<Result>)
    requires Latencies(rs) != []
    ensures Processed(s0, rs).total == |Latencies(rs)|
    ensures Processed(s0, rs).fastest in Latencies(rs) && Processed(s0, rs).slowest in Latencies(rs)
    ensures forall x :: x in Latencies(rs) ==> Processed(s0, rs).fastest <= x <= Processed(s0, rs).slowest
  {
    var sorted := SortAscending(Latencies(rs));
    assert sorted[0] in multiset(sorted);
    assert sorted[|sorted| - 1] in multiset(sorted);
    forall x | x in Latencies(rs) ensures sorted[0] <= x <= sorted[|sorted| - 1] {
      assert x in multiset(sorted);
      SortedBounds(sorted, x);
    }
  }

  lemma {:induction false} SumBounds(s: seq<int>, lo: int, hi: int)
    requires forall i :: 0 <= i < |s| ==> lo <= s[i] <= hi
    ensures |s| * lo <= Sum(s) <= |s| * hi
  {
    if s != [] {
      var n := |s| - 1;
      SumBounds(s[..n], lo, hi);
      assert |s| * lo == n * lo + lo && |s| * hi == n * hi + hi;
    }
  }

  lemma MulMonotone(n: int, x: int, y: int)
    requires n > 0 && x <= y
    ensures n * x <= n * y
  {
    assert n * y - n * x == n * (y - x);
  }

  /** Euclidean division of a non-negative a by n stays in [lo, hi] when a does in [n*lo, n*hi]. */
  lemma DivBetween(a: int, n: int, lo: int, hi: int)
    requires a >= 0 && n > 0 && n * lo <= a <= n * hi
    ensures lo <= a / n <= hi
  {
    var q, r := a / n, a % n;
    assert a == n * q + r && 0 <= r < n;
    assert n * (q + 1) == n * q + n;
    assert n * (hi + 1) == n * hi + n;
    if q < lo {
      MulMonotone(n, q + 1, lo);
    }
    if q > hi {
      MulMonotone(n, hi + 1, q);
    }
  }

  /** A truncated mean of values in [lo, hi] stays in [lo, hi]. */
  lemma GoDivBetween(a: int, n: int, lo: int, hi: int)
    requires n > 0 && n * lo <= a <= n * hi
    ensures lo <= GoDiv(a, n) <= hi
  {
    if a >= 0 {
      DivBetween(a, n, lo, hi);
    } else {
      assert n * (-hi) == -(n * hi) && n * (-lo) == -(n * lo);
      DivBetween(-a, n, -hi, -lo);
    }
  }

  /** The integer mean lies between Fastest and Slowest. */
  lemma AverageBetweenExtremes(s0: Stats, rs: seq<Result>)
    requires Latencies(rs) != []
    ensures Processed(s0, rs).fastest <= Processed(s0, rs).average <= Processed(s0, rs).slowest
  {
    var sorted := SortAscending(Latencies(rs));
    var n := |sorted|;
    SumBounds(sorted, sorted[0], sorted[n - 1]);
    GoDivBetween(Sum(sorted), n, sorted[0], sorted[n - 1]);
  }

  lemma PercentileIndexMonotone(n: nat, p: nat, q: nat)
    requires n > 0 && p <= q < 1000
    ensures PercentileIndex(n, p) <= PercentileIndex(n, q)
  {
    assert n * p <= n * q;
  }

  /** Percentiles read off an ascending list never decrease and stay within its ends. */
  lemma SortedPercentiles(sorted: seq<int>)
    requires Sorted(sorted) && |sorted| > 0
    ensures var ps := PercentilesOf(sorted);
            && |ps| == |PercentilePoints|
            && (forall k :: 0 <= k < |ps| ==>
                  ps[k].permille == PercentilePoints[k] && sorted[0] <= ps[k].latency <= sorted[|sorted| - 1])
            && (forall k, j :: 0 <= k <= j < |ps| ==> ps[k].latency <= ps[j].latency)
  {
    var ps := PercentilesOf(sorted);
    var n := |sorted|;
    forall k, j | 0 <= k <= j < |ps| ensures ps[k].latency <= ps[j].latency {
      PercentileIndexMonotone(n, PercentilePoints[k], PercentilePoints[j]);
    }
  }

  /**
   * The report gains exactly eight percentiles after the ones it had, at 10,
   * 25, 50, 75, 90, 95, 99 and 99.9 in that order; their latencies never
   * decrease and stay between Fastest and Slowest.
   */
  lemma PercentilesMonotone(s0: Stats, rs: seq<Result>)
    requires Latencies(rs) != []
    ensures var s := Processed(s0, rs);
            var ps := s.percentiles[|s0.percentiles|..];
            && s.percentiles[..|s0.percentiles|] == s0.percentiles
            && |ps| == 8
            && (forall k :: 0 <= k < |ps| ==>
                  ps[k].permille == PercentilePoints[k] && s.fastest <= ps[k].latency <= s.slowest)
            && (forall k, j :: 0 <= k <= j < |ps| ==> ps[k].latency <= ps[j].latency)
  {
    var sorted := SortAscending(Latencies(rs));
    SortedPercentiles(sorted);
    var s := Processed(s0, rs);
    assert s.percentiles == s0.percentiles + PercentilesOf(sorted);
    assert s.percentiles[|s0.percentiles|..] == PercentilesOf(sorted);
    assert s.percentiles[..|s0.percentiles|] == s0.percentiles;
  }

  // ---------------------------------------------------------------------------
  // Arrival order does not matter

  lemma {:induction false} LatenciesAppend(a: seq<Result>, b: seq<Result>)
    ensures Latencies(a + b) == Latencies(a) + Latencies(b)
    decreases |b|
  {
    if b != [] {
      assert (a + b)[..|a + b| - 1] == a + b[..|b| - 1];
      LatenciesAppend(a, b[..|b| - 1]);
    } else {
      assert a + b == a;
    }
  }

  lemma {:induction false} ErrorCountAppend(a: seq<Result>, b: seq<Result>, m: string)
    ensures ErrorCount(a + b, m) == ErrorCount(a, m) + ErrorCount(b, m)
    decreases |b|
  {
    if b != [] {
      assert (a + b)[..|a + b| - 1] == a + b[..|b| - 1];
      ErrorCountAppend(a, b[..|b| - 1], m);
    } else {
      assert a + b == a;
    }
  }

  lemma MultisetRemove(b: seq<Result>, j: nat)
    requires j < |b|
    ensures multiset(b[..j] + b[j + 1..]) == multiset(b) - multiset{b[j]}
  {
    assert b == b[..j] + [b[j]] + b[j + 1..];
  }

  lemma MultisetMiddle(u: seq<int>, v: seq<int>, w: seq<int>)
    ensures multiset(u + v + w) == multiset(u + w) + multiset(v)
  {
  }

  /** Taking out the j-th result takes out its latency, wherever it stood. */
  lemma RemoveLatency(b: seq<Result>, j: nat)
    requires j < |b|
    ensures multiset(Latencies(b)) == multiset(Latencies(b[..j] + b[j + 1..])) + multiset(Latencies([b[j]]))
  {
    var l, x, r := b[..j], b[j], b[j + 1..];
    var ll, lx, lr := Latencies(l), Latencies([x]), Latencies(r);
    assert Latencies(b) == ll + lx + lr by {
      assert b == (l + [x]) + r;
      LatenciesAppend(l + [x], r);
      LatenciesAppend(l, [x]);
    }
    assert Latencies(l + r) == ll + lr by {
      LatenciesAppend(l, r);
    }
    MultisetMiddle(ll, lx, lr);
  }

  /** Taking out the j-th result takes out its error, wherever it stood. */
  lemma RemoveError(b: seq<Result>, j: nat, m: string)
    requires j < |b|
    ensures ErrorCount(b, m) == ErrorCount(b[..j] + b[j + 1..], m) + ErrorCount([b[j]], m)
  {
    var l, x, r := b[..j], b[j], b[j + 1..];
    assert ErrorCount(b, m) == ErrorCount(l, m) + ErrorCount([x], m) + ErrorCount(r, m) by {
      assert b == (l + [x]) + r;
      ErrorCountAppend(l + [x], r, m);
      ErrorCountAppend(l, [x], m);
    }
    ErrorCountAppend(l, r, m);
  }

  /** Results that are a permutation of each other have the same latencies (as a multiset) and error counts. */
  lemma {:induction false} PermutationKeepsOutcomes(a: seq<Result>, b: seq<Result>)
    requires multiset(a) == multiset(b)
    ensures multiset(Latencies(a)) == multiset(Latencies(b))
    ensures forall m :: ErrorCount(a, m) == ErrorCount(b, m)
    decreases |a|
  {
    if a == [] {
      assert |b| == |multiset(b)| == 0;
    } else {
      var n := |a| - 1;
      var x := a[n];
      assert x in multiset(b);
      var j :| 0 <= j < |b| && b[j] == x;
      var a', b' := a[..n] + a[n + 1..], b[..j] + b[j + 1..];
      MultisetRemove(a, n);
      MultisetRemove(b, j);
      PermutationKeepsOutcomes(a', b');
      RemoveLatency(a, n);
      RemoveLatency(b, j);
      forall m ensures ErrorCount(a, m) == ErrorCount(b, m) {
        RemoveError(a, n, m);
        RemoveError(b, j, m);
      }
    }
  }

  /**
   * The stats depend only on which results arrived, not on the order the
   * workers delivered them in.
   */
  lemma ArrivalOrderIrrelevant(s0: Stats, a: seq<Result>, b: seq<Result>)
    requires multiset(a) == multiset(b)
    ensures Processed(s0, a) == Processed(s0, b)
  {
    PermutationKeepsOutcomes(a, b);
    var sa, sb := SortAscending(Latencies(a)), SortAscending(Latencies(b));
    assert multiset(sa) == multiset(sb);
    SortedPermutationUnique(sa, sb);
    SameCountsSameTally(s0.errors, a, b);
    assert Processed(s0, a) == Summarised(s0, TallyErrors(s0.errors, a), sa);
  }

  /** Two streams with the same error count per message leave the same error map. */
  lemma SameCountsSameTally(errors: map<string, int>, a: seq<Result>, b: seq<Result>)
    requires forall m :: ErrorCount(a, m) == ErrorCount(b, m)
    ensures TallyErrors(errors, a) == TallyErrors(errors, b)
  {
    var ta, tb := TallyErrors(errors, a), TallyErrors(errors, b);
    forall m ensures Get(ta, m) == Get(tb, m) && (m in ta <==> m in tb) {
      TallyCounts(errors, a, m);
      TallyCounts(errors, b, m);
    }
    assert ta.Keys == tb.Keys;
    assert forall m :: m in ta ==> ta[m] == Get(ta, m);
  }
}
