/** Exact integer statistics of microsecond samples. */
module Statistics {
  import opened Sorting
  import opened Text

  datatype Statistics = Statistics(median: uint32, p95: uint32, mad: uint32)

  // ----- sorting -----

  predicate AtMost(a: uint32, b: uint32) {
    a <= b
  }

  predicate Ascending(s: seq<uint32>) {
    forall i, j :: 0 <= i < j < |s| ==> s[i] <= s[j]
  }

  /** `std::sort` leaves the values in ascending order. */
  lemma SortAscends(s: seq<uint32>)
    ensures Ascending(Sort(AtMost, s))
  {
    hide Sort;
    SortSorts(AtMost, s);
    var r := Sort(AtMost, s);
    forall i, j | 0 <= i < j < |r| ensures r[i] <= r[j] {
      assert AtMost(r[i], r[j]);
    }
  }

  /** A sorted sequence is determined by its values. */
  lemma {:induction false} AscendingUnique(a: seq<uint32>, b: seq<uint32>)
    requires Ascending(a) && Ascending(b) && multiset(a) == multiset(b)
    ensures a == b
  {
    assert |multiset(a)| == |a| && |multiset(b)| == |b|;
    if a != [] {
      SameLeast(a, b);
      assert a == [a[0]] + a[1..] && b == [b[0]] + b[1..];
      assert multiset(a[1..]) == multiset(a) - multiset{a[0]};
      assert multiset(b[1..]) == multiset(b) - multiset{b[0]};
      AscendingUnique(a[1..], b[1..]);
    }
  }

  lemma SameLeast(a: seq<uint32>, b: seq<uint32>)
    requires Ascending(a) && Ascending(b) && multiset(a) == multiset(b) && a != [] && b != []
    ensures a[0] == b[0]
  {
    assert a[0] in multiset(b) && b[0] in multiset(a);
    var i :| 0 <= i < |b| && b[i] == a[0];
    var j :| 0 <= j < |a| && a[j] == b[0];
  }

  // ----- the computation -----

  /** The midpoint, summed in 64 bits. */
  function Midpoint(low: uint32, high: uint32): uint32 {
    var sum: nat := low + high;
    sum / 2
  }

  function MedianOfSorted(values: seq<uint32>): uint32 {
    if values == [] then 0
    else
      var middle := |values| / 2;
      if |values| % 2 == 1 then values[middle] else Midpoint(values[middle - 1], values[middle])
  }

  function Distance(a: int, b: int): nat {
    if a > b then a - b else b - a
  }

  function Deviations(s: seq<uint32>, center: uint32): (r: seq<uint32>)
    ensures |r| == |s| && forall i :: 0 <= i < |s| ==> r[i] == Distance(s[i], center)
  {
    seq(|s|, i requires 0 <= i < |s| => Distance(s[i], center))
  }

  /** The nearest-rank index of the source, with its 32-bit `size_t`. */
  function P95Rank(n: nat): nat {
    (95 * n + 99) % TWO_32 / 100
  }

  /** The sample counts for which the rank is computed without wrapping. */
  predicate RankFits(n: nat) {
    95 * n + 99 < TWO_32
  }

  lemma RankBounds(n: nat)
    requires n > 0 && RankFits(n)
    ensures 1 <= P95Rank(n) <= n
    ensures 100 * (P95Rank(n) - 1) < 95 * n <= 100 * P95Rank(n)
  {
  }

  /** The computed rank is the nearest rank exactly for those counts. */
  lemma RankExactly(n: nat)
    ensures P95Rank(n) == (95 * n + 99) / 100 <==> RankFits(n)
  {
    var x := 95 * n + 99;
    if x >= TWO_32 {
      assert x % TWO_32 <= x - TWO_32;
    }
  }

  /** The rank names a position of the sorted samples; a wrapped rank of zero does not. */
  predicate RankInside(n: nat) {
    1 <= P95Rank(n) <= n
  }

  function Median(samples: seq<uint32>): uint32 {
    MedianOfSorted(Sort(AtMost, samples))
  }

  /** The median absolute deviation from the median. */
  function Mad(samples: seq<uint32>): uint32 {
    MedianOfSorted(Sort(AtMost, Deviations(Sort(AtMost, samples), Median(samples))))
  }

  /** `None` stands for the read outside the sorted samples that a wrapped rank leads to. */
  function Calculate(samples: seq<uint32>): Option<Statistics> {
    if samples == [] then Some(Statistics(0, 0, 0))
    else if !RankInside(|samples|) then None
    else Some(Statistics(Median(samples), Sort(AtMost, samples)[P95Rank(|samples|) - 1], Mad(samples)))
  }

  method CalculateResultStatistics(samples: seq<uint32>) returns (result: Option<Statistics>)
    ensures result == Calculate(samples)
  {
    hide Sort, MedianOfSorted;
    if samples == [] {
      return Some(Statistics(0, 0, 0));
    }
    var sorted := Sort(AtMost, samples);
    var median := MedianOfSorted(sorted);
    var rank := (95 * |sorted| + 99) % TWO_32 / 100;
    if rank == 0 || rank > |sorted| {
      return None;
    }
    var p95 := sorted[rank - 1];
    var deviations: seq<uint32> := [];
    for i := 0 to |sorted|
      invariant deviations == Deviations(sorted, median)[..i]
    {
      var value := sorted[i];
      deviations := deviations + [if value > median then value - median else median - value];
    }
    assert deviations == Deviations(sorted, median);
    deviations := Sort(AtMost, deviations);
    return Some(Statistics(median, p95, MedianOfSorted(deviations)));
  }

  /** The order samples arrive in does not matter. */
  lemma PermutationInvariant(a: seq<uint32>, b: seq<uint32>)
    requires multiset(a) == multiset(b)
    ensures |a| == |b| && Calculate(a) == Calculate(b)
  {
    hide Sort, Ascending, MedianOfSorted, Deviations, RankInside, P95Rank;
    assert |multiset(a)| == |a| && |multiset(b)| == |b|;
    SortAscends(a);
    SortAscends(b);
    AscendingUnique(Sort(AtMost, a), Sort(AtMost, b));
  }

  // ----- what the numbers mean -----

  function SumOfDistances(s: seq<uint32>, center: int): nat {
    if s == [] then 0 else Distance(s[0], center) + SumOfDistances(s[1..], center)
  }

  function CountAtMost(s: seq<uint32>, bound: int): nat {
    if s == [] then 0 else (if s[0] <= bound then 1 else 0) + CountAtMost(s[1..], bound)
  }

  function CountWithin(s: seq<uint32>, center: int, radius: int): nat {
    if s == [] then 0 else (if Distance(s[0], center) <= radius then 1 else 0) + CountWithin(s[1..], center, radius)
  }

  lemma {:induction false} InsertMeasures(s: seq<uint32>, x: uint32, c: int, b: int)
    ensures SumOfDistances(Insert(AtMost, x, s), c) == SumOfDistances(s, c) + Distance(x, c)
    ensures CountAtMost(Insert(AtMost, x, s), b) == CountAtMost(s, b) + if x <= b then 1 else 0
    ensures CountWithin(Insert(AtMost, x, s), c, b) == CountWithin(s, c, b) + if Distance(x, c) <= b then 1 else 0
  {
    if s == [] {
      assert [x][1..] == [];
    } else if x <= s[0] {
      assert ([x] + s)[1..] == s;
    } else {
      InsertMeasures(s[1..], x, c, b);
      assert ([s[0]] + Insert(AtMost, x, s[1..]))[1..] == Insert(AtMost, x, s[1..]);
    }
  }

  lemma {:induction false} SortMeasures(s: seq<uint32>, c: int, b: int)
    ensures SumOfDistances(Sort(AtMost, s), c) == SumOfDistances(s, c)
    ensures CountAtMost(Sort(AtMost, s), b) == CountAtMost(s, b)
    ensures CountWithin(Sort(AtMost, s), c, b) == CountWithin(s, c, b)
  {
    if s != [] {
      SortMeasures(s[1..], c, b);
      InsertMeasures(Sort(AtMost, s[1..]), s[0], c, b);
    }
  }

  lemma {:induction false} SumSnoc(s: seq<uint32>, x: uint32, c: int)
    ensures SumOfDistances(s + [x], c) == SumOfDistances(s, c) + Distance(x, c)
  {
    if s == [] {
      assert [x][1..] == [] && s + [x] == [x];
    } else {
      assert (s + [x])[1..] == s[1..] + [x];
      SumSnoc(s[1..], x, c);
    }
  }

  lemma MedianBetween(s: seq<uint32>)
    requires Ascending(s) && s != []
    ensures s[0] <= MedianOfSorted(s) <= s[|s| - 1]
  {
  }

  lemma MedianOfInner(s: seq<uint32>)
    requires |s| >= 3
    ensures MedianOfSorted(s[1..|s| - 1]) == MedianOfSorted(s)
  {
  }

  /** Pairing the outermost samples: no center beats the median. */
  lemma {:induction false} MedianOptimalSorted(s: seq<uint32>, c: int)
    requires Ascending(s) && s != []
    ensures SumOfDistances(s, MedianOfSorted(s)) <= SumOfDistances(s, c)
    decreases |s|
  {
    var m := MedianOfSorted(s);
    MedianBetween(s);
    if |s| == 1 {
      assert s[1..] == [];
    } else {
      var inner, last := s[1..|s| - 1], s[|s| - 1];
      assert s[1..] == inner + [last];
      SumSnoc(inner, last, m);
      SumSnoc(inner, last, c);
      if inner != [] {
        MedianOfInner(s);
        MedianOptimalSorted(inner, c);
      }
    }
  }

  /** No integer has a smaller sum of absolute deviations than the median. */
  lemma MedianOptimal(samples: seq<uint32>, c: int)
    requires samples != []
    ensures SumOfDistances(samples, Median(samples)) <= SumOfDistances(samples, c)
  {
    hide Sort, Ascending, MedianOfSorted, SumOfDistances;
    SortAscends(samples);
    var m := Median(samples);
    SortMeasures(samples, c, 0);
    SortMeasures(samples, m, 0);
    MedianOptimalSorted(Sort(AtMost, samples), c);
  }

  lemma {:induction false} CountBySorted(s: seq<uint32>, k: nat, bound: int)
    requires Ascending(s) && k < |s|
    ensures s[k] <= bound ==> k + 1 <= CountAtMost(s, bound)
    ensures bound < s[k] ==> CountAtMost(s, bound) <= k
  {
    if k > 0 {
      CountBySorted(s[1..], k - 1, bound);
    } else {
      if bound < s[0] {
        NoneAtMost(s, bound);
      }
    }
  }

  lemma {:induction false} NoneAtMost(s: seq<uint32>, bound: int)
    requires forall i :: 0 <= i < |s| ==> bound < s[i]
    ensures CountAtMost(s, bound) == 0
  {
    if s != [] {
      NoneAtMost(s[1..], bound);
    }
  }

  /** p95 is the least sample with at least 95 percent of the samples at or below it. */
  lemma P95IsLeast(samples: seq<uint32>, x: uint32)
    requires samples != [] && RankFits(|samples|)
    ensures Calculate(samples).Some?
    ensures
      var p := Calculate(samples).value.p95;
      p in samples && 95 * |samples| <= 100 * CountAtMost(samples, p) &&
      (95 * |samples| <= 100 * CountAtMost(samples, x) ==> p <= x)
  {
    hide Sort, MedianOfSorted, CountAtMost, P95Rank;
    SortAscends(samples);
    var sorted, k := Sort(AtMost, samples), P95Rank(|samples|) - 1;
    RankBounds(|samples|);
    var p := Calculate(samples).value.p95;
    SortMeasures(samples, 0, p);
    SortMeasures(samples, 0, x);
    CountBySorted(sorted, k, p);
    CountBySorted(sorted, k, x);
    assert p in multiset(sorted);
  }

  /** p95 is a sample with 95 percent of the samples at or below it. */
  predicate P95Reached(samples: seq<uint32>) {
    samples == [] ||
    (Calculate(samples).Some? && 95 * |samples| <= 100 * CountAtMost(samples, Calculate(samples).value.p95))
  }

  /** The sample counts for which p95 is right on every list: those whose rank does not wrap. */
  lemma P95Exactly(n: nat)
    requires n <= TWO_32
    ensures (forall samples: seq<uint32> :: |samples| == n ==> P95Reached(samples)) <==> n == 0 || RankFits(n)
  {
    if n == 0 || RankFits(n) {
      forall samples: seq<uint32> | |samples| == n ensures P95Reached(samples) {
        if samples != [] {
          P95IsLeast(samples, 0);
        }
      }
    } else {
      P95MissesRamp(n);
    }
  }

  function Ramp(n: nat): (s: seq<uint32>)
    requires n <= TWO_32
    ensures |s| == n
  {
    seq(n, i requires 0 <= i < n => i)
  }

  lemma P95MissesRamp(n: nat)
    requires 0 < n <= TWO_32 && !RankFits(n)
    ensures !P95Reached(Ramp(n))
  {
    hide Sort, CountAtMost, MedianOfSorted, Mad;
    var samples := Ramp(n);
    SortAscends(samples);
    AscendingUnique(Sort(AtMost, samples), samples);
    ShortRank(n);
    var k := P95Rank(n);
    if RankInside(n) {
      CountBySorted(samples, k, k - 1);
    }
  }

  lemma ShortRank(n: nat)
    requires 0 < n && !RankFits(n)
    ensures 100 * P95Rank(n) < 95 * n && P95Rank(n) < n
  {
    var x := 95 * n + 99;
    assert x % TWO_32 <= x - TWO_32;
  }

  lemma {:induction false} WithinIsDeviation(s: seq<uint32>, c: uint32, r: int)
    ensures CountWithin(s, c, r) == CountAtMost(Deviations(s, c), r)
  {
    if s != [] {
      assert Deviations(s, c)[1..] == Deviations(s[1..], c);
      WithinIsDeviation(s[1..], c, r);
    }
  }

  lemma HalfAtMostMedian(s: seq<uint32>)
    requires Ascending(s) && s != []
    ensures |s| <= 2 * CountAtMost(s, MedianOfSorted(s))
    ensures 2 * CountAtMost(s, MedianOfSorted(s) - 1) <= |s|
  {
    hide CountAtMost;
    var m: int := MedianOfSorted(s);
    var k := |s| / 2;
    if |s| % 2 == 1 {
      CountBySorted(s, k, m);
      CountBySorted(s, k, m - 1);
    } else {
      assert s[k - 1] <= s[k];
      CountBySorted(s, k - 1, m);
      CountBySorted(s, k, m - 1);
    }
  }

  /** At least half the samples lie within MAD of the median, and at most half strictly nearer. */
  lemma MadIsCentral(samples: seq<uint32>)
    requires samples != []
    ensures |samples| <= 2 * CountWithin(samples, Median(samples), Mad(samples))
    ensures 2 * CountWithin(samples, Median(samples), Mad(samples) - 1) <= |samples|
  {
    hide Sort, Median, Mad, MedianOfSorted, CountAtMost, CountWithin, Deviations, SumOfDistances;
    var mad: int := Mad(samples);
    MadOf(samples);
    HalfWithin(Sort(AtMost, samples), Median(samples));
    SortMeasures(samples, Median(samples), mad);
    SortMeasures(samples, Median(samples), mad - 1);
  }

  lemma MadOf(samples: seq<uint32>)
    ensures Mad(samples) == MedianOfSorted(Sort(AtMost, Deviations(Sort(AtMost, samples), Median(samples))))
  {
    hide Sort, MedianOfSorted, Deviations;
  }

  /** The median of the distances from any center splits the values by distance. */
  lemma HalfWithin(s: seq<uint32>, center: uint32)
    requires s != []
    ensures
      var mad := MedianOfSorted(Sort(AtMost, Deviations(s, center)));
      |s| <= 2 * CountWithin(s, center, mad) && 2 * CountWithin(s, center, mad - 1) <= |s|
  {
    hide Sort, Ascending, MedianOfSorted, CountAtMost, CountWithin, Deviations, SumOfDistances;
    var deviations := Deviations(s, center);
    var mad: int := MedianOfSorted(Sort(AtMost, deviations));
    SortAscends(deviations);
    HalfAtMostMedian(Sort(AtMost, deviations));
    SortMeasures(deviations, 0, mad);
    SortMeasures(deviations, 0, mad - 1);
    WithinIsDeviation(s, center, mad);
    WithinIsDeviation(s, center, mad - 1);
  }

  // ----- the exact values -----

  /** The value is the `k`th smallest of the list, counted from one. */
  predicate IsRanked(s: seq<uint32>, v: uint32, k: nat) {
    CountAtMost(s, v - 1) < k <= CountAtMost(s, v)
  }

  lemma MiddleOfSorted(s: seq<uint32>) returns (low: uint32, high: uint32)
    requires Ascending(s) && s != []
    ensures IsRanked(s, low, (|s| + 1) / 2) && IsRanked(s, high, |s| / 2 + 1)
    ensures MedianOfSorted(s) == (low + high) / 2
  {
    hide CountAtMost;
    var l, h := (|s| + 1) / 2 - 1, |s| / 2;
    low, high := s[l], s[h];
    CountBySorted(s, l, low);
    CountBySorted(s, l, low - 1);
    CountBySorted(s, h, high);
    CountBySorted(s, h, high - 1);
  }

  /** The median is the whole part of half the sum of the two middle samples, which may be one. */
  lemma MedianExactly(samples: seq<uint32>) returns (low: uint32, high: uint32)
    requires samples != []
    ensures IsRanked(samples, low, (|samples| + 1) / 2) && IsRanked(samples, high, |samples| / 2 + 1)
    ensures Median(samples) == (low + high) / 2
  {
    hide Sort, CountAtMost, MedianOfSorted, Ascending, CountWithin, SumOfDistances;
    SortAscends(samples);
    low, high := MiddleOfSorted(Sort(AtMost, samples));
    SortMeasures(samples, 0, low);
    SortMeasures(samples, 0, low - 1);
    SortMeasures(samples, 0, high);
    SortMeasures(samples, 0, high - 1);
  }

  /** MAD is that of the distances of the samples from the median. */
  lemma MadExactly(samples: seq<uint32>) returns (low: uint32, high: uint32)
    requires samples != []
    ensures
      var distances := Deviations(samples, Median(samples));
      IsRanked(distances, low, (|samples| + 1) / 2) && IsRanked(distances, high, |samples| / 2 + 1)
    ensures Mad(samples) == (low + high) / 2
  {
    hide Sort, CountAtMost, MedianOfSorted, Ascending, CountWithin, SumOfDistances, Median, Deviations;
    var m := Median(samples);
    low, high := MedianExactly(Deviations(Sort(AtMost, samples), m));
    SameDistances(samples, m, low);
    SameDistances(samples, m, low - 1);
    SameDistances(samples, m, high);
    SameDistances(samples, m, high - 1);
    MadOf(samples);
    MedianIs(Deviations(Sort(AtMost, samples), m));
  }

  lemma MedianIs(s: seq<uint32>)
    ensures Median(s) == MedianOfSorted(Sort(AtMost, s))
  {
  }

  lemma SameDistances(samples: seq<uint32>, c: uint32, r: int)
    ensures CountAtMost(Deviations(Sort(AtMost, samples), c), r) == CountAtMost(Deviations(samples, c), r)
  {
    hide Sort, CountAtMost, CountWithin, SumOfDistances, Deviations;
    WithinIsDeviation(samples, c, r);
    WithinIsDeviation(Sort(AtMost, samples), c, r);
    SortMeasures(samples, c, r);
  }

  /** No samples give three zeros; others give median, p95 and MAD, unless the rank lies outside. */
  lemma ResultsAre(samples: seq<uint32>)
    ensures samples == [] ==> Calculate(samples) == Some(Statistics(0, 0, 0))
    ensures samples != [] && Calculate(samples).Some? ==>
              Calculate(samples).value.median == Median(samples) && Calculate(samples).value.mad == Mad(samples)
  {
    hide Sort, Median, Mad;
  }
}
