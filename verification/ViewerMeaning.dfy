/** What the viewer draws, in numbers: each bucket, column and bin by the products it lies between. */
module ViewerMeaning {
  import opened Text
  import opened Viewer

  /** `q` is the whole part of `a` over `d`. */
  predicate IsWhole(q: int, a: int, d: int) {
    q * d <= a < (q + 1) * d
  }

  function Smaller(a: nat, b: nat): nat {
    if a <= b then a else b
  }

  // ----- the columns of the trace -----

  function Tally(s: seq<uint32>): nat {
    if s == [] then 0 else s[0] + Tally(s[1..])
  }

  lemma {:induction false} TallyLast(s: seq<uint32>, x: uint32)
    ensures Tally(s + [x]) == Tally(s) + x
  {
    var all := s + [x];
    if s == [] {
      assert all[1..] == [];
    } else {
      assert all[1..] == s[1..] + [x];
      TallyLast(s[1..], x);
    }
  }

  lemma {:induction false} SumIsTally(s: seq<uint32>)
    ensures Sum(s) == Tally(s)
    decreases |s|
  {
    if s != [] {
      var front, last := s[..|s| - 1], s[|s| - 1];
      SumIsTally(front);
      TallyLast(front, last);
      assert s == front + [last];
    }
  }

  /** The value is one of the list and no other is smaller. */
  ghost predicate IsLowest(v: uint32, s: seq<uint32>) {
    v in s && forall x :: x in s ==> v <= x
  }

  ghost predicate IsHighest(v: uint32, s: seq<uint32>) {
    v in s && forall x :: x in s ==> x <= v
  }

  lemma ExtremesAre(s: seq<uint32>)
    requires s != []
    ensures IsLowest(Least(s), s) && IsHighest(Greatest(s), s)
  {
    LeastIsLeast(s);
    GreatestIsGreatest(s);
  }

  /** The value stands as many of 159 rows above row 364 as its share of the span; without a span in the middle. */
  predicate DrawnAt(y: int, v: uint32, minimum: uint32, maximum: uint32) {
    if minimum == maximum then y == 285 else IsWhole(364 - y, (v - minimum) * 159, maximum - minimum)
  }

  lemma HeightIs(v: uint32, minimum: uint32, maximum: uint32)
    requires minimum <= v <= maximum
    ensures DrawnAt(ScaleGraphY(v, minimum, maximum), v, minimum, maximum)
  {
    if minimum < maximum {
      var a, d := (v - minimum) * 159, maximum - minimum;
      DivBounds(a, d);
      assert Max(minimum, Min(maximum, v)) == v;
      assert 364 - ScaleGraphY(v, minimum, maximum) == a / d;
    }
  }

  lemma BucketIs(n: nat, bucket: nat)
    requires n > 0 && bucket < BucketCount(n)
    ensures BucketCount(n) == Smaller(510, n)
    ensures IsWhole(BucketStart(n, bucket), bucket * n, Smaller(510, n))
    ensures IsWhole(BucketEnd(n, bucket), (bucket + 1) * n, Smaller(510, n))
  {
    var k := Smaller(510, n);
    BucketsTile(n, bucket);
    DivBounds(bucket * n, k);
    DivBounds((bucket + 1) * n, k);
    if bucket + 1 == k {
      DivUnique((bucket + 1) * n, k, n) by {
        assert k * n == n * k && (n + 1) * k == n * k + k;
      }
    }
  }

  /**
   * One column of `n` samples in `k` columns, at most 510: its samples, its place, their least,
   * greatest and mean, and the three heights on the plot.
   */
  lemma ColumnInWords(samples: seq<uint32>, bucket: nat)
    requires samples != [] && bucket < BucketCount(|samples|)
    ensures
      var n, c := |samples|, ColumnOf(samples, bucket);
      var k := Smaller(510, n);
      IsWhole(c.start, bucket * n, k) && IsWhole(c.end, (bucket + 1) * n, k) && c.start < c.end <= n &&
      IsLowest(c.low, samples[c.start..c.end]) && IsHighest(c.high, samples[c.start..c.end]) &&
      IsWhole(c.mean, Tally(samples[c.start..c.end]), c.end - c.start) && IsWhole(c.x - 90, bucket * 510, k)
    ensures HeightsDrawn(samples, ColumnOf(samples, bucket))
  {
    hide FillColumn, Least, Greatest, Sum, Tally, ScaleGraphY, BucketStart, BucketEnd, IsLowest, IsHighest;
    var n := |samples|;
    BucketsTile(n, bucket);
    BucketIs(n, bucket);
    var start, end := BucketStart(n, bucket), BucketEnd(n, bucket);
    var part := samples[start..end];
    MeanFits(part);
    ExtremesAre(part);
    SumIsTally(part);
    DivBounds(Sum(part), |part|);
    DivBounds(bucket * 510, BucketCount(n));
    Filled(bucket, BucketCount(n), start, end, Least(part), Greatest(part), Sum(part) / |part|, Least(samples), Greatest(samples));
    PartInside(samples, part, start, end);
    HeightIs(Least(part), Least(samples), Greatest(samples));
    HeightIs(Greatest(part), Least(samples), Greatest(samples));
    HeightIs(Sum(part) / |part|, Least(samples), Greatest(samples));
    ExtremesAre(samples);
  }

  /** The bar reaches from the height of the greatest sample to that of the least, at least two rows; the mark is at the mean. */
  ghost predicate HeightsDrawn(samples: seq<uint32>, c: Column) {
    exists minimum: uint32, maximum: uint32, bottom: int ::
      IsLowest(minimum, samples) && IsHighest(maximum, samples) && DrawnAt(c.top, c.high, minimum, maximum) &&
      DrawnAt(bottom, c.low, minimum, maximum) && DrawnAt(c.meanY, c.mean, minimum, maximum) &&
      c.height == if bottom - c.top + 1 < 2 then 2 else bottom - c.top + 1
  }

  lemma Filled(bucket: nat, count: nat, start: nat, end: nat, low: uint32, high: uint32, mean: uint32,
               minimum: uint32, maximum: uint32)
    requires count > 0
    ensures
      var c := FillColumn(bucket, count, start, end, low, high, mean, minimum, maximum);
      c.start == start && c.end == end && c.low == low && c.high == high && c.mean == mean &&
      c.x - 90 == bucket * 510 / count && c.top == ScaleGraphY(high, minimum, maximum) &&
      c.meanY == ScaleGraphY(mean, minimum, maximum) &&
      var rows: int := ScaleGraphY(low, minimum, maximum) - c.top + 1;
      c.height == if rows < 2 then 2 else rows
  {
    hide ScaleGraphY;
  }

  lemma PartInside(samples: seq<uint32>, part: seq<uint32>, start: nat, end: nat)
    requires start < end <= |samples| && part == samples[start..end]
    ensures Least(samples) <= Least(part) && Greatest(part) <= Greatest(samples)
  {
    hide Least, Greatest;
    LeastIsLeast(part);
    GreatestIsGreatest(part);
    LeastIsLeast(samples);
    GreatestIsGreatest(samples);
  }

  // ----- the bins of the histogram -----

  /** A sample's bin, of at most 63, is the whole part of its share of the span. */
  lemma BinInWords(sample: nat, minimum: nat, maximum: nat, n: nat)
    requires minimum <= sample <= maximum && n > 0
    ensures BinCount(n) == Smaller(63, n)
    ensures IsWhole(BinOf(sample, minimum, maximum, BinCount(n)), (sample - minimum) * Smaller(63, n), maximum - minimum + 1)
  {
    ClampIsIdle(sample, minimum, maximum, BinCount(n));
    DivBounds((sample - minimum) * BinCount(n), maximum - minimum + 1);
  }

  /** `q` is the whole part of the share that the first `bin` of `bins` bins have of the span. */
  predicate IsShare(q: int, span: int, bin: nat, bins: nat) {
    IsWhole(q, span * bin, bins)
  }

  /** What is displayed for a bin: from the value its share starts at to the one before the next bin's. */
  lemma DisplayInWords(bin: nat, minimum: nat, maximum: nat, bins: nat) returns (next: nat)
    requires minimum <= maximum && bin < bins
    ensures IsShare(DisplayedMinimum(bin, minimum, maximum, bins) - minimum, maximum - minimum + 1, bin, bins)
    ensures IsShare(next - minimum, maximum - minimum + 1, bin + 1, bins)
    ensures
      var first := DisplayedMinimum(bin, minimum, maximum, bins);
      DisplayedMaximum(bin, minimum, maximum, bins) == Smaller(maximum, if next > first then next - 1 else first)
  {
    hide IsShare, DisplayedMinimum, DisplayedMaximum;
    var a, b := Shares(bin, minimum, maximum, bins);
    next := minimum + b;
    NextIs(minimum, maximum, a, b);
  }

  lemma Shares(bin: nat, minimum: nat, maximum: nat, bins: nat) returns (a: nat, b: nat)
    requires minimum <= maximum && bins > 0
    ensures IsShare(a, maximum - minimum + 1, bin, bins) && IsShare(b, maximum - minimum + 1, bin + 1, bins)
    ensures DisplayedMinimum(bin, minimum, maximum, bins) == minimum + a
    ensures DisplayedMaximum(bin, minimum, maximum, bins) == Min(maximum, minimum + Max(a + 1, b) - 1)
  {
    hide IsWhole, Min, Max;
    var span: nat := maximum - minimum + 1;
    a, b := span * bin / bins, span * (bin + 1) / bins;
    WholeOf(span * bin, bins);
    WholeOf(span * (bin + 1), bins);
  }

  lemma NextIs(minimum: nat, maximum: nat, a: nat, b: nat)
    ensures Min(maximum, minimum + Max(a + 1, b) - 1) ==
            Smaller(maximum, if minimum + b > minimum + a then minimum + b - 1 else minimum + a)
  {
  }

  lemma WholeOf(a: nat, d: nat)
    requires d > 0
    ensures IsWhole(a / d, a, d)
  {
    DivBounds(a, d);
  }
}
