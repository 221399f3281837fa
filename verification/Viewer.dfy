/** The result viewer's graph arithmetic: trace buckets, logical sample ranges and histogram bins. */
module Viewer {
  import opened Text
  import S = Sampler

  const PLOT_LEFT: uint32 := 90
  const PLOT_TOP: uint32 := 205
  const PLOT_WIDTH: uint32 := 510
  const PLOT_HEIGHT: uint32 := 160
  const MINIMUM_BAR_WIDTH: uint32 := 8

  function Min(a: nat, b: nat): nat {
    if a < b then a else b
  }

  function Max(a: nat, b: nat): nat {
    if a < b then b else a
  }

  // ----- division -----

  lemma DivMonotone(a: nat, b: nat, d: nat)
    requires d > 0 && a <= b
    ensures a / d <= b / d
  {
    S.MulGrows(1, 1, d);
    if a / d > b / d {
      S.MulGrows(b / d + 1, a / d, d);
    }
  }

  lemma DivBounds(a: nat, d: nat)
    requires d > 0
    ensures a / d * d <= a < (a / d + 1) * d
  {
  }

  lemma DivUnique(a: nat, d: nat, q: nat)
    requires d > 0 && q * d <= a < (q + 1) * d
    ensures a / d == q
  {
    DivBounds(a, d);
    if a / d < q {
      S.MulGrows(a / d + 1, q, d);
    }
    if q < a / d {
      S.MulGrows(q + 1, a / d, d);
    }
  }

  lemma DivBelow(a: nat, d: nat, q: nat)
    requires d > 0 && a < q * d
    ensures a / d < q
  {
    DivBounds(a, d);
    if a / d >= q {
      S.MulGrows(q, a / d, d);
    }
  }

  lemma DivAtLeast(a: nat, d: nat, q: nat)
    requires d > 0 && q * d <= a
    ensures q <= a / d
  {
    DivBounds(a, d);
    if a / d < q {
      S.MulGrows(a / d + 1, q, d);
    }
  }

  // ----- the vertical axis -----

  function ScaleGraphY(value: uint32, minimum: uint32, maximum: uint32): nat {
    if maximum <= minimum then PLOT_TOP + PLOT_HEIGHT / 2
    else
      var clamped := Max(minimum, Min(maximum, value));
      PLOT_TOP + PLOT_HEIGHT - 1 - (clamped - minimum) * (PLOT_HEIGHT - 1) / (maximum - minimum)
  }

  /** Plotted heights stay inside the plot and never reverse the order of two values. */
  lemma ScaleIsMonotone(a: uint32, b: uint32, minimum: uint32, maximum: uint32)
    requires a <= b
    ensures PLOT_TOP <= ScaleGraphY(b, minimum, maximum) <= ScaleGraphY(a, minimum, maximum)
    ensures ScaleGraphY(a, minimum, maximum) <= PLOT_TOP + PLOT_HEIGHT - 1
  {
    if minimum < maximum {
      var x: nat, y: nat := Max(minimum, Min(maximum, a)) - minimum, Max(minimum, Min(maximum, b)) - minimum;
      var span: nat := maximum - minimum;
      ScaledOffset(x, y, span);
      assert ScaleGraphY(a, minimum, maximum) == 364 - x * 159 / span;
      assert ScaleGraphY(b, minimum, maximum) == 364 - y * 159 / span;
    }
  }

  lemma ScaledOffset(x: nat, y: nat, span: nat)
    requires x <= y <= span && span > 0
    ensures x * 159 / span <= y * 159 / span <= 159
  {
    DivMonotone(x * 159, y * 159, span);
    DivMonotone(y * 159, span * 159, span);
    DivUnique(span * 159, span, 159);
  }

  // ----- trace buckets -----

  function BucketCount(n: nat): nat {
    Min(PLOT_WIDTH, n)
  }

  function BucketStart(n: nat, bucket: nat): nat
    requires n > 0
  {
    bucket * n / BucketCount(n)
  }

  function BucketEnd(n: nat, bucket: nat): nat
    requires n > 0
  {
    Max(BucketStart(n, bucket) + 1, (bucket + 1) * n / BucketCount(n))
  }

  /** The buckets tile the samples: non-empty, each starting where the last ended, from 0 to n. */
  lemma BucketsTile(n: nat, bucket: nat)
    requires n > 0 && bucket < BucketCount(n)
    ensures BucketStart(n, 0) == 0
    ensures BucketStart(n, bucket) < BucketEnd(n, bucket) <= n
    ensures bucket + 1 < BucketCount(n) ==> BucketEnd(n, bucket) == BucketStart(n, bucket + 1)
    ensures bucket + 1 == BucketCount(n) ==> BucketEnd(n, bucket) == n
  {
    var c := BucketCount(n);
    var q := BucketStart(n, bucket);
    assert (bucket + 1) * n == bucket * n + n;
    DivBounds(bucket * n, c);
    assert (q + 1) * c == q * c + c;
    DivAtLeast((bucket + 1) * n, c, q + 1);
    S.MulGrows(bucket + 1, c, n);
    DivMonotone((bucket + 1) * n, c * n, c);
    assert c * n == n * c;
    assert (n + 1) * c == n * c + c;
    DivUnique(c * n, c, n);
    assert 0 * n == 0;
    DivUnique(0, c, 0);
  }

  /** The bucket bounds as 32-bit sizes compute them. */
  function WrappedStart(n: nat, bucket: nat): nat
    requires n > 0
  {
    bucket * n % TWO_32 / BucketCount(n)
  }

  /** The products of all bucket bounds fit exactly while that of the last one does. */
  lemma BucketsFitExactly(n: nat)
    requires n > 0
    ensures (forall bucket: nat :: bucket <= BucketCount(n) ==> WrappedStart(n, bucket) == BucketStart(n, bucket)) <==>
            BucketCount(n) * n < TWO_32
  {
    var c := BucketCount(n);
    if c * n < TWO_32 {
      forall bucket: nat | bucket <= c ensures WrappedStart(n, bucket) == BucketStart(n, bucket) {
        S.MulGrows(bucket, c, n);
        SmallModulo(bucket * n);
      }
    } else {
      WrapIsBelow(c * n);
      assert c * n == n * c;
      DivBelow(c * n % TWO_32, c, n);
      DivAtLeast(c * n, c, n);
      assert WrappedStart(n, c) < BucketStart(n, c);
    }
  }

  lemma SmallModulo(a: nat)
    requires a < TWO_32
    ensures a % TWO_32 == a
  {
  }

  lemma WrapIsBelow(a: nat)
    requires a >= TWO_32
    ensures a % TWO_32 < a
  {
  }

  /** Every sample list the reader's budget allows is that small. */
  lemma BudgetFits(n: nat)
    requires 0 < n <= 131072
    ensures BucketCount(n) * n < TWO_32
  {
    S.MulGrows(BucketCount(n), 510, n);
  }

  /** What is filled for one bucket: the bar from its highest to its lowest sample, and its mean. */
  datatype Column = Column(x: nat, start: nat, end: nat, low: uint32, high: uint32, mean: uint32,
                           top: nat, height: int, meanY: nat)

  function Least(s: seq<uint32>): uint32
    requires s != []
  {
    if |s| == 1 then s[0] else Min(Least(s[..|s| - 1]), s[|s| - 1])
  }

  function Greatest(s: seq<uint32>): uint32
    requires s != []
  {
    if |s| == 1 then s[0] else Max(Greatest(s[..|s| - 1]), s[|s| - 1])
  }

  function Sum(s: seq<uint32>): nat {
    if s == [] then 0 else Sum(s[..|s| - 1]) + s[|s| - 1]
  }

  function FillColumn(bucket: nat, bucketCount: nat, start: nat, end: nat, low: uint32, high: uint32, mean: uint32,
                      minimum: uint32, maximum: uint32): Column
    requires bucketCount > 0
  {
    var top := ScaleGraphY(high, minimum, maximum);
    var bottom := ScaleGraphY(low, minimum, maximum);
    var span: int := bottom - top + 1;
    Column(PLOT_LEFT + bucket * PLOT_WIDTH / bucketCount, start, end, low, high, mean,
           top, if span < 2 then 2 else span, ScaleGraphY(mean, minimum, maximum))
  }

  function ColumnOf(samples: seq<uint32>, bucket: nat): Column
    requires samples != [] && bucket < BucketCount(|samples|)
  {
    BucketsTile(|samples|, bucket);
    var n := |samples|;
    var part := samples[BucketStart(n, bucket)..BucketEnd(n, bucket)];
    MeanFits(part);
    FillColumn(bucket, BucketCount(n), BucketStart(n, bucket), BucketEnd(n, bucket), Least(part), Greatest(part),
               Sum(part) / |part|, Least(samples), Greatest(samples))
  }

  lemma {:induction false} LeastIsLeast(s: seq<uint32>)
    requires s != []
    ensures Least(s) in s && forall i :: 0 <= i < |s| ==> Least(s) <= s[i]
  {
    if |s| > 1 {
      LeastIsLeast(s[..|s| - 1]);
    }
  }

  lemma {:induction false} GreatestIsGreatest(s: seq<uint32>)
    requires s != []
    ensures Greatest(s) in s && forall i :: 0 <= i < |s| ==> s[i] <= Greatest(s)
  {
    if |s| > 1 {
      GreatestIsGreatest(s[..|s| - 1]);
    }
  }

  lemma {:induction false} SumBounds(s: seq<uint32>)
    requires s != []
    ensures |s| * Least(s) <= Sum(s) <= |s| * Greatest(s)
  {
    var n := |s| - 1;
    if n > 0 {
      SumBounds(s[..n]);
      LowerStep(n, Least(s[..n]), Least(s), Sum(s[..n]), s[n]);
      UpperStep(n, Greatest(s[..n]), Greatest(s), Sum(s[..n]), s[n]);
    } else {
      assert s[..n] == [];
    }
  }

  lemma LowerStep(n: nat, before: nat, after: nat, sum: nat, x: nat)
    requires n * before <= sum && after <= before && after <= x
    ensures (n + 1) * after <= sum + x
  {
    MulRight(n, after, before);
  }

  lemma UpperStep(n: nat, before: nat, after: nat, sum: nat, x: nat)
    requires sum <= n * before && before <= after && x <= after
    ensures sum + x <= (n + 1) * after
  {
    MulRight(n, before, after);
  }

  lemma MulRight(k: nat, a: nat, b: nat)
    requires a <= b
    ensures k * a <= k * b
  {
  }

  /** The mean of a bucket lies between its extremes. */
  lemma MeanFits(s: seq<uint32>)
    requires s != []
    ensures Least(s) <= Sum(s) / |s| <= Greatest(s)
  {
    SumBounds(s);
    DivAtLeast(Sum(s), |s|, Least(s));
    DivMonotone(Sum(s), |s| * Greatest(s), |s|);
    assert |s| * Greatest(s) == Greatest(s) * |s|;
    assert (Greatest(s) + 1) * |s| == Greatest(s) * |s| + |s|;
    DivUnique(Greatest(s) * |s|, |s|, Greatest(s));
  }

  method DrawTrace(samples: seq<uint32>) returns (columns: seq<Column>)
    ensures samples == [] ==> columns == []
    ensures samples != [] ==> |columns| == BucketCount(|samples|)
    ensures forall b :: 0 <= b < |columns| ==> columns[b] == ColumnOf(samples, b)
  {
    hide FillColumn, Least, Greatest, Sum;
    columns := [];
    if samples == [] {
      return;
    }
    var bucketCount := BucketCount(|samples|);
    var minimum, maximum := Least(samples), Greatest(samples);
    for bucket := 0 to bucketCount
      invariant |columns| == bucket
      invariant forall b :: 0 <= b < bucket ==> columns[b] == ColumnOf(samples, b)
    {
      BucketsTile(|samples|, bucket);
      var start := bucket * |samples| / bucketCount;
      var end := Max(start + 1, (bucket + 1) * |samples| / bucketCount);
      var low, high, mean := Envelope(samples[start..end]);
      columns := columns + [FillColumn(bucket, bucketCount, start, end, low, high, mean, minimum, maximum)];
    }
  }

  const PLOT_END := PLOT_TOP + PLOT_HEIGHT

  /** A value is drawn above the bottom row exactly when it is a 159th of the span above the minimum. */
  lemma BottomRowExactly(value: uint32, minimum: uint32, maximum: uint32)
    requires minimum <= value <= maximum
    ensures ScaleGraphY(value, minimum, maximum) <= PLOT_END - 1
    ensures ScaleGraphY(value, minimum, maximum) + 2 <= PLOT_END <==>
            minimum == maximum || maximum - minimum <= (value - minimum) * (PLOT_HEIGHT - 1)
  {
    ScaleIsMonotone(value, value, minimum, maximum);
    if minimum < maximum {
      var offset: nat, span: nat := value - minimum, maximum - minimum;
      assert ScaleGraphY(value, minimum, maximum) == 364 - offset * 159 / span;
      if span <= offset * 159 {
        DivAtLeast(offset * 159, span, 1);
      } else {
        DivBelow(offset * 159, span, 1);
      }
    }
  }

  /** Where the fills of a column end, for a minimum and a maximum of all samples. */
  ghost predicate EndsRight(column: Column, minimum: uint32, maximum: uint32)
    requires minimum <= column.mean <= column.high <= maximum
  {
    PLOT_LEFT <= column.x < PLOT_LEFT + PLOT_WIDTH && PLOT_TOP <= column.top <= column.meanY &&
    column.top + column.height <= PLOT_END + 1 && column.meanY + 2 <= PLOT_END + 1 &&
    (column.top + column.height <= PLOT_END <==>
     minimum == maximum || maximum - minimum <= (column.high - minimum) * (PLOT_HEIGHT - 1)) &&
    (column.meanY + 2 <= PLOT_END <==>
     minimum == maximum || maximum - minimum <= (column.mean - minimum) * (PLOT_HEIGHT - 1))
  }

  lemma FillEnds(bucket: nat, count: nat, start: nat, end: nat, low: uint32, high: uint32, mean: uint32,
                 minimum: uint32, maximum: uint32)
    requires bucket < count && minimum <= low <= mean <= high <= maximum
    ensures
      var column := FillColumn(bucket, count, start, end, low, high, mean, minimum, maximum);
      column.low == low && column.high == high && column.mean == mean && EndsRight(column, minimum, maximum)
  {
    hide ScaleGraphY;
    ScaleIsMonotone(low, high, minimum, maximum);
    ScaleIsMonotone(mean, high, minimum, maximum);
    BottomRowExactly(low, minimum, maximum);
    BottomRowExactly(high, minimum, maximum);
    BottomRowExactly(mean, minimum, maximum);
    ColumnFits(bucket, count);
  }

  /**
   * A column stays within the plot's width and top and ends at most one row below it. Its bar
   * stays inside exactly when its highest sample is drawn above the bottom row, and the mark
   * of its mean exactly when its mean is.
   */
  lemma ColumnInsideExactly(samples: seq<uint32>, b: nat)
    requires samples != [] && b < BucketCount(|samples|)
    ensures
      var column := ColumnOf(samples, b);
      Least(samples) <= column.mean <= column.high <= Greatest(samples) &&
      EndsRight(column, Least(samples), Greatest(samples))
  {
    hide Least, Greatest, Sum, BucketStart, BucketEnd, BucketCount, FillColumn, EndsRight;
    var n := |samples|;
    BucketsTile(n, b);
    var start, end := BucketStart(n, b), BucketEnd(n, b);
    var part := samples[start..end];
    MeanFits(part);
    PartWithin(samples, start, end);
    FillEnds(b, BucketCount(n), start, end, Least(part), Greatest(part), Sum(part) / |part|,
             Least(samples), Greatest(samples));
  }

  lemma PartWithin(samples: seq<uint32>, start: nat, end: nat)
    requires start < end <= |samples|
    ensures Least(samples) <= Least(samples[start..end]) <= Greatest(samples[start..end]) <= Greatest(samples)
  {
    hide Least, Greatest;
    var part := samples[start..end];
    LeastIsLeast(samples);
    GreatestIsGreatest(samples);
    LeastIsLeast(part);
    GreatestIsGreatest(part);
    var i :| 0 <= i < |part| && part[i] == Least(part);
    var j :| 0 <= j < |part| && part[j] == Greatest(part);
    assert samples[start + i] == part[i] && samples[start + j] == part[j];
  }

  lemma ColumnFits(bucket: nat, count: nat)
    requires bucket < count
    ensures bucket * PLOT_WIDTH / count < PLOT_WIDTH
  {
    DivBelow(bucket * PLOT_WIDTH, count, PLOT_WIDTH);
  }

  /** Of two samples 0 and 160 the first is drawn on the bottom row and its bar ends below the plot. */
  lemma ColumnSticksOut()
    ensures var column := ColumnOf([0, 160], 0); column.top + column.height == PLOT_END + 1
  {
    hide ScaleGraphY;
    var samples: seq<uint32> := [0, 160];
    LeastIsLeast(samples);
    GreatestIsGreatest(samples);
    assert BucketStart(2, 0) == 0 && BucketEnd(2, 0) == 1 && samples[0..1] == [0];
    assert ColumnOf(samples, 0).high == 0;
    ColumnInsideExactly(samples, 0);
  }

  /** One bucket's pass over its samples. */
  method Envelope(part: seq<uint32>) returns (low: uint32, high: uint32, mean: uint32)
    requires part != []
    ensures low == Least(part) && high == Greatest(part) && mean == Sum(part) / |part|
  {
    low, high := 0xFFFF_FFFF, 0;
    var sum: nat := 0;
    for i := 0 to |part|
      invariant i == 0 ==> low == 0xFFFF_FFFF && high == 0
      invariant i > 0 ==> low == Least(part[..i]) && high == Greatest(part[..i])
      invariant sum == Sum(part[..i])
    {
      assert part[..i + 1][..i] == part[..i];
      low := Min(low, part[i]);
      high := Max(high, part[i]);
      sum := sum + part[i];
    }
    assert part[..|part|] == part;
    MeanFits(part);
    mean := sum / |part|;
  }

  // ----- what the trace shows -----

  /** The envelopes of all buckets together have exactly the global extremes. */
  lemma EnvelopesCoverExtremes(samples: seq<uint32>)
    requires samples != []
    ensures
      var c := BucketCount(|samples|);
      (forall b :: 0 <= b < c ==>
        Least(samples) <= ColumnOf(samples, b).low <= ColumnOf(samples, b).high <= Greatest(samples)) &&
      (exists b :: 0 <= b < c && ColumnOf(samples, b).low == Least(samples)) &&
      (exists b :: 0 <= b < c && ColumnOf(samples, b).high == Greatest(samples))
  {
    hide FillColumn, Least, Greatest, Sum, BucketStart, BucketEnd, BucketCount;
    var n := |samples|;
    LeastIsLeast(samples);
    GreatestIsGreatest(samples);
    forall b | 0 <= b < BucketCount(n)
      ensures Least(samples) <= ColumnOf(samples, b).low <= ColumnOf(samples, b).high <= Greatest(samples)
    {
      ColumnEnvelope(samples, b);
    }
    var i :| 0 <= i < n && samples[i] == Least(samples);
    var b := BucketOf(n, i);
    ColumnEnvelope(samples, b);
    assert ColumnOf(samples, b).low == Least(samples);
    var j :| 0 <= j < n && samples[j] == Greatest(samples);
    var d := BucketOf(n, j);
    ColumnEnvelope(samples, d);
    assert ColumnOf(samples, d).high == Greatest(samples);
  }

  lemma ColumnEnvelope(samples: seq<uint32>, b: nat)
    requires samples != [] && b < BucketCount(|samples|)
    ensures
      var n, column := |samples|, ColumnOf(samples, b);
      (exists k :: BucketStart(n, b) <= k < BucketEnd(n, b) <= n && samples[k] == column.low) &&
      (exists k :: BucketStart(n, b) <= k < BucketEnd(n, b) <= n && samples[k] == column.high) &&
      column.low <= column.high &&
      forall k :: BucketStart(n, b) <= k < BucketEnd(n, b) <= n ==> column.low <= samples[k] <= column.high
  {
    hide Least, Greatest, Sum, BucketStart, BucketEnd, BucketCount, ScaleGraphY;
    var n := |samples|;
    BucketsTile(n, b);
    var start := BucketStart(n, b);
    var part := samples[start..BucketEnd(n, b)];
    LeastIsLeast(part);
    GreatestIsGreatest(part);
    var k :| 0 <= k < |part| && part[k] == Least(part);
    assert samples[start + k] == Least(part);
    var m :| 0 <= m < |part| && part[m] == Greatest(part);
    assert samples[start + m] == Greatest(part);
    assert part[0] == part[0];
    forall i | start <= i < BucketEnd(n, b) ensures Least(part) <= samples[i] <= Greatest(part) {
      assert samples[i] == part[i - start];
    }
  }

  /** The bucket a sample falls in. */
  lemma BucketOf(n: nat, i: nat) returns (b: nat)
    requires i < n
    ensures b < BucketCount(n) && BucketStart(n, b) <= i < BucketEnd(n, b)
  {
    hide BucketStart, BucketEnd;
    b := 0;
    BucketsTile(n, 0);
    while i >= BucketEnd(n, b)
      invariant b < BucketCount(n) && BucketStart(n, b) <= i
      decreases BucketCount(n) - b
    {
      BucketsTile(n, b);
      b := b + 1;
    }
  }

  // ----- logical sample ranges -----

  /** The first logical sample of the selected bucket. */
  function LogicalStart(n: nat, bucket: nat, stride: uint32): nat
    requires n > 0
  {
    BucketStart(n, bucket) * stride % TWO_32
  }

  /** The last logical sample of the selected bucket, in the source's 32-bit arithmetic. */
  function LogicalEnd(n: nat, bucket: nat, stride: uint32, total: uint32): nat
    requires n > 0
  {
    Min(if total > 0 then total - 1 else LogicalStart(n, bucket, stride),
        (BucketEnd(n, bucket) * stride + TWO_32 - 1) % TWO_32)
  }

  /** The displayed ranges are non-empty, adjacent, and cover [0, total). */
  ghost predicate RangesTile(n: nat, stride: uint32, total: uint32)
    requires n > 0
  {
    LogicalStart(n, 0, stride) == 0 &&
    (forall b :: 0 <= b < BucketCount(n) ==> LogicalStart(n, b, stride) <= LogicalEnd(n, b, stride, total) < total) &&
    (forall b :: 0 <= b < BucketCount(n) - 1 ==>
      LogicalEnd(n, b, stride, total) + 1 == LogicalStart(n, b + 1, stride)) &&
    LogicalEnd(n, BucketCount(n) - 1, stride, total) + 1 == total
  }

  lemma RangeBounds(n: nat, b: nat, stride: uint32)
    requires n > 0 && b < BucketCount(n) && stride > 0 && n * stride <= TWO_32
    ensures BucketStart(n, b) * stride < BucketEnd(n, b) * stride <= n * stride
    ensures LogicalStart(n, b, stride) == BucketStart(n, b) * stride
    ensures (BucketEnd(n, b) * stride + TWO_32 - 1) % TWO_32 == BucketEnd(n, b) * stride - 1
  {
    hide BucketStart, BucketEnd, BucketCount;
    BucketsTile(n, b);
    S.MulGrows(BucketStart(n, b) + 1, BucketEnd(n, b), stride);
    S.MulGrows(BucketEnd(n, b), n, stride);
  }

  lemma StartsGrow(n: nat, a: nat, b: nat)
    requires n > 0 && a <= b
    ensures BucketStart(n, a) <= BucketStart(n, b)
  {
    S.MulGrows(a, b, n);
    DivMonotone(a * n, b * n, BucketCount(n));
  }

  lemma CountPositive(n: nat)
    requires n > 0
    ensures 0 < BucketCount(n) <= n
  {
  }

  lemma RangeOf(n: nat, b: nat, stride: uint32, total: uint32)
    requires n > 0 && stride > 0 && n * stride <= TWO_32 && b < BucketCount(n)
    requires BucketStart(n, BucketCount(n) - 1) * stride < total <= n * stride
    ensures LogicalStart(n, b, stride) <= LogicalEnd(n, b, stride, total) < total
    ensures b < BucketCount(n) - 1 ==> LogicalEnd(n, b, stride, total) + 1 == LogicalStart(n, b + 1, stride)
    ensures b == BucketCount(n) - 1 ==> LogicalEnd(n, b, stride, total) + 1 == total
  {
    hide BucketStart, BucketEnd, BucketCount;
    BucketsTile(n, b);
    RangeBounds(n, b, stride);
    StartsGrow(n, b, BucketCount(n) - 1);
    S.MulGrows(BucketStart(n, b), BucketStart(n, BucketCount(n) - 1), stride);
    if b < BucketCount(n) - 1 {
      RangeBounds(n, b + 1, stride);
      BucketsTile(n, b + 1);
      StartsGrow(n, b + 1, BucketCount(n) - 1);
      S.MulGrows(BucketEnd(n, b), BucketStart(n, BucketCount(n) - 1), stride);
    }
  }

  /**
   * The displayed ranges tile the logical samples exactly when the last bucket starts
   * inside them and the retained samples reach their end.
   */
  lemma RangesTileExactly(n: nat, stride: uint32, total: uint32)
    requires n > 0 && stride > 0 && total > 0 && n * stride <= TWO_32
    ensures RangesTile(n, stride, total) <==>
            BucketStart(n, BucketCount(n) - 1) * stride < total <= n * stride
  {
    hide BucketStart, BucketEnd, BucketCount;
    CountPositive(n);
    var last := BucketCount(n) - 1;
    RangeBounds(n, last, stride);
    BucketsTile(n, last);
    if BucketStart(n, last) * stride < total <= n * stride {
      forall b | 0 <= b < BucketCount(n)
        ensures LogicalStart(n, b, stride) <= LogicalEnd(n, b, stride, total) < total
        ensures b < last ==> LogicalEnd(n, b, stride, total) + 1 == LogicalStart(n, b + 1, stride)
        ensures b == last ==> LogicalEnd(n, b, stride, total) + 1 == total
      {
        RangeOf(n, b, stride, total);
      }
      BucketsTile(n, 0);
      RangeBounds(n, 0, stride);
    }
  }

  /** One retained sample per stride, as the bounded reader keeps them, is enough. */
  lemma RangesTileWhenComplete(n: nat, stride: uint32, total: uint32)
    requires n > 0 && stride > 0 && total > 0 && n * stride <= TWO_32
    requires n == S.CeilDiv(total, stride)
    ensures RangesTile(n, stride, total)
  {
    hide BucketStart, BucketEnd, BucketCount, S.CeilDiv;
    S.CeilBounds(total, stride);
    CountPositive(n);
    var last := BucketCount(n) - 1;
    BucketsTile(n, last);
    S.MulGrows(BucketStart(n, last), n - 1, stride);
    assert (n - 1) * stride == n * stride - stride;
    RangesTileExactly(n, stride, total);
  }

  /** A count below 2^32, rounded up to a whole number of strides, does not pass 2^32. */
  lemma WholeStridesFit(n: nat, stride: nat)
    requires 0 < n < TWO_32 && 0 < stride < TWO_32 && S.PowerOfTwo(stride)
    ensures 0 < S.CeilDiv(n, stride) && S.CeilDiv(n, stride) * stride <= TWO_32
  {
    hide S.PowerOfTwo, S.CeilDiv;
    var q := S.CeilDiv(n, stride);
    S.CeilBounds(n, stride);
    S.TwoToThe32();
    var k := S.PowerDivides(stride, TWO_32);
    assert (k + 1) * stride == k * stride + stride;
    if q > k {
      S.MulGrows(k + 1, q, stride);
    } else {
      S.MulGrows(q, k, stride);
    }
  }

  /** What the bounded reader retains of a record tiles its logical samples while a 32-bit total can count them. */
  lemma TraceOfSampler(raw: seq<uint32>, limit: nat)
    requires limit >= 2 && 0 < |raw| < TWO_32 && S.StrideFits(|raw|, limit)
    ensures
      var s := S.AddAll(S.EMPTY, raw, limit);
      s.values != [] && s.stride > 0 && RangesTile(|s.values|, s.stride, s.total)
  {
    hide S.AddAll, S.PowerOfTwo, RangesTile, S.CeilDiv;
    S.SamplerRefines(raw, limit);
    var s := S.AddAll(S.EMPTY, raw, limit);
    S.StridedLength(s.values, raw, s.stride);
    WholeStridesFit(|raw|, s.stride);
    RangesTileWhenComplete(|s.values|, s.stride, s.total);
  }

  // ----- histogram -----

  function BinCount(n: nat): nat {
    Min(PLOT_WIDTH / MINIMUM_BAR_WIDTH, n)
  }

  /** The bin before the source's clamp. */
  function RawBin(sample: nat, minimum: nat, maximum: nat, bins: nat): nat
    requires minimum <= sample <= maximum
  {
    (sample - minimum) * bins / (maximum - minimum + 1)
  }

  function BinOf(sample: nat, minimum: nat, maximum: nat, bins: nat): nat
    requires minimum <= sample <= maximum && bins > 0
  {
    if maximum == minimum then 0 else Min(bins - 1, RawBin(sample, minimum, maximum, bins))
  }

  /** The clamp never acts: every raw bin index is below the bin count. */
  lemma ClampIsIdle(sample: nat, minimum: nat, maximum: nat, bins: nat)
    requires minimum <= sample <= maximum && bins > 0
    ensures BinOf(sample, minimum, maximum, bins) == RawBin(sample, minimum, maximum, bins) < bins
  {
    var span := maximum - minimum + 1;
    var d := sample - minimum;
    assert d * bins < bins * span by {
      S.MulGrows(d + 1, span, bins);
      assert (d + 1) * bins == d * bins + bins;
      assert span * bins == bins * span;
    }
    DivBelow(d * bins, span, bins);
    if maximum == minimum {
      assert d * bins == 0;
      DivUnique(0, span, 0);
    }
  }

  lemma BinsMonotone(a: nat, b: nat, minimum: nat, maximum: nat, bins: nat)
    requires minimum <= a <= b <= maximum && bins > 0
    ensures BinOf(a, minimum, maximum, bins) <= BinOf(b, minimum, maximum, bins)
  {
    S.MulGrows(a - minimum, b - minimum, bins);
    DivMonotone((a - minimum) * bins, (b - minimum) * bins, maximum - minimum + 1);
  }

  function DisplayedMinimum(bin: nat, minimum: nat, maximum: nat, bins: nat): nat
    requires minimum <= maximum && bins > 0
  {
    minimum + (maximum - minimum + 1) * bin / bins
  }

  function DisplayedMaximum(bin: nat, minimum: nat, maximum: nat, bins: nat): nat
    requires minimum <= maximum && bins > 0
  {
    var span := maximum - minimum + 1;
    Min(maximum, minimum + Max(span * bin / bins + 1, span * (bin + 1) / bins) - 1)
  }

  /** A sample lies in the range displayed for its bin, or one above it. */
  lemma SampleNearDisplayedBin(sample: nat, minimum: nat, maximum: nat, bins: nat)
    requires minimum <= sample <= maximum && bins > 0
    ensures
      var bin := BinOf(sample, minimum, maximum, bins);
      DisplayedMinimum(bin, minimum, maximum, bins) <= sample <= DisplayedMaximum(bin, minimum, maximum, bins) + 1
  {
    hide BinOf;
    var span, d := maximum - minimum + 1, sample - minimum;
    var bin := BinOf(sample, minimum, maximum, bins);
    ClampIsIdle(sample, minimum, maximum, bins);
    DivBounds(d * bins, span);
    assert span * bin <= d * bins < span * (bin + 1) by {
      assert bin * span == span * bin && (bin + 1) * span == span * (bin + 1);
    }
    DivMonotone(span * bin, d * bins, bins);
    DivUnique(d * bins, bins, d);
    assert d <= span * (bin + 1) / bins by {
      DivMonotone(d * bins, span * (bin + 1), bins);
    }
  }

  /** The sample lies in the range displayed for its bin. */
  predicate Displayed(sample: nat, minimum: nat, maximum: nat, bins: nat)
    requires minimum <= sample <= maximum && bins > 0
  {
    var bin := BinOf(sample, minimum, maximum, bins);
    DisplayedMinimum(bin, minimum, maximum, bins) <= sample <= DisplayedMaximum(bin, minimum, maximum, bins)
  }

  /** How far into its bin a sample lies, in units of one bin-th of a value. */
  function Phase(sample: nat, minimum: nat, maximum: nat, bins: nat): nat
    requires minimum <= sample <= maximum
  {
    (sample - minimum) * bins % (maximum - minimum + 1)
  }

  /** A sample lies in the displayed range exactly when it opens its bin or ends inside it. */
  lemma DisplayedExactly(sample: nat, minimum: nat, maximum: nat, bins: nat)
    requires minimum <= sample <= maximum && bins > 0
    ensures
      var phase := Phase(sample, minimum, maximum, bins);
      Displayed(sample, minimum, maximum, bins) <==> phase == 0 || phase + bins <= maximum - minimum + 1
  {
    hide BinOf, Displayed, Phase;
    var bin := BinOf(sample, minimum, maximum, bins);
    DisplayedBy(sample, minimum, maximum, bins);
    PhaseIs(sample, minimum, maximum, bins);
    PhaseDecides(sample - minimum, maximum - minimum + 1, bins, bin, Phase(sample, minimum, maximum, bins));
  }

  lemma DisplayedBy(sample: nat, minimum: nat, maximum: nat, bins: nat)
    requires minimum <= sample <= maximum && bins > 0
    ensures
      var span, d, bin := maximum - minimum + 1, sample - minimum, BinOf(sample, minimum, maximum, bins);
      Displayed(sample, minimum, maximum, bins) <==> d <= span * bin / bins || d + 1 <= span * (bin + 1) / bins
  {
    hide BinOf;
    SampleNearDisplayedBin(sample, minimum, maximum, bins);
  }

  lemma PhaseIs(sample: nat, minimum: nat, maximum: nat, bins: nat)
    requires minimum <= sample <= maximum && bins > 0
    ensures
      var span, d, bin := maximum - minimum + 1, sample - minimum, BinOf(sample, minimum, maximum, bins);
      Phase(sample, minimum, maximum, bins) < span &&
      d * bins == span * bin + Phase(sample, minimum, maximum, bins)
  {
    hide BinOf;
    ClampIsIdle(sample, minimum, maximum, bins);
    var span, d := maximum - minimum + 1, sample - minimum;
    assert d * bins == d * bins / span * span + d * bins % span;
  }

  lemma PhaseDecides(d: nat, span: nat, bins: nat, bin: nat, r: nat)
    requires bins > 0 && r < span && d * bins == span * bin + r
    ensures d <= span * bin / bins <==> r == 0
    ensures d + 1 <= span * (bin + 1) / bins <==> r + bins <= span
  {
    AtMostDiv(span * bin, bins, d);
    assert (d + 1) * bins == d * bins + bins && span * (bin + 1) == span * bin + span;
    AtMostDiv(span * (bin + 1), bins, d + 1);
  }

  lemma AtMostDiv(a: nat, d: nat, q: nat)
    requires d > 0
    ensures q <= a / d <==> q * d <= a
  {
    if q * d <= a {
      DivAtLeast(a, d, q);
    } else {
      DivBelow(a, d, q);
    }
  }

  /** The whole histogram is displayed right exactly when the bins and the span of values divide one another. */
  lemma DisplayedEverywhere(minimum: nat, maximum: nat, bins: nat)
    requires minimum <= maximum && bins > 0
    ensures
      var span := maximum - minimum + 1;
      (forall sample: nat :: minimum <= sample <= maximum ==> Displayed(sample, minimum, maximum, bins)) <==>
      span % bins == 0 || bins % span == 0
  {
    hide Displayed;
    var span := maximum - minimum + 1;
    if span % bins == 0 || bins % span == 0 {
      forall sample: nat | minimum <= sample <= maximum ensures Displayed(sample, minimum, maximum, bins) {
        DisplayedExactly(sample, minimum, maximum, bins);
        if span % bins == 0 {
          PhaseOfFewBins(sample - minimum, span, bins);
        } else {
          PhaseOfManyBins(sample - minimum, span, bins);
        }
      }
    } else if bins < span {
      MissedByFewBins(span, bins);
      DisplayedExactly(minimum + span / bins, minimum, maximum, bins);
    } else {
      DisplayedExactly(minimum + 1, minimum, maximum, bins);
    }
  }

  lemma PhaseOfFewBins(d: nat, span: nat, bins: nat)
    requires bins > 0 && span % bins == 0 && d < span
    ensures d * bins % span + bins <= span
  {
    var k := span / bins;
    var q, r := d / k, d % k;
    assert span == k * bins && d == q * k + r;
    ScaleDivision(q, k, r, bins);
    S.ModUnique(d * bins, span, q, r * bins);
  }

  lemma ScaleDivision(q: nat, k: nat, r: nat, bins: nat)
    requires r < k
    ensures (q * k + r) * bins == q * (k * bins) + r * bins
    ensures r * bins + bins <= k * bins
  {
    assert (q * k + r) * bins == q * k * bins + r * bins;
    S.MulGrows(r + 1, k, bins);
    assert (r + 1) * bins == r * bins + bins;
  }

  lemma PhaseOfManyBins(d: nat, span: nat, bins: nat)
    requires span > 0 && bins % span == 0
    ensures d * bins % span == 0
  {
    var k := bins / span;
    assert bins == k * span;
    assert d * bins == (d * k) * span;
    S.MultipleOf(d * k, span);
  }

  lemma MissedByFewBins(span: nat, bins: nat)
    requires 0 < bins < span && span % bins != 0
    ensures
      var d := span / bins;
      d < span && d * bins % span != 0 && d * bins % span + bins > span
  {
    var d := span / bins;
    assert span == d * bins + span % bins;
    DivAtLeast(span, bins, 1);
    S.MulGrows(1, d, bins);
    S.MulGrows(2, bins, d);
    assert d * bins == bins * d;
    S.ModUnique(d * bins, span, 0, d * bins);
  }

  /** Three samples that are drawn in three bins, one of them above the range displayed for its bin. */
  lemma DisplayedBinMisses()
    ensures
      var samples: seq<uint32> := [0, 3, 4];
      BinCount(|samples|) == 3 && Least(samples) == 0 && Greatest(samples) == 4 && samples[1] == 3 &&
      !Displayed(3, 0, 4, 3) && BinOf(3, 0, 4, 3) == 1 && DisplayedMaximum(1, 0, 4, 3) == 2
  {
    var samples: seq<uint32> := [0, 3, 4];
    LeastIsLeast(samples);
    GreatestIsGreatest(samples);
    DisplayedExactly(3, 0, 4, 3);
  }

  function CountInBin(samples: seq<uint32>, bin: nat, minimum: nat, maximum: nat, bins: nat): nat
    requires bins > 0 && forall i :: 0 <= i < |samples| ==> minimum <= samples[i] <= maximum
  {
    if samples == [] then 0
    else
      var n := |samples| - 1;
      CountInBin(samples[..n], bin, minimum, maximum, bins) +
      if BinOf(samples[n], minimum, maximum, bins) == bin then 1 else 0
  }

  lemma NothingCounted(samples: seq<uint32>, minimum: nat, maximum: nat, bins: nat)
    requires bins > 0 && samples == []
    ensures forall b :: CountInBin(samples, b, minimum, maximum, bins) == 0
  {
  }

  lemma CountNext(samples: seq<uint32>, i: nat, bin: nat, minimum: nat, maximum: nat, bins: nat)
    requires bins > 0 && i < |samples| && forall k :: 0 <= k < |samples| ==> minimum <= samples[k] <= maximum
    ensures CountInBin(samples[..i + 1], bin, minimum, maximum, bins) ==
            CountInBin(samples[..i], bin, minimum, maximum, bins) +
            if BinOf(samples[i], minimum, maximum, bins) == bin then 1 else 0
  {
    hide BinOf;
    assert samples[..i + 1][..i] == samples[..i];
  }

  function Total(counts: seq<nat>): nat {
    if counts == [] then 0 else Total(counts[..|counts| - 1]) + counts[|counts| - 1]
  }

  lemma {:induction false} TotalIncrement(counts: seq<nat>, k: nat)
    requires k < |counts|
    ensures Total(counts[k := counts[k] + 1]) == Total(counts) + 1
  {
    var n := |counts| - 1;
    var more := counts[k := counts[k] + 1];
    if k == n {
      assert more[..n] == counts[..n];
    } else {
      TotalIncrement(counts[..n], k);
      assert more[..n] == counts[..n][k := counts[k] + 1];
    }
  }

  lemma {:induction false} TotalOfZeroes(counts: seq<nat>)
    requires forall i :: 0 <= i < |counts| ==> counts[i] == 0
    ensures Total(counts) == 0
  {
    if counts != [] {
      TotalOfZeroes(counts[..|counts| - 1]);
    }
  }

  /** The bin counts: every sample lands in exactly one bin. */
  method Histogram(samples: seq<uint32>) returns (bins: array<nat>)
    ensures fresh(bins) && bins.Length == BinCount(|samples|)
    ensures samples == [] ==> bins.Length == 0
    ensures Total(bins[..]) == |samples|
    ensures samples != [] ==>
              (forall i :: 0 <= i < |samples| ==> Least(samples) <= samples[i] <= Greatest(samples)) &&
              forall b :: 0 <= b < bins.Length ==>
                bins[b] == CountInBin(samples, b, Least(samples), Greatest(samples), bins.Length)
  {
    hide Least, Greatest, Total, BinOf, CountInBin;
    bins := new nat[BinCount(|samples|)](_ => 0);
    TotalOfZeroes(bins[..]);
    if samples == [] {
      return;
    }
    var minimum, maximum := Least(samples), Greatest(samples);
    LeastIsLeast(samples);
    GreatestIsGreatest(samples);
    NothingCounted(samples[..0], minimum, maximum, bins.Length);
    for i := 0 to |samples|
      invariant Total(bins[..]) == i
      invariant forall b :: 0 <= b < bins.Length ==>
                  bins[b] == CountInBin(samples[..i], b, minimum, maximum, bins.Length)
    {
      var bin := BinOf(samples[i], minimum, maximum, bins.Length);
      ClampIsIdle(samples[i], minimum, maximum, bins.Length);
      TotalIncrement(bins[..], bin);
      ghost var before := bins[..];
      bins[bin] := bins[bin] + 1;
      assert bins[..] == before[bin := before[bin] + 1];
      forall b | 0 <= b < bins.Length
        ensures CountInBin(samples[..i + 1], b, minimum, maximum, bins.Length) ==
                CountInBin(samples[..i], b, minimum, maximum, bins.Length) + if bin == b then 1 else 0
      {
        CountNext(samples, i, b, minimum, maximum, bins.Length);
      }
    }
    assert samples[..|samples|] == samples;
  }
}
