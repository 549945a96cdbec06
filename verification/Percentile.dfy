/** The interpolated percentile of tools/gate_benchmark.py, over exact reals. */
module Percentile {
  import opened StableSort

  predicate RealLeq(x: real, y: real) {
    x <= y
  }

  function Ascending(values: seq<real>): (s: seq<real>)
    ensures |s| == |values|
  {
    SortPermutes(values, RealLeq);
    Sort(values, RealLeq)
  }

  /** The value `p` of the way along the sorted samples. */
  function Percentile(values: seq<real>, p: real): real
    requires 0.0 <= p <= 1.0
  {
    if values == [] then 0.0
    else if |values| == 1 then values[0]
    else
      var sorted := Ascending(values);
      Interpolate(sorted, Position(|sorted|, p))
  }

  function Position(n: nat, p: real): (position: real)
    requires n >= 1 && 0.0 <= p <= 1.0
    ensures 0.0 <= position <= (n - 1) as real
  {
    (n - 1) as real * p
  }

  function Interpolate(sorted: seq<real>, position: real): real
    requires |sorted| >= 2 && 0.0 <= position <= (|sorted| - 1) as real
  {
    var lower := position.Floor;
    var upper := if lower + 1 < |sorted| - 1 then lower + 1 else |sorted| - 1;
    if lower == upper then sorted[lower]
    else
      var weight := position - lower as real;
      sorted[lower] + (sorted[upper] - sorted[lower]) * weight
  }

  function Lowest(values: seq<real>): real
    requires values != []
  {
    if |values| == 1 then values[0]
    else
      var rest := Lowest(values[1..]);
      if values[0] <= rest then values[0] else rest
  }

  function Highest(values: seq<real>): real
    requires values != []
  {
    if |values| == 1 then values[0]
    else
      var rest := Highest(values[1..]);
      if values[0] >= rest then values[0] else rest
  }

  lemma {:induction false} LowestIsLeast(values: seq<real>)
    requires values != []
    ensures Lowest(values) in values && forall i :: 0 <= i < |values| ==> Lowest(values) <= values[i]
  {
    if |values| > 1 {
      LowestIsLeast(values[1..]);
      assert forall i :: 0 < i < |values| ==> values[i] == values[1..][i - 1];
    }
  }

  lemma {:induction false} HighestIsGreatest(values: seq<real>)
    requires values != []
    ensures Highest(values) in values && forall i :: 0 <= i < |values| ==> values[i] <= Highest(values)
  {
    if |values| > 1 {
      HighestIsGreatest(values[1..]);
      assert forall i :: 0 < i < |values| ==> values[i] == values[1..][i - 1];
    }
  }

  function Total(values: seq<real>): real {
    if values == [] then 0.0 else Total(values[..|values| - 1]) + values[|values| - 1]
  }

  function Mean(values: seq<real>): real
    requires values != []
  {
    Total(values) / |values| as real
  }

  datatype Summary = Summary(count: nat, min: real, max: real, mean: real, p50: real, p95: real)

  function Summarize(values: seq<real>): Summary {
    if values == [] then Summary(0, 0.0, 0.0, 0.0, 0.0, 0.0)
    else
      Summary(|values|, Lowest(values), Highest(values), Mean(values),
              Percentile(values, 0.5), Percentile(values, 0.95))
  }

  // ------------------------------------------------------------ one cell

  predicate IsAscending(sorted: seq<real>) {
    forall i, j :: 0 <= i < j < |sorted| ==> sorted[i] <= sorted[j]
  }

  /** The straight line over cell `i`. */
  function Segment(sorted: seq<real>, i: nat, x: real): real
    requires i + 1 < |sorted|
  {
    sorted[i] + (sorted[i + 1] - sorted[i]) * (x - i as real)
  }

  lemma SlopeMonotone(slope: real, x: real, y: real)
    requires slope >= 0.0 && x <= y
    ensures slope * x <= slope * y
  {
    assert slope * (y - x) >= 0.0;
  }

  lemma SegmentMonotone(sorted: seq<real>, i: nat, x: real, y: real)
    requires IsAscending(sorted) && i + 1 < |sorted| && x <= y
    ensures Segment(sorted, i, x) <= Segment(sorted, i, y)
  {
    SlopeMonotone(sorted[i + 1] - sorted[i], x - i as real, y - i as real);
  }

  lemma SegmentEnds(sorted: seq<real>, i: nat)
    requires i + 1 < |sorted|
    ensures Segment(sorted, i, i as real) == sorted[i]
    ensures Segment(sorted, i, (i + 1) as real) == sorted[i + 1]
  {}

  lemma InterpolateIsSegment(sorted: seq<real>, x: real)
    requires |sorted| >= 2 && 0.0 <= x <= (|sorted| - 1) as real
    ensures x.Floor < |sorted|
    ensures Interpolate(sorted, x) ==
      if x.Floor + 1 < |sorted| then Segment(sorted, x.Floor, x) else sorted[|sorted| - 1]
  {}

  /** Each cell stays between the samples at its ends. */
  lemma InterpolateBetween(sorted: seq<real>, x: real)
    requires |sorted| >= 2 && IsAscending(sorted) && 0.0 <= x <= (|sorted| - 1) as real
    ensures sorted[x.Floor] <= Interpolate(sorted, x)
    ensures x.Floor + 1 < |sorted| ==> Interpolate(sorted, x) <= sorted[x.Floor + 1]
  {
    var i := x.Floor;
    InterpolateIsSegment(sorted, x);
    if i + 1 < |sorted| {
      SegmentEnds(sorted, i);
      SegmentMonotone(sorted, i, i as real, x);
      SegmentMonotone(sorted, i, x, (i + 1) as real);
    }
  }

  // ------------------------------------------------------------ across cells

  lemma InterpolateMonotone(sorted: seq<real>, x: real, y: real)
    requires |sorted| >= 2 && IsAscending(sorted) && 0.0 <= x <= y <= (|sorted| - 1) as real
    ensures Interpolate(sorted, x) <= Interpolate(sorted, y)
  {
    var i, j := x.Floor, y.Floor;
    InterpolateIsSegment(sorted, x);
    InterpolateIsSegment(sorted, y);
    if i == j {
      if i + 1 < |sorted| {
        SegmentMonotone(sorted, i, x, y);
      }
    } else {
      InterpolateBetween(sorted, x);
      InterpolateBetween(sorted, y);
      assert i + 1 <= j;
    }
  }

  /** Monotone in `p` over the whole of [0, 1], across cell boundaries. */
  lemma PercentileMonotone(values: seq<real>, p: real, q: real)
    requires 0.0 <= p <= q <= 1.0
    ensures Percentile(values, p) <= Percentile(values, q)
  {
    if |values| >= 2 {
      AscendingAscends(values);
      PositionMonotone(|values|, p, q);
      InterpolateMonotone(Ascending(values), Position(|values|, p), Position(|values|, q));
    }
  }

  lemma PositionMonotone(n: nat, p: real, q: real)
    requires n >= 1 && 0.0 <= p <= q <= 1.0
    ensures Position(n, p) <= Position(n, q)
  {
    SlopeMonotone((n - 1) as real, p, q);
  }

  lemma PositionEnds(n: nat)
    requires n >= 1
    ensures Position(n, 0.0) == 0.0 && Position(n, 1.0) == (n - 1) as real
  {}

  lemma AscendingAscends(values: seq<real>)
    ensures IsAscending(Ascending(values))
  {
    SortSorts(values, RealLeq);
  }

  /** The two ends of the range are the extreme samples. */
  lemma PercentileEnds(values: seq<real>)
    requires values != []
    ensures Percentile(values, 0.0) == Lowest(values)
    ensures Percentile(values, 1.0) == Highest(values)
  {
    var sorted := Ascending(values);
    SortPermutes(values, RealLeq);
    AscendingAscends(values);
    ExtremesOfSorted(values, sorted);
    if |values| >= 2 {
      PositionEnds(|values|);
      InterpolateIsSegment(sorted, 0.0);
      InterpolateIsSegment(sorted, (|values| - 1) as real);
      SegmentEnds(sorted, 0);
    }
  }

  lemma ExtremesOfSorted(values: seq<real>, sorted: seq<real>)
    requires values != [] && IsAscending(sorted) && multiset(sorted) == multiset(values)
    ensures sorted != [] && sorted[0] == Lowest(values) && sorted[|sorted| - 1] == Highest(values)
  {
    LowestIsLeast(values);
    HighestIsGreatest(values);
    assert |multiset(sorted)| == |multiset(values)|;
    var low, high := sorted[0], sorted[|sorted| - 1];
    assert low in multiset(values) && high in multiset(values);
    assert Lowest(values) in multiset(sorted) && Highest(values) in multiset(sorted);
    var i :| 0 <= i < |sorted| && sorted[i] == Lowest(values);
    var j :| 0 <= j < |sorted| && sorted[j] == Highest(values);
    assert low <= sorted[i] && sorted[j] <= high;
  }

  lemma PercentileWithinRange(values: seq<real>, p: real)
    requires values != [] && 0.0 <= p <= 1.0
    ensures Lowest(values) <= Percentile(values, p) <= Highest(values)
  {
    PercentileEnds(values);
    PercentileMonotone(values, 0.0, p);
    PercentileMonotone(values, p, 1.0);
  }

  /** The order in which the samples were taken does not matter. */
  lemma PercentilePermutation(values: seq<real>, other: seq<real>, p: real)
    requires multiset(values) == multiset(other) && 0.0 <= p <= 1.0
    ensures Percentile(values, p) == Percentile(other, p)
  {
    assert |multiset(values)| == |multiset(other)|;
    if |values| == 1 {
      assert values[0] in multiset(other);
    }
    AscendingUnique(values, other);
  }

  lemma AscendingUnique(values: seq<real>, other: seq<real>)
    requires multiset(values) == multiset(other)
    ensures Ascending(values) == Ascending(other)
  {
    SortPermutes(values, RealLeq);
    SortPermutes(other, RealLeq);
    SortSorts(values, RealLeq);
    SortSorts(other, RealLeq);
    SortedUnique(Ascending(values), Ascending(other), RealLeq);
  }

  /** At `k / (n - 1)` the percentile is the k-th smallest sample itself. */
  lemma PercentileAtSample(values: seq<real>, k: nat)
    requires |values| >= 2 && k < |values|
    ensures 0.0 <= k as real / (|values| - 1) as real <= 1.0
    ensures Percentile(values, k as real / (|values| - 1) as real) == Ascending(values)[k]
  {
    PositionOfSample(|values|, k);
    var sorted := Ascending(values);
    InterpolateIsSegment(sorted, k as real);
    if k + 1 < |sorted| {
      SegmentEnds(sorted, k);
    }
  }

  /** The extremes of the summary are samples that no sample passes, and its mean is the mean. */
  lemma SummaryExtremes(values: seq<real>)
    requires values != []
    ensures
      var s := Summarize(values);
      && s.min in values && s.max in values && (forall i :: 0 <= i < |values| ==> s.min <= values[i] <= s.max)
      && s.mean == Mean(values)
  {
    LowestIsLeast(values);
    HighestIsGreatest(values);
  }

  /** Without samples everything is zero. */
  lemma SummaryOfNone(p: real)
    requires 0.0 <= p <= 1.0
    ensures Summarize([]) == Summary(0, 0.0, 0.0, 0.0, 0.0, 0.0) && Percentile([], p) == 0.0
  {}

  /** The mean times the count is the sum. */
  lemma MeanTimesCount(values: seq<real>)
    requires values != []
    ensures Mean(values) * |values| as real == Total(values)
  {
    TimesQuotient(Total(values), |values| as real, Mean(values));
  }

  lemma TimesQuotient(total: real, n: real, mean: real)
    requires n > 0.0 && mean == total / n
    ensures mean * n == total
  {}

  /** Of 2k + 1 samples the median is the middle one. */
  lemma SummaryMedian(values: seq<real>, k: nat)
    requires |values| == 2 * k + 1
    ensures Summarize(values).p50 == Ascending(values)[k]
  {
    PercentileAtRatio(values, k, 0.5);
  }

  /** Of 20k + 1 samples 19k lie before the 95th percentile, in order. */
  lemma SummaryTail(values: seq<real>, k: nat)
    requires |values| == 20 * k + 1
    ensures Summarize(values).p95 == Ascending(values)[19 * k]
  {
    PercentileAtRatio(values, 19 * k, 0.95);
  }

  lemma PercentileAtRatio(values: seq<real>, k: nat, p: real)
    requires 0.0 <= p <= 1.0 && k < |values| && k as real == (|values| - 1) as real * p
    ensures Percentile(values, p) == Ascending(values)[k]
  {
    var sorted := Ascending(values);
    if |values| >= 2 {
      InterpolateIsSegment(sorted, k as real);
      if k + 1 < |sorted| {
        SegmentEnds(sorted, k);
      }
    } else {
      AscendingOfOne(values);
    }
  }

  lemma AscendingOfOne(values: seq<real>)
    requires |values| == 1
    ensures Ascending(values) == values
  {
    SortPermutes(values, RealLeq);
    assert values == [values[0]] && Ascending(values) == [Ascending(values)[0]];
    assert Ascending(values)[0] in multiset(Ascending(values));
  }

  lemma PositionOfSample(n: nat, k: nat)
    requires n >= 2 && k < n
    ensures 0.0 <= k as real / (n - 1) as real <= 1.0
    ensures Position(n, k as real / (n - 1) as real) == k as real
  {}

  // ------------------------------------------------------------ no jumps

  ghost predicate RisesAtMost(rise: real, slope: real, run: real) {
    rise <= slope * run
  }

  lemma SegmentRise(sorted: seq<real>, i: nat, x: real, y: real, range: real)
    requires i + 1 < |sorted| && x <= y && sorted[i + 1] - sorted[i] <= range
    ensures Segment(sorted, i, y) - Segment(sorted, i, x) <= range * (y - x)
  {
    var slope := sorted[i + 1] - sorted[i];
    assert Segment(sorted, i, y) - Segment(sorted, i, x) == slope * (y - x);
    assert (range - slope) * (y - x) >= 0.0;
  }

  /** Within one cell. */
  lemma CellRise(sorted: seq<real>, x: real, y: real, range: real, rise: real, run: real)
    requires |sorted| >= 2 && IsAscending(sorted) && 0.0 <= x <= y <= (|sorted| - 1) as real
    requires x.Floor + 1 < |sorted| && y <= (x.Floor + 1) as real
    requires range == sorted[|sorted| - 1] - sorted[0]
    requires rise == Interpolate(sorted, y) - Interpolate(sorted, x) && run == y - x
    ensures RisesAtMost(rise, range, run)
  {
    InterpolateIsSegment(sorted, x);
    SegmentRise(sorted, x.Floor, x, y, range);
    SegmentReach(sorted, x.Floor, y);
  }

  lemma RisesAdd(first: real, second: real, range: real, u: real, v: real, rise: real, run: real)
    requires RisesAtMost(first, range, u) && RisesAtMost(second, range, v)
    requires rise == first + second && run == u + v
    ensures RisesAtMost(rise, range, run)
  {
    assert range * (u + v) == range * u + range * v;
  }

  /** No jumps: over any stretch, across any number of cells, the interpolation rises by at
      most the spread of the samples per cell. */
  lemma {:induction false} InterpolateRise(sorted: seq<real>, x: real, y: real)
    requires |sorted| >= 2 && IsAscending(sorted) && 0.0 <= x <= y <= (|sorted| - 1) as real
    ensures RisesAtMost(Interpolate(sorted, y) - Interpolate(sorted, x), sorted[|sorted| - 1] - sorted[0], y - x)
    decreases y.Floor - x.Floor
  {
    var rise, range, run := Interpolate(sorted, y) - Interpolate(sorted, x), sorted[|sorted| - 1] - sorted[0], y - x;
    if x.Floor + 1 == |sorted| {
      FlatRise(rise, range, run);
    } else if y <= (x.Floor + 1) as real {
      CellRise(sorted, x, y, range, rise, run);
    } else {
      var middle := (x.Floor + 1) as real;
      var first := Interpolate(sorted, middle) - Interpolate(sorted, x);
      var second := Interpolate(sorted, y) - Interpolate(sorted, middle);
      CellRise(sorted, x, middle, range, first, middle - x);
      InterpolateRise(sorted, middle, y);
      RisesAdd(first, second, range, middle - x, y - middle, rise, run);
    }
  }

  lemma RiseIsAtMost(sorted: seq<real>, x: real, y: real, rise: real, slope: real, run: real)
    requires |sorted| >= 2 && IsAscending(sorted) && 0.0 <= x <= y <= (|sorted| - 1) as real
    requires rise == Interpolate(sorted, y) - Interpolate(sorted, x)
    requires slope == sorted[|sorted| - 1] - sorted[0] && run == y - x
    ensures RisesAtMost(rise, slope, run)
  {
    InterpolateRise(sorted, x, y);
  }

  /** The greatest sample minus the least. */
  function Spread(values: seq<real>): real
    requires values != []
  {
    Highest(values) - Lowest(values)
  }

  lemma SpreadOf(values: seq<real>)
    requires values != []
    ensures
      var sorted := Ascending(values);
      IsAscending(sorted) && Spread(values) == sorted[|sorted| - 1] - sorted[0]
  {
    AscendingAscends(values);
    SortPermutes(values, RealLeq);
    ExtremesOfSorted(values, Ascending(values));
  }

  /** How far apart two percentiles lie in the sorted samples: n - 1 cells per unit. */
  function CellsBetween(n: nat, p: real, q: real): (cells: real)
    requires n >= 1 && 0.0 <= p <= q <= 1.0
  {
    Position(n, q) - Position(n, p)
  }

  lemma PercentileAt(values: seq<real>, p: real, value: real, position: real)
    requires values != [] && 0.0 <= p <= 1.0
    requires value == Percentile(values, p) && position == Position(|values|, p)
    ensures 0.0 <= position <= (|values| - 1) as real
    ensures |values| >= 2 ==> value == Interpolate(Ascending(values), position)
    ensures |values| == 1 ==> value == values[0]
  {}

  /** The same on `p` itself: per cell the percentile rises by at most the spread. */
  lemma PercentileRise(values: seq<real>, p: real, q: real)
    requires values != [] && 0.0 <= p <= q <= 1.0
    ensures Percentile(values, q) - Percentile(values, p) <= Spread(values) * CellsBetween(|values|, p, q)
  {
    RiseBetween(values, p, q, Percentile(values, q) - Percentile(values, p), CellsBetween(|values|, p, q));
  }

  lemma RiseBetween(values: seq<real>, p: real, q: real, rise: real, cells: real)
    requires values != [] && 0.0 <= p <= q <= 1.0
    requires rise == Percentile(values, q) - Percentile(values, p)
    requires cells == CellsBetween(|values|, p, q)
    ensures RisesAtMost(rise, Spread(values), cells)
  {
    var n, sorted := |values|, Ascending(values);
    PositionMonotone(n, p, q);
    PercentileAt(values, p, Percentile(values, p), Position(n, p));
    PercentileAt(values, q, Percentile(values, q), Position(n, q));
    SpreadOf(values);
    if n >= 2 {
      RiseIsAtMost(sorted, Position(n, p), Position(n, q), rise, Spread(values), cells);
    } else {
      FlatRise(rise, Spread(values), cells);
    }
  }

  lemma FlatRise(rise: real, slope: real, run: real)
    requires rise == 0.0 && run == 0.0
    ensures RisesAtMost(rise, slope, run)
  {}

  /** A segment is the line up to and including its right end. */
  lemma SegmentReach(sorted: seq<real>, i: nat, x: real)
    requires i + 1 < |sorted| && i as real <= x <= (i + 1) as real
    ensures Interpolate(sorted, x) == Segment(sorted, i, x)
  {
    InterpolateIsSegment(sorted, x);
    SegmentEnds(sorted, i);
    if x == (i + 1) as real && i + 2 < |sorted| {
      SegmentEnds(sorted, i + 1);
    }
  }

  // ------------------------------------------------------------ the summary

  ghost predicate TimesBetween(total: real, n: real, low: real, high: real) {
    n * low <= total <= n * high
  }

  lemma {:induction false} TotalBetween(values: seq<real>, low: real, high: real)
    requires forall i :: 0 <= i < |values| ==> low <= values[i] <= high
    ensures TimesBetween(Total(values), |values| as real, low, high)
  {
    if values != [] {
      var n := |values| - 1;
      TotalBetween(values[..n], low, high);
      OneMore(n, low);
      OneMore(n, high);
    }
  }

  lemma OneMore(n: nat, x: real)
    ensures (n + 1) as real * x == n as real * x + x
  {}

  lemma QuotientBetween(total: real, n: real, low: real, high: real)
    requires n > 0.0 && TimesBetween(total, n, low, high)
    ensures low <= total / n <= high
  {}

  lemma MeanWithinRange(values: seq<real>)
    requires values != []
    ensures Lowest(values) <= Mean(values) <= Highest(values)
  {
    LowestIsLeast(values);
    HighestIsGreatest(values);
    TotalBetween(values, Lowest(values), Highest(values));
    QuotientBetween(Total(values), |values| as real, Lowest(values), Highest(values));
  }

  /** min <= p50 <= p95 <= max and min <= mean <= max. */
  lemma SummaryOrdered(values: seq<real>)
    ensures
      var s := Summarize(values);
      s.count == |values| && s.min <= s.p50 <= s.p95 <= s.max && s.min <= s.mean <= s.max
  {
    if values != [] {
      PercentileWithinRange(values, 0.5);
      PercentileWithinRange(values, 0.95);
      PercentileMonotone(values, 0.5, 0.95);
      MeanWithinRange(values);
    }
  }
}
