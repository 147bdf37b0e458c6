/**
 * The chart derivations of the analysis view: the fixed-bin histogram, the
 * mean-threshold split with its counts and sentence, and the comparison
 * sentence and bar colours.
 */
module AnalysisCharts {
  import opened Wrappers
  import opened Stats

  /** One histogram bar: its range `[low, high)` (the label, formatted to one decimal) and how many values it holds. */
  datatype Bin = Bin(low: real, high: real, count: nat)

  /** `(max - min) / binCount || 1`: the bin width, 1 when all values are equal. */
  function BinSize(values: seq<real>, binCount: nat): (r: real)
    requires |values| > 0 && binCount > 0
    ensures r > 0.0
    ensures Max(values) == Min(values) ==> r == 1.0
    ensures Max(values) != Min(values) ==> r == (Max(values) - Min(values)) / binCount as real
  {
    var hi, lo := Max(values), Min(values);
    Width(hi, lo, binCount)
  }

  /** The width of `binCount` equal bins spanning `[lo, hi]`, or 1 when the span is empty. */
  function Width(hi: real, lo: real, binCount: nat): (r: real)
    requires hi >= lo && binCount > 0
    ensures r > 0.0
    ensures hi == lo ==> r == 1.0
    ensures hi != lo ==> r == (hi - lo) / binCount as real
  {
    var width := (hi - lo) / binCount as real;
    if width == 0.0 then 1.0 else width
  }

  /** Bin `k` of width `size` starting from `low`, holding `count` values. */
  function HistBin(low: real, size: real, k: nat, count: nat): Bin
  {
    Bin(low + k as real * size, low + (k + 1) as real * size, count)
  }

  /** `Math.min(Math.floor((v - min) / binSize), binCount - 1)`. */
  function BinIndex(v: real, low: real, size: real, binCount: nat): int
    requires size > 0.0 && binCount > 0
  {
    var k := ((v - low) / size).Floor;
    if k < binCount - 1 then k else binCount - 1
  }

  /** A value no smaller than the minimum gets a bin index in `[0, binCount - 1]`. */
  lemma BinIndexInRange(v: real, low: real, size: real, binCount: nat)
    requires size > 0.0 && binCount > 0 && v >= low
    ensures 0 <= BinIndex(v, low, size, binCount) < binCount
  {
    assert (v - low) / size >= 0.0;
  }

  /** How many of `values` fall into bin `k`. */
  function CountInBin(values: seq<real>, low: real, size: real, binCount: nat, k: int): (r: nat)
    requires size > 0.0 && binCount > 0
    ensures r <= |values|
  {
    if values == [] then 0
    else
      CountInBin(values[..|values| - 1], low, size, binCount, k)
      + (if BinIndex(values[|values| - 1], low, size, binCount) == k then 1 else 0)
  }

  /** The counts of bins `0` to `k - 1`, added up. */
  function CountBelowBin(values: seq<real>, low: real, size: real, binCount: nat, k: nat): nat
    requires size > 0.0 && binCount > 0
  {
    if k == 0 then 0
    else CountBelowBin(values, low, size, binCount, k - 1) + CountInBin(values, low, size, binCount, k - 1)
  }

  /** The sum of the counts of `bins`. */
  function TotalCount(bins: seq<Bin>): nat
  {
    if bins == [] then 0 else TotalCount(bins[..|bins| - 1]) + bins[|bins| - 1].count
  }

  lemma {:induction false} CountBelowBinStep(values: seq<real>, v: real, low: real, size: real, binCount: nat, k: nat)
    requires size > 0.0 && binCount > 0
    ensures var idx := BinIndex(v, low, size, binCount);
      CountBelowBin(values + [v], low, size, binCount, k)
      == CountBelowBin(values, low, size, binCount, k) + (if 0 <= idx < k then 1 else 0)
  {
    assert (values + [v])[..|values|] == values;
    if k > 0 {
      CountBelowBinStep(values, v, low, size, binCount, k - 1);
    }
  }

  /** Every value lands in exactly one bin, so the counts of all bins add up to the number of values. */
  lemma {:induction false} CountsAddUp(values: seq<real>, low: real, size: real, binCount: nat)
    requires size > 0.0 && binCount > 0
    requires forall i :: 0 <= i < |values| ==> values[i] >= low
    ensures CountBelowBin(values, low, size, binCount, binCount) == |values|
  {
    if values == [] {
      CountBelowBinEmpty(low, size, binCount, binCount);
    } else {
      var init, v := values[..|values| - 1], values[|values| - 1];
      CountsAddUp(init, low, size, binCount);
      BinIndexInRange(v, low, size, binCount);
      assert init + [v] == values;
      CountBelowBinStep(init, v, low, size, binCount, binCount);
    }
  }

  lemma {:induction false} CountBelowBinEmpty(low: real, size: real, binCount: nat, k: nat)
    requires size > 0.0 && binCount > 0
    ensures CountBelowBin([], low, size, binCount, k) == 0
  {
    if k > 0 {
      CountBelowBinEmpty(low, size, binCount, k - 1);
    }
  }

  lemma {:induction false} TotalCountOfPrefix(bins: seq<Bin>, values: seq<real>, low: real, size: real, binCount: nat, k: nat)
    requires size > 0.0 && binCount > 0 && k <= |bins|
    requires forall j :: 0 <= j < |bins| ==> bins[j].count == CountInBin(values, low, size, binCount, j)
    ensures TotalCount(bins[..k]) == CountBelowBin(values, low, size, binCount, k)
  {
    if k > 0 {
      assert bins[..k][..k - 1] == bins[..k - 1];
      TotalCountOfPrefix(bins, values, low, size, binCount, k - 1);
    }
  }

  /**
   * `buildHistogram`: `binCount` bins of equal width from the minimum, each
   * counting the values whose clamped index is its own. `Math.min` of an
   * empty series is not modelled, so the series is non-empty.
   */
  method BuildHistogram(values: seq<real>, binCount: nat) returns (bins: seq<Bin>)
    requires |values| > 0 && binCount > 0
    ensures |bins| == binCount
    ensures forall k :: 0 <= k < binCount ==>
      var low, size := Min(values), BinSize(values, binCount);
      bins[k] == HistBin(low, size, k, CountInBin(values, low, size, binCount, k))
    ensures TotalCount(bins) == |values|
  {
    var low, size := Min(values), BinSize(values, binCount);
    var a := new Bin[binCount](k requires 0 <= k < binCount => HistBin(low, size, k, 0));
    for i := 0 to |values|
      invariant forall k :: 0 <= k < binCount ==>
        a[k] == HistBin(low, size, k, CountInBin(values[..i], low, size, binCount, k))
    {
      var v := values[i];
      BinIndexInRange(v, low, size, binCount);
      var idx := BinIndex(v, low, size, binCount);
      CountInBinStep(values, i, low, size, binCount);
      a[idx] := HistBin(low, size, idx, a[idx].count + 1);
    }
    assert values[..|values|] == values;
    bins := a[..];
    CountsAddUp(values, low, size, binCount);
    TotalCountOfPrefix(bins, values, low, size, binCount, binCount);
    assert bins[..binCount] == bins;
  }

  lemma CountInBinStep(values: seq<real>, i: nat, low: real, size: real, binCount: nat)
    requires size > 0.0 && binCount > 0 && i < |values|
    ensures forall k :: (CountInBin(values[..i + 1], low, size, binCount, k)
      == CountInBin(values[..i], low, size, binCount, k)
         + (if BinIndex(values[i], low, size, binCount) == k then 1 else 0))
  {
    assert values[..i + 1][..i] == values[..i];
  }

  /** When the values are spread out, the largest one is clamped into the last bin. */
  lemma MaxInLastBin(values: seq<real>, binCount: nat)
    requires |values| > 0 && binCount > 0 && Max(values) != Min(values)
    ensures BinIndex(Max(values), Min(values), BinSize(values, binCount), binCount) == binCount - 1
  {
    TopOfRangeInLastBin(Max(values), Min(values), binCount);
  }

  lemma TopOfRangeInLastBin(hi: real, lo: real, binCount: nat)
    requires hi > lo && binCount > 0
    ensures BinIndex(hi, lo, Width(hi, lo, binCount), binCount) == binCount - 1
  {
    var n := binCount as real;
    var size := (hi - lo) / n;
    MultiplyBack(hi - lo, n);
    DivideExact(hi - lo, n, size);
    assert n.Floor == binCount;
  }

  lemma MultiplyBack(a: real, n: real)
    requires n > 0.0
    ensures (a / n) * n == a
  {
  }

  lemma DivideExact(a: real, b: real, c: real)
    requires c > 0.0 && a == c * b
    ensures a / c == b
  {
  }

  /** When all values are equal the width falls back to 1 and every value lands in bin 0. */
  lemma EqualValuesInFirstBin(values: seq<real>, binCount: nat)
    requires |values| > 0 && binCount > 0
    requires forall i :: 0 <= i < |values| ==> values[i] == values[0]
    ensures BinSize(values, binCount) == 1.0
    ensures forall i :: 0 <= i < |values| ==> BinIndex(values[i], Min(values), 1.0, binCount) == 0
  {
    assert Max(values) == values[0] == Min(values);
  }

  /** The series and its mean threshold (`None` for the NaN mean of an empty series). */
  datatype ThresholdData = ThresholdData(values: seq<real>, threshold: Option<real>)

  /** `buildThresholdData`. */
  function BuildThresholdData(values: seq<real>): (r: ThresholdData)
    ensures r.values == values
    ensures r.threshold.Some? <==> |values| > 0
    ensures |values| > 0 ==> r.threshold.value * |values| as real == Sum(values)
  {
    ThresholdData(values, Mean(values))
  }

  /** `v >= threshold` (false against NaN). */
  predicate AtOrAbove(v: real, threshold: Option<real>)
  {
    threshold.Some? && v >= threshold.value
  }

  /** `v < threshold` (false against NaN). */
  predicate Beneath(v: real, threshold: Option<real>)
  {
    threshold.Some? && v < threshold.value
  }

  /** The two chart series: each value in one of them, `null` (here `None`) in the other. */
  datatype SplitData = SplitData(above: seq<Option<real>>, below: seq<Option<real>>)

  /** `getThresholdSplitData`. */
  function GetThresholdSplitData(data: ThresholdData): (r: SplitData)
    ensures |r.above| == |r.below| == |data.values|
    ensures forall i :: 0 <= i < |data.values| ==>
      && (r.above[i].Some? <==> AtOrAbove(data.values[i], data.threshold))
      && (r.below[i].Some? <==> Beneath(data.values[i], data.threshold))
      && (r.above[i].Some? ==> r.above[i].value == data.values[i])
      && (r.below[i].Some? ==> r.below[i].value == data.values[i])
    ensures data.threshold.Some? ==> forall i :: 0 <= i < |data.values| ==> (r.above[i].Some? <==> r.below[i].None?)
  {
    var vs := data.values;
    SplitData(
      seq(|vs|, i requires 0 <= i < |vs| => if AtOrAbove(vs[i], data.threshold) then Some(vs[i]) else None),
      seq(|vs|, i requires 0 <= i < |vs| => if Beneath(vs[i], data.threshold) then Some(vs[i]) else None))
  }

  datatype Counts = Counts(above: nat, below: nat)

  /** `getThresholdCounts`: how many values lie at or above, and how many below, the threshold. */
  function GetThresholdCounts(data: ThresholdData): (r: Counts)
    ensures data.threshold.Some? ==>
      r == Counts(CountAtLeast(data.values, data.threshold.value), CountLess(data.values, data.threshold.value))
    ensures data.threshold.None? ==> r == Counts(0, 0)
    ensures data.threshold.Some? ==> r.above + r.below == |data.values|
  {
    if data.threshold.None? then Counts(0, 0)
    else
      var t := data.threshold.value;
      CountLessPlusAtLeast(data.values, t);
      Counts(CountAtLeast(data.values, t), CountLess(data.values, t))
  }

  /** The number of non-null points of a chart series. */
  function Plotted(points: seq<Option<real>>): (r: nat)
    ensures r <= |points|
  {
    if points == [] then 0 else (if points[0].Some? then 1 else 0) + Plotted(points[1..])
  }

  /** The counts are the numbers of points drawn in the two series of the split. */
  lemma {:induction false} CountsMatchSplit(data: ThresholdData)
    requires data.threshold.Some?
    ensures Plotted(GetThresholdSplitData(data).above) == GetThresholdCounts(data).above
    ensures Plotted(GetThresholdSplitData(data).below) == GetThresholdCounts(data).below
    decreases |data.values|
  {
    var vs, t := data.values, data.threshold;
    if vs != [] {
      var rest := ThresholdData(vs[1..], t);
      CountsMatchSplit(rest);
      var split, restSplit := GetThresholdSplitData(data), GetThresholdSplitData(rest);
      assert split.above[1..] == restSplit.above;
      assert split.below[1..] == restSplit.below;
    }
  }

  const NoData := "No data available to analyze."
  const Underperformance := "A majority of values fall below the defined threshold, indicating underperformance."
  const Acceptable := "Most values exceed the threshold, indicating acceptable or improving performance."
  const Mixed := "Values are distributed around the threshold, indicating mixed performance."

  /** `getThresholdInsight`: no data, more than 60% below, more than 50% at or above, or mixed. */
  function GetThresholdInsight(data: ThresholdData): (r: string)
    ensures var c := GetThresholdCounts(data);
      var total := c.above + c.below;
      && (total == 0 ==> r == NoData)
      && (total > 0 && c.below as real * 100.0 > 60.0 * total as real ==> r == Underperformance)
      && ((total > 0 && c.below as real * 100.0 <= 60.0 * total as real
           && c.above as real * 100.0 > 50.0 * total as real) ==> r == Acceptable)
      && ((total > 0 && c.below as real * 100.0 <= 60.0 * total as real
           && c.above as real * 100.0 <= 50.0 * total as real) ==> r == Mixed)
  {
    var c := GetThresholdCounts(data);
    var total := c.above + c.below;
    if total == 0 then NoData
    else
      var belowPercentage := (c.below as real / total as real) * 100.0;
      var abovePercentage := (c.above as real / total as real) * 100.0;
      PercentageAbove(c.below as real, total as real, 60.0);
      PercentageAbove(c.above as real, total as real, 50.0);
      if belowPercentage > 60.0 then Underperformance
      else if abovePercentage > 50.0 then Acceptable
      else Mixed
  }

  lemma PercentageAbove(part: real, total: real, bound: real)
    requires total > 0.0
    ensures (part / total) * 100.0 > bound <==> part * 100.0 > bound * total
  {
    var q := part / total;
    assert q * total == part;
    assert q * 100.0 * total == part * 100.0;
  }

  /** Against its own mean, a series says "No data" only when it is empty: some value always reaches the mean. */
  lemma ThresholdInsightOfSeries(values: seq<real>)
    ensures GetThresholdInsight(BuildThresholdData(values)) == NoData <==> values == []
    ensures values != [] ==> GetThresholdCounts(BuildThresholdData(values)).above >= 1
  {
    if values != [] {
      var t := Mean(values).value;
      MeanAttained(values);
      var k :| 0 <= k < |values| && values[k] >= t;
      CountLessMissesWitness(values, t, k);
      CountLessPlusAtLeast(values, t);
    }
  }

  /** `indexOf(Math.max(...values))`. */
  function MaxIndex(values: seq<real>): nat
    requires |values| > 0
  {
    IndexOf(values, Max(values))
  }

  /** `indexOf(Math.min(...values))`. */
  function MinIndex(values: seq<real>): nat
    requires |values| > 0
  {
    IndexOf(values, Min(values))
  }

  /** The chosen indices hold the largest and the smallest value, and no earlier index does. */
  lemma FirstExtremeIndices(values: seq<real>)
    requires |values| > 0
    ensures MaxIndex(values) < |values| && MinIndex(values) < |values|
    ensures forall j :: 0 <= j < |values| ==> values[j] <= values[MaxIndex(values)]
    ensures forall j :: 0 <= j < MaxIndex(values) ==> values[j] < values[MaxIndex(values)]
    ensures forall j :: 0 <= j < |values| ==> values[MinIndex(values)] <= values[j]
    ensures forall j :: 0 <= j < MinIndex(values) ==> values[MinIndex(values)] < values[j]
  {
    var m := Max(values);
    var k :| 0 <= k < |values| && values[k] == m;
    IndexOfMember(values, m, k);
    var n := Min(values);
    var l :| 0 <= l < |values| && values[l] == n;
    IndexOfMember(values, n, l);
  }

  lemma {:induction false} IndexOfMember(s: seq<real>, x: real, k: nat)
    requires k < |s| && s[k] == x
    ensures IndexOf(s, x) <= k
  {
    if s[0] != x {
      IndexOfMember(s[1..], x, k - 1);
    }
  }

  /** `getComparisonInsight`: names the category of the first largest and of the first smallest value. */
  function GetComparisonInsight(categories: seq<string>, values: seq<real>): (r: string)
    requires |values| > 0 && |categories| == |values|
    ensures MaxIndex(values) < |values| && MinIndex(values) < |values|
    ensures r == "From the comparison chart, " + categories[MaxIndex(values)]
      + " shows the highest performance, while " + categories[MinIndex(values)]
      + " shows the lowest performance."
  {
    FirstExtremeIndices(values);
    "From the comparison chart, " + categories[MaxIndex(values)]
    + " shows the highest performance, while " + categories[MinIndex(values)]
    + " shows the lowest performance."
  }

  const Green := "#4CAF50"
  const Red := "#F44336"
  const Blue := "#2196F3"

  /** `getComparisonBarColors`: the largest values green, then the smallest red, the rest blue. */
  function GetComparisonBarColors(values: seq<real>): (r: seq<string>)
    ensures |r| == |values|
    ensures |values| > 0 ==> forall i :: 0 <= i < |values| ==>
      && (r[i] == Green <==> values[i] == Max(values))
      && (r[i] == Red <==> values[i] != Max(values) && values[i] == Min(values))
      && (r[i] == Blue <==> values[i] != Max(values) && values[i] != Min(values))
  {
    if values == [] then []
    else
      var hi, lo := Max(values), Min(values);
      seq(|values|, i requires 0 <= i < |values| =>
        if values[i] == hi then Green else if values[i] == lo then Red else Blue)
  }

  /** All-equal values are all green, and a non-empty series always has a green bar and, when spread out, a red one. */
  lemma BarColorsCoverExtremes(values: seq<real>)
    requires |values| > 0
    ensures (forall i :: 0 <= i < |values| ==> values[i] == values[0]) ==>
      forall i :: 0 <= i < |values| ==> GetComparisonBarColors(values)[i] == Green
    ensures Green in GetComparisonBarColors(values)
    ensures Max(values) != Min(values) ==> Red in GetComparisonBarColors(values)
  {
    var colors := GetComparisonBarColors(values);
    FirstExtremeIndices(values);
    assert colors[MaxIndex(values)] == Green;
    if Max(values) != Min(values) {
      assert colors[MinIndex(values)] == Red;
    }
    if forall i :: 0 <= i < |values| ==> values[i] == values[0] {
      assert Max(values) == values[0];
    }
  }
}
