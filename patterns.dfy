/**
 * The backend's trend and threshold patterns over one numeric column, taken
 * here as a series of reals.
 */
module Patterns {
  import opened Wrappers
  import opened Stats

  datatype TrendResult = TrendResult(values: seq<real>, trend: string, insight: string)

  /** "an" before a word starting with a vowel, "a" otherwise. */
  function Article(word: string): (r: string)
    requires |word| > 0
    ensures r == "an" <==> word[0] in "aeiou"
    ensures r == "a" || r == "an"
  {
    if word[0] in ['a', 'e', 'i', 'o', 'u'] then "an" else "a"
  }

  /** `trend_pattern`: compares the last value with the first; `values[-1]` needs a non-empty series. */
  function TrendPattern(values: seq<real>): (r: TrendResult)
    requires |values| > 0
    ensures r.values == values
    ensures r.trend == "upward" <==> values[|values| - 1] > values[0]
    ensures r.trend == "downward" <==> values[|values| - 1] < values[0]
    ensures r.trend == "stable" <==> values[|values| - 1] == values[0]
    ensures r.insight == "The trend analysis indicates " + Article(r.trend) + " " + r.trend + " trend over the dataset."
  {
    var first, last := values[0], values[|values| - 1];
    var trend := if last > first then "upward" else if last < first then "downward" else "stable";
    TrendResult(values, trend, "The trend analysis indicates " + Article(trend) + " " + trend + " trend over the dataset.")
  }

  /** The insight reads "an upward", "a downward" or "a stable" trend. */
  lemma TrendArticles(values: seq<real>)
    requires |values| > 0
    ensures Article(TrendPattern(values).trend) == (if values[|values| - 1] > values[0] then "an" else "a")
  {
    var r := TrendPattern(values);
    if values[|values| - 1] > values[0] {
      assert r.trend[0] == 'u';
    } else if values[|values| - 1] < values[0] {
      assert r.trend[0] == 'd';
    } else {
      assert r.trend[0] == 's';
    }
  }

  datatype ThresholdResult = ThresholdResult(threshold: Option<real>, belowThresholdCount: nat, insight: string)

  const SeveralBelow := "Several values fall below the defined threshold, indicating underperformance."
  const AllAbove := "All values are above the defined threshold."

  /**
   * `threshold_pattern`: an absent threshold defaults to the column mean
   * (`None` in the result is the NaN mean of an empty column, below which no
   * value lies).
   */
  function ThresholdPattern(values: seq<real>, threshold: Option<real>): (r: ThresholdResult)
    ensures threshold.Some? ==> r.threshold == threshold
    ensures threshold.None? ==> r.threshold == Mean(values)
    ensures r.belowThresholdCount == (if r.threshold.Some? then CountLess(values, r.threshold.value) else 0)
    ensures r.belowThresholdCount <= |values|
    ensures r.insight == SeveralBelow <==> r.belowThresholdCount > 0
    ensures r.insight == AllAbove <==> r.belowThresholdCount == 0
  {
    var t := if threshold.Some? then threshold else Mean(values);
    var count := if t.Some? then CountLess(values, t.value) else 0;
    ThresholdResult(t, count, if count > 0 then SeveralBelow else AllAbove)
  }

  /** With the default threshold, a non-empty column never has every value below it. */
  lemma DefaultThresholdLeavesOneAtOrAbove(values: seq<real>)
    requires |values| > 0
    ensures ThresholdPattern(values, None).belowThresholdCount < |values|
  {
    MeanAttained(values);
    var k :| 0 <= k < |values| && values[k] >= Mean(values).value;
    CountLessMissesWitness(values, Mean(values).value, k);
  }
}
