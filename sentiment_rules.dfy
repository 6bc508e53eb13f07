/**
 * The pure decision rules shared by the sentiment services: the mean of a
 * list of polarity scores (0 for an empty list), the three-way sign label,
 * the price trend of a close-price history and the five-branch market
 * assessment that combines the two.
 */
module SentimentRules {

  /** Python's `sum` over a list of scores, added from the left. */
  function Sum(xs: seq<real>): real
  {
    if xs == [] then 0.0 else Sum(xs[..|xs| - 1]) + xs[|xs| - 1]
  }

  /** `sum(xs) / len(xs) if xs else 0`. */
  function Mean(xs: seq<real>): (m: real)
    ensures xs == [] ==> m == 0.0
  {
    if xs == [] then 0.0 else Sum(xs) / (|xs| as real)
  }

  /** Every score lies in the closed interval [lo, hi]. */
  predicate AllWithin(xs: seq<real>, lo: real, hi: real)
  {
    forall i :: 0 <= i < |xs| ==> lo <= xs[i] <= hi
  }

  lemma {:induction false} SumBounds(xs: seq<real>, lo: real, hi: real)
    requires AllWithin(xs, lo, hi)
    ensures (|xs| as real) * lo <= Sum(xs) <= (|xs| as real) * hi
  {
    if xs != [] {
      var n := |xs| - 1;
      SumBounds(xs[..n], lo, hi);
      assert (|xs| as real) * lo == (n as real) * lo + lo;
      assert (|xs| as real) * hi == (n as real) * hi + hi;
    }
  }

  /** The mean of scores that all lie in [lo, hi] lies in [lo, hi]. */
  lemma MeanBounds(xs: seq<real>, lo: real, hi: real)
    requires xs != [] && AllWithin(xs, lo, hi)
    ensures lo <= Mean(xs) <= hi
  {
    var n := |xs| as real;
    SumBounds(xs, lo, hi);
    var m := Mean(xs);
    assert m * n == Sum(xs);
  }

  lemma {:induction false} SumBelowMax(xs: seq<real>, hi: real, j: nat)
    requires forall i :: 0 <= i < |xs| ==> xs[i] <= hi
    requires j < |xs| && xs[j] < hi
    ensures Sum(xs) < (|xs| as real) * hi
  {
    var n := |xs| - 1;
    assert (|xs| as real) * hi == (n as real) * hi + hi;
    if j == n {
      UpperSum(xs[..n], hi);
    } else {
      SumBelowMax(xs[..n], hi, j);
    }
  }

  lemma UpperSum(xs: seq<real>, hi: real)
    requires forall i :: 0 <= i < |xs| ==> xs[i] <= hi
    ensures Sum(xs) <= (|xs| as real) * hi
  {
    var lo := if xs == [] then 0.0 else Min(xs);
    SumBounds(xs, lo, hi);
  }

  function Min(xs: seq<real>): (m: real)
    requires xs != []
    ensures forall i :: 0 <= i < |xs| ==> m <= xs[i]
  {
    if |xs| == 1 then xs[0]
    else var r := Min(xs[1..]); if xs[0] < r then xs[0] else r
  }

  /** The three-way label of `analyze_market_sentiment`: positive above 0, negative below 0. */
  datatype Label = Positive | Negative | Neutral

  function PolarityLabel(avg: real): (l: Label)
    ensures l == Positive <==> avg > 0.0
    ensures l == Negative <==> avg < 0.0
    ensures l == Neutral <==> avg == 0.0
  {
    if avg > 0.0 then Positive else if avg < 0.0 then Negative else Neutral
  }

  /** The string the result carries for a label. */
  function LabelName(l: Label): (name: string)
    ensures name == "positive" <==> l.Positive?
    ensures name == "negative" <==> l.Negative?
    ensures name == "neutral" <==> l.Neutral?
  {
    match l
    case Positive => "positive"
    case Negative => "negative"
    case Neutral => "neutral"
  }

  datatype Trend = Upward | Downward

  /** "upward" when the last close is strictly above the mean close. */
  function TrendOf(closes: seq<real>): (t: Trend)
    requires closes != []
    ensures |closes| == 1 ==> t == Downward
  {
    assert |closes| == 1 ==> Sum(closes) == closes[0];
    if closes[|closes| - 1] > Mean(closes) then Upward else Downward
  }

  /**
   * An upward trend needs an earlier close strictly below the last one; in
   * particular a single close or a flat history is "downward".
   */
  lemma UpwardNeedsEarlierLowerClose(closes: seq<real>)
    requires closes != []
    ensures TrendOf(closes) == Upward ==>
      exists i :: 0 <= i < |closes| - 1 && closes[i] < closes[|closes| - 1]
  {
    var last := closes[|closes| - 1];
    if forall i :: 0 <= i < |closes| - 1 ==> closes[i] >= last {
      MeanBounds(closes, last, Max(closes));
    }
  }

  /** A history whose last close is a strict new high is "upward". */
  lemma NewHighIsUpward(closes: seq<real>)
    requires |closes| >= 2
    requires forall i :: 0 <= i < |closes| - 1 ==> closes[i] < closes[|closes| - 1]
    ensures TrendOf(closes) == Upward
  {
    var last := closes[|closes| - 1];
    var n := |closes| as real;
    SumBelowMax(closes, last, 0);
    var m := Mean(closes);
    assert m * n == Sum(closes);
  }

  function Max(xs: seq<real>): (m: real)
    requires xs != []
    ensures forall i :: 0 <= i < |xs| ==> xs[i] <= m
  {
    if |xs| == 1 then xs[0]
    else var r := Max(xs[1..]); if xs[0] > r then xs[0] else r
  }

  /** The qualitative assessment that ends `analyze_market_sentiment`. */
  datatype Assessment =
    | StrongBullish
    | ModeratelyBullish
    | StrongBearish
    | ModeratelyBearish
    | MixedOrNeutral

  /**
   * The branches are tested in order; the contract states, for each outcome,
   * exactly the inputs that reach it once the earlier branches have failed.
   */
  function Assess(avg: real, trend: Trend): (a: Assessment)
    ensures a == StrongBullish <==> avg > 0.2 && trend.Upward?
    ensures a == ModeratelyBullish <==> 0.0 < avg <= 0.2 && trend.Upward?
    ensures a == StrongBearish <==> avg < -0.2 && trend.Downward?
    ensures a == ModeratelyBearish <==> -0.2 <= avg < 0.0 && trend.Downward?
    ensures a == MixedOrNeutral <==>
      (trend.Upward? && avg <= 0.0) || (trend.Downward? && avg >= 0.0)
  {
    if avg > 0.2 && trend == Upward then StrongBullish
    else if avg > 0.0 && trend == Upward then ModeratelyBullish
    else if avg < -0.2 && trend == Downward then StrongBearish
    else if avg < 0.0 && trend == Downward then ModeratelyBearish
    else MixedOrNeutral
  }

  function AssessmentText(a: Assessment): (text: string)
    ensures text == "Strong bullish sentiment with positive momentum" <==> a.StrongBullish?
    ensures text == "Moderately bullish sentiment" <==> a.ModeratelyBullish?
    ensures text == "Strong bearish sentiment with negative momentum" <==> a.StrongBearish?
    ensures text == "Moderately bearish sentiment" <==> a.ModeratelyBearish?
    ensures text == "Mixed or neutral market sentiment" <==> a.MixedOrNeutral?
  {
    match a
    case StrongBullish => "Strong bullish sentiment with positive momentum"
    case ModeratelyBullish => "Moderately bullish sentiment"
    case StrongBearish => "Strong bearish sentiment with negative momentum"
    case ModeratelyBearish => "Moderately bearish sentiment"
    case MixedOrNeutral => "Mixed or neutral market sentiment"
  }

  /**
   * The assessment never contradicts the sign label: a bullish wording needs
   * a positive label, a bearish one a negative label, and a neutral label
   * always gives the mixed wording.
   */
  lemma AssessmentAgreesWithLabel(avg: real, trend: Trend)
    ensures Assess(avg, trend) in {StrongBullish, ModeratelyBullish} ==> PolarityLabel(avg) == Positive
    ensures Assess(avg, trend) in {StrongBearish, ModeratelyBearish} ==> PolarityLabel(avg) == Negative
    ensures PolarityLabel(avg) == Neutral ==> Assess(avg, trend) == MixedOrNeutral
  {
  }
}
