/**
 * The tweet endpoints' decision rules: the mean polarity of a batch of
 * tweets (0 for none), its bullish / bearish / neutral mood with the ±0.1
 * thresholds, the market mood over several symbols, and the response of
 * `analyze_market_sentiment`, with its fixed answer for a search that
 * finds no tweets. Polarity scores and noun phrases come from the text
 * analysis library and are inputs here.
 */
module TweetSentiment {
  import opened Wrappers
  import SentimentRules
  import PriceMentions
  import TextSignals
  import MarketTopics

  /** The mood of a mean polarity. */
  datatype Mood = Bullish | Bearish | Neutral

  /** The string the response carries for a mood. */
  function MoodName(m: Mood): (name: string)
    ensures name == "bullish" <==> m.Bullish?
    ensures name == "bearish" <==> m.Bearish?
    ensures name == "neutral" <==> m.Neutral?
  {
    match m
    case Bullish => "bullish"
    case Bearish => "bearish"
    case Neutral => "neutral"
  }

  /** Above 0.1 is bullish, below -0.1 bearish, anything between neutral. */
  function MoodOf(avg: real): (m: Mood)
    ensures m.Bullish? <==> avg > 0.1
    ensures m.Bearish? <==> avg < -0.1
    ensures m.Neutral? <==> -0.1 <= avg <= 0.1
  {
    if avg > 0.1 then Bullish else if avg < -0.1 then Bearish else Neutral
  }

  /** A bullish mood has a positive sign, a bearish one a negative sign; a zero mean is neutral. */
  lemma MoodAgreesWithSign(avg: real)
    ensures MoodOf(avg).Bullish? ==> SentimentRules.PolarityLabel(avg).Positive?
    ensures MoodOf(avg).Bearish? ==> SentimentRules.PolarityLabel(avg).Negative?
    ensures SentimentRules.PolarityLabel(avg).Neutral? ==> MoodOf(avg).Neutral?
  {
  }

  /**
   * The mood over several symbols: the mean of their scores, divided by the
   * number of symbols; with no symbol the division fails.
   */
  function MarketMood(scores: seq<real>): (r: Option<Mood>)
    ensures r.None? <==> scores == []
  {
    if scores == [] then None else Some(MoodOf(SentimentRules.Mean(scores)))
  }

  /** Every symbol above a bound over 0.1 makes the market bullish. */
  lemma AllAboveIsBullish(scores: seq<real>, lo: real, hi: real)
    requires scores != [] && SentimentRules.AllWithin(scores, lo, hi) && lo > 0.1
    ensures MarketMood(scores) == Some(Bullish)
  {
    SentimentRules.MeanBounds(scores, lo, hi);
  }

  /** Every symbol below a bound under -0.1 makes the market bearish. */
  lemma AllBelowIsBearish(scores: seq<real>, lo: real, hi: real)
    requires scores != [] && SentimentRules.AllWithin(scores, lo, hi) && hi < -0.1
    ensures MarketMood(scores) == Some(Bearish)
  {
    SentimentRules.MeanBounds(scores, lo, hi);
  }

  /** Every symbol within [-0.1, 0.1] makes the market neutral. */
  lemma AllWithinIsNeutral(scores: seq<real>)
    requires scores != [] && SentimentRules.AllWithin(scores, -0.1, 0.1)
    ensures MarketMood(scores) == Some(Neutral)
  {
    SentimentRules.MeanBounds(scores, -0.1, 0.1);
  }

  /** The response of `analyze_market_sentiment`. */
  datatype SentimentResponse = SentimentResponse(
    symbol: string,
    sentimentScore: real,
    sentimentLabel: Mood,
    tweetCount: nat,
    commonTopics: seq<string>,
    priceMentions: multiset<string>,
    bullishRatio: real)

  /** The response for a search that found no tweets. */
  function NoTweetsResponse(symbol: string): (r: SentimentResponse)
    ensures r.symbol == symbol && r.tweetCount == 0
    ensures r.sentimentLabel == MoodOf(r.sentimentScore)
    ensures r.bullishRatio == TextSignals.BullishRatio([])
  {
    SentimentResponse(symbol, 0.0, Neutral, 0, [], multiset{}, 0.5)
  }

  /**
   * The response for the tweets `texts`, with `scores[i]` the polarity of
   * `texts[i]` and `phrases` the noun phrases of the joined texts.
   */
  function TweetsResponse(symbol: string, texts: seq<string>, scores: seq<real>, phrases: seq<string>)
    : (r: SentimentResponse)
    ensures r.symbol == symbol && r.tweetCount == |texts|
    ensures r.sentimentLabel == MoodOf(r.sentimentScore)
    ensures 0.0 <= r.bullishRatio <= 1.0
    ensures |r.commonTopics| <= MarketTopics.DefaultMaxTopics
  {
    var avg := SentimentRules.Mean(scores);
    SentimentResponse(
      symbol, avg, MoodOf(avg), |texts|,
      MarketTopics.ExtractMarketTopics(phrases, MarketTopics.DefaultMaxTopics),
      multiset(PriceMentions.AllMatches(texts)),
      TextSignals.BullishRatio(texts))
  }

  /** `analyze_market_sentiment` once the search has returned `texts`. */
  method AnalyzeTweets(symbol: string, texts: seq<string>, scores: seq<real>, phrases: seq<string>)
    returns (r: SentimentResponse)
    requires |scores| == |texts|
    ensures texts == [] ==> r == NoTweetsResponse(symbol)
    ensures texts != [] ==> r == TweetsResponse(symbol, texts, scores, phrases)
  {
    if texts == [] {
      return NoTweetsResponse(symbol);
    }
    var avg := SentimentRules.Mean(scores);
    var mood := MoodOf(avg);
    var mentions := PriceMentions.ExtractPriceMentions(texts);
    var ratio := TextSignals.CalculateBullishRatio(texts);
    var topics := MarketTopics.ExtractMarketTopics(phrases, MarketTopics.DefaultMaxTopics);
    r := SentimentResponse(symbol, avg, mood, |texts|, topics, mentions, ratio);
  }

  /**
   * What the response promises: the label follows the ±0.1 rule on the
   * score, the ratio lies in [0, 1], every counted price is a price token,
   * and there are at most five topics, each a distinct finance phrase.
   */
  lemma ResponseIsWellFormed(symbol: string, texts: seq<string>, scores: seq<real>, phrases: seq<string>)
    requires |scores| == |texts| && texts != []
    ensures TweetsResponse(symbol, texts, scores, phrases).tweetCount == |texts|
    ensures TweetsResponse(symbol, texts, scores, phrases).sentimentLabel
         == MoodOf(TweetsResponse(symbol, texts, scores, phrases).sentimentScore)
    ensures 0.0 <= TweetsResponse(symbol, texts, scores, phrases).bullishRatio <= 1.0
    ensures forall t :: t in TweetsResponse(symbol, texts, scores, phrases).priceMentions ==> PriceMentions.IsPriceToken(t)
    ensures |TweetsResponse(symbol, texts, scores, phrases).commonTopics| <= 5
    ensures MarketTopics.Distinct(TweetsResponse(symbol, texts, scores, phrases).commonTopics)
    ensures forall t :: t in TweetsResponse(symbol, texts, scores, phrases).commonTopics ==> MarketTopics.IsFinancePhrase(t)
  {
    PriceMentions.AllMatchesAreTokens(texts);
    MarketTopics.TopicsCount(phrases, MarketTopics.DefaultMaxTopics);
    MarketTopics.TopicsAreDistinctFinancePhrases(phrases, MarketTopics.DefaultMaxTopics);
  }

  /**
   * The fixed answer for no tweets is what the general rules give for an
   * empty batch with no phrases: mean 0, neutral, no mentions, ratio 0.5.
   */
  lemma NoTweetsIsTheEmptyCase(symbol: string)
    ensures NoTweetsResponse(symbol) == TweetsResponse(symbol, [], [], [])
  {
    TextSignals.NoHitIsNeutral([]);
    PriceMentions.MentionsAddUp([], []);
  }
}
