/**
 * The `TwitterMarketMCP` service: a per-symbol cache of analysis results
 * with a time-to-live, and the analysis that combines a stock's close-price
 * history with the sentiment of up to ten news headlines.
 *
 * The clock (`time.time()`, `datetime.now()`), the price and news fetches
 * and the headline polarity scorer are outside the model: each clock
 * reading, the close prices, the news articles and the scorer are
 * parameters.
 */
module MarketService {
  import opened Wrappers
  import opened SentimentRules

  /** A news article as fetched: its title and link may be missing. */
  datatype Article = Article(title: Option<string>, link: Option<string>)

  /** One entry of `news_analysis`: the article's title and link and its headline polarity. */
  datatype NewsItem = NewsItem(title: Option<string>, link: Option<string>, sentiment: real)

  datatype SentimentSummary = SentimentSummary(sentimentLabel: Label, score: real)

  /** The result dictionary that `analyze_market_sentiment` returns and caches. */
  datatype MarketAnalysis = MarketAnalysis(
    symbol: string,
    priceTrend: Trend,
    sentiment: SentimentSummary,
    newsAnalysis: seq<NewsItem>,
    overallAssessment: Assessment,
    timestamp: real)

  datatype CacheEntry = CacheEntry(timestamp: real, data: MarketAnalysis)

  /** The `ValueError` raised when a symbol has no price history. */
  datatype AnalysisError = NoDataFound(symbol: string)

  /** At most this many news articles are scored. */
  const MaxNewsItems: nat := 10

  /** The read test of `get_cached_sentiment`: strictly younger than the cache duration. */
  predicate IsFresh(e: CacheEntry, now: real, duration: int)
  {
    now - e.timestamp < duration as real
  }

  /** The sweep test of `cache_sentiment`: strictly older than the cache duration. */
  predicate IsExpired(e: CacheEntry, now: real, duration: int)
  {
    now - e.timestamp > duration as real
  }

  /** What `get_cached_sentiment` returns for `symbol` at time `now`. */
  function Lookup(cache: map<string, CacheEntry>, symbol: string, now: real, duration: int)
    : (r: Option<MarketAnalysis>)
    ensures r.Some? <==> symbol in cache && IsFresh(cache[symbol], now, duration)
    ensures r.Some? ==> r.value == cache[symbol].data
  {
    if symbol in cache && IsFresh(cache[symbol], now, duration) then Some(cache[symbol].data) else None
  }

  /**
   * The cache after `cache_sentiment(symbol, data)`: the entry is written
   * with the clock reading `writeTime`, then every entry expired at the
   * second clock reading `sweepTime` is deleted.
   */
  function Store(cache: map<string, CacheEntry>, symbol: string, data: MarketAnalysis,
                 writeTime: real, sweepTime: real, duration: int): (r: map<string, CacheEntry>)
    ensures symbol in r <==> sweepTime - writeTime <= duration as real
    ensures symbol in r ==> r[symbol] == CacheEntry(writeTime, data)
    ensures forall k :: k in r ==> !IsExpired(r[k], sweepTime, duration)
    ensures forall k :: k != symbol ==>
              (k in r <==> k in cache && !IsExpired(cache[k], sweepTime, duration))
    ensures forall k :: k != symbol && k in r ==> r[k] == cache[k]
  {
    var written := cache[symbol := CacheEntry(writeTime, data)];
    map k | k in written && !IsExpired(written[k], sweepTime, duration) :: written[k]
  }

  /**
   * Round trip: a value written at `writeTime` and swept at `sweepTime` is
   * read back at any later instant exactly while it is younger than the
   * cache duration. Read at the write instant itself, it comes back exactly
   * when the duration is positive.
   */
  lemma StoreThenLookup(cache: map<string, CacheEntry>, symbol: string, data: MarketAnalysis,
                        writeTime: real, sweepTime: real, readTime: real, duration: int)
    requires writeTime <= sweepTime <= readTime
    ensures Lookup(Store(cache, symbol, data, writeTime, sweepTime, duration), symbol, readTime, duration)
            == if readTime - writeTime < duration as real then Some(data) else None
  {
  }

  /** A stored value stops being returned once a full cache duration has passed since its write. */
  lemma StoredValueExpires(cache: map<string, CacheEntry>, symbol: string, data: MarketAnalysis,
                           writeTime: real, sweepTime: real, later: real, duration: int)
    requires later - writeTime >= duration as real
    ensures Lookup(Store(cache, symbol, data, writeTime, sweepTime, duration), symbol, later, duration) == None
  {
  }

  /**
   * The boundary between the two tests: an entry exactly one cache duration
   * old is no longer returned by a read, yet survives the sweep of a write
   * to another symbol, unchanged.
   */
  lemma BoundaryAgeIsUnreadableButKept(cache: map<string, CacheEntry>, symbol: string,
                                       other: string, data: MarketAnalysis, writeTime: real, now: real,
                                       duration: int)
    requires symbol in cache && now - cache[symbol].timestamp == duration as real
    requires other != symbol
    ensures Lookup(cache, symbol, now, duration) == None
    ensures var after := Store(cache, other, data, writeTime, now, duration);
            symbol in after && after[symbol] == cache[symbol]
  {
  }

  /** The scored entry of one article: its title (or "" when missing) is given to the scorer. */
  function ScoreArticle(a: Article, polarity: string -> real): (item: NewsItem)
    ensures item.title == a.title && item.link == a.link
    ensures a.title.Some? ==> item.sentiment == polarity(a.title.value)
    ensures a.title.None? ==> item.sentiment == polarity("")
  {
    NewsItem(a.title, a.link, polarity(a.title.GetOr("")))
  }

  /** `news[:10]`. */
  function Headlines(news: seq<Article>): (r: seq<Article>)
    ensures |r| <= MaxNewsItems
    ensures |r| == if |news| < MaxNewsItems then |news| else MaxNewsItems
    ensures r == news[..|r|]
  {
    if |news| < MaxNewsItems then news else news[..MaxNewsItems]
  }

  /** The scored entries of the first ten articles, in order. */
  function ScoredHeadlines(news: seq<Article>, polarity: string -> real): (items: seq<NewsItem>)
    ensures |items| <= MaxNewsItems && |items| == |Headlines(news)|
    ensures forall i :: 0 <= i < |items| ==> items[i] == ScoreArticle(news[i], polarity)
  {
    var headlines := Headlines(news);
    seq(|headlines|, i requires 0 <= i < |headlines| => ScoreArticle(headlines[i], polarity))
  }

  function Sentiments(items: seq<NewsItem>): (s: seq<real>)
    ensures |s| == |items| && forall i :: 0 <= i < |items| ==> s[i] == items[i].sentiment
  {
    seq(|items|, i requires 0 <= i < |items| => items[i].sentiment)
  }

  /**
   * The result `analyze_market_sentiment` assembles from the trend and the
   * scored news, stamped with the clock reading `stampTime`.
   */
  function Analysis(symbol: string, trend: Trend, items: seq<NewsItem>, stampTime: real): (r: MarketAnalysis)
    ensures r.symbol == symbol && r.priceTrend == trend && r.newsAnalysis == items && r.timestamp == stampTime
    ensures r.sentiment.sentimentLabel == PolarityLabel(r.sentiment.score)
    ensures r.overallAssessment == Assess(r.sentiment.score, trend)
    ensures items == [] ==> r.sentiment.score == 0.0
  {
    var avg := Mean(Sentiments(items));
    MarketAnalysis(symbol, trend, SentimentSummary(PolarityLabel(avg), avg), items, Assess(avg, trend), stampTime)
  }

  /** With no news at all the score is 0, the label neutral and the assessment mixed. */
  lemma NoNewsIsNeutral(symbol: string, trend: Trend, now: real)
    ensures Analysis(symbol, trend, [], now).sentiment == SentimentSummary(Neutral, 0.0)
    ensures Analysis(symbol, trend, [], now).overallAssessment == MixedOrNeutral
  {
  }

  /** Headline polarities in [-1, 1] give an average score in [-1, 1]. */
  lemma ScoreWithinPolarityRange(symbol: string, trend: Trend, items: seq<NewsItem>, now: real)
    requires forall i :: 0 <= i < |items| ==> -1.0 <= items[i].sentiment <= 1.0
    ensures -1.0 <= Analysis(symbol, trend, items, now).sentiment.score <= 1.0
  {
    if items != [] {
      MeanBounds(Sentiments(items), -1.0, 1.0);
    }
  }

  /** The service object; `cache` is the dictionary `self.cache` it updates in place. */
  class TwitterMarketMcp {
    const cacheDuration: int
    var cache: map<string, CacheEntry>

    constructor (cacheDuration: int := 3600)
      ensures this.cacheDuration == cacheDuration && cache == map[]
    {
      this.cacheDuration := cacheDuration;
      cache := map[];
    }

    /** `get_cached_sentiment`, with the clock reading passed in as `now`. */
    method GetCachedSentiment(symbol: string, now: real) returns (r: Option<MarketAnalysis>)
      ensures r == Lookup(cache, symbol, now, cacheDuration)
    {
      if symbol in cache {
        var entry := cache[symbol];
        if now - entry.timestamp < cacheDuration as real {
          return Some(entry.data);
        }
      }
      return None;
    }

    /**
     * `cache_sentiment`: insert the entry stamped `writeTime`, collect the
     * keys of every entry expired at the second reading `sweepTime`, then
     * delete them one by one.
     */
    method CacheSentiment(symbol: string, data: MarketAnalysis, writeTime: real, sweepTime: real)
      modifies this
      ensures cache == Store(old(cache), symbol, data, writeTime, sweepTime, cacheDuration)
    {
      cache := cache[symbol := CacheEntry(writeTime, data)];
      ghost var written := cache;
      var expiredKeys := set k | k in cache && IsExpired(cache[k], sweepTime, cacheDuration);
      var remaining := expiredKeys;
      while remaining != {}
        invariant remaining <= expiredKeys
        invariant cache == written - (expiredKeys - remaining)
        decreases remaining
      {
        var k :| k in remaining;
        cache := cache - {k};
        remaining := remaining - {k};
      }
      assert cache == written - expiredKeys;
    }

    /**
     * The headline loop of `analyze_market_sentiment`: score each of the first ten articles,
     * collecting the polarities and the news entries side by side.
     */
    method ScoreHeadlines(news: seq<Article>, polarity: string -> real)
      returns (newsItems: seq<NewsItem>, sentiments: seq<real>)
      ensures newsItems == ScoredHeadlines(news, polarity)
      ensures sentiments == Sentiments(newsItems)
    {
      sentiments := [];
      newsItems := [];
      var headlines := Headlines(news);
      for i := 0 to |headlines|
        invariant newsItems == ScoredHeadlines(news, polarity)[..i]
        invariant sentiments == Sentiments(newsItems)
      {
        var sentiment := polarity(headlines[i].title.GetOr(""));
        sentiments := sentiments + [sentiment];
        newsItems := newsItems + [NewsItem(headlines[i].title, headlines[i].link, sentiment)];
      }
    }

    /**
     * `analyze_market_sentiment`: a fresh cached result is returned as it
     * is; otherwise an empty price history is an error and nothing is
     * cached; otherwise the first ten headlines are scored, the result is
     * assembled, cached and returned.
     *
     * Each clock reading is its own parameter: `now` for the cache read,
     * `stampTime` for the result's timestamp, `writeTime` and `sweepTime`
     * for the two readings of the cache write.
     */
    method AnalyzeMarketSentiment(symbol: string, now: real, stampTime: real, writeTime: real, sweepTime: real,
                                  closes: seq<real>, news: seq<Article>, polarity: string -> real)
      returns (r: Result<MarketAnalysis, AnalysisError>)
      modifies this
      ensures old(Lookup(cache, symbol, now, cacheDuration)).Some? ==>
                r == Success(old(Lookup(cache, symbol, now, cacheDuration)).value) && cache == old(cache)
      ensures old(Lookup(cache, symbol, now, cacheDuration)).None? && closes == [] ==>
                r == Failure(NoDataFound(symbol)) && cache == old(cache)
      ensures old(Lookup(cache, symbol, now, cacheDuration)).None? && closes != [] ==>
                && r == Success(Analysis(symbol, TrendOf(closes), ScoredHeadlines(news, polarity), stampTime))
                && cache == Store(old(cache), symbol, r.value, writeTime, sweepTime, cacheDuration)
    {
      var cached := GetCachedSentiment(symbol, now);
      if cached.Some? {
        return Success(cached.value);
      }
      if closes == [] {
        return Failure(NoDataFound(symbol));
      }
      var trend := TrendOf(closes);
      var newsItems, sentiments := ScoreHeadlines(news, polarity);
      var avg := Mean(sentiments);
      var result := MarketAnalysis(symbol, trend, SentimentSummary(PolarityLabel(avg), avg),
                                   newsItems, Assess(avg, trend), stampTime);
      CacheSentiment(symbol, result, writeTime, sweepTime);
      return Success(result);
    }
  }
}
