# Twitter market MCP server: verified model of its decision logic

This project is a Dafny model of the sequential logic inside the Twitter/market
MCP server. The server answers market-sentiment questions about stock symbols
from tweets, news headlines and price histories. The model covers these parts:

- **`RateLimiter`** (`RateLimiting`, `rate_limiter.dfy`) is the per-client
  sliding-window limiter. Each call first prunes stale timestamps of *every*
  client, not only the caller's. It then creates an empty list for an unseen client. Finally it refuses
  the caller, or admits it and appends `now`. With `window_seconds <= 0` and a
  positive limit it admits every call of a same-instant burst when the caller has
  no stored time after `now`, because the time a call records has already left
  the window when the next call prunes. A stored time later than
  `now - window_seconds` (possible once the wall clock is set back) survives the
  prune and counts against the caller. The class keeps the table as a
  `map<string, seq<real>>` that its method reassigns. It is proved against the
  function `Admit`, which states one call's decision and resulting table.
- **`TwitterMarketMCP`** (`MarketService`, `market_service.dfy`) is the TTL
  cache of analysis results and the news-based analysis around it.
  - Reads treat an entry as fresh when its age is strictly below the duration.
  - Writes insert, then sweep entries whose age is strictly above it.
  - The analysis returns a fresh cached result unchanged. With no price history it
    fails and caches nothing. Otherwise it scores at most ten headlines, builds
    the result, caches it and returns it.
- **Shared decision rules** (`SentimentRules`, `sentiment_rules.dfy`):
  - the mean-or-0 average;
  - the three-way sign label;
  - the "last close above mean close" trend;
  - the ordered five-branch assessment.
- **Tweet text signals**:
  - `PriceMentions` (`price_mentions.dfy`) scans texts for the price pattern
    `\$\d+\.?\d*|\d+\.?\d*\$`. It is specified as a leftmost-longest,
    non-overlapping scan, and the matches are counted in a multiset.
  - `TextSignals` (`text_signals.dfy`) holds the bullish ratio: case-insensitive
    substring hits of two lexicons, counted per text, with 0.5 when nothing hits.
  - `MarketTopics` (`market_topics.dfy`) holds the topic extractor. It filters
    finance phrases, removes duplicates, sorts longest first and applies Python's
    `[:max_topics]`.
- **`TweetSentiment`** (`tweet_sentiment.dfy`) holds the endpoint rules: the ±0.1
  bullish/bearish/neutral mood, the market mood over several symbols, and the
  `analyze_market_sentiment` response, including its fixed answer when no tweets
  are found.

Clock readings, network fetches and the text-analysis library (polarity scores
and noun phrases) are parameters of the model; each separate clock reading of
the source is a separate parameter. Timestamps and scores are `real`.

## Model

| member | source | states |
|---|---|---|
| RateLimiting.RateLimiter.constructor | src/services/rate_limiter.py:10-13 | Defaults are 100 requests per 3600 seconds, the table starts empty, and the bound invariant holds. |
| RateLimiting.RateLimiter.IsAllowed | src/services/rate_limiter.py:15-34 | The answer and the new table are those of `Admit` on the old table. No list exceeds the limit afterwards. With a positive window, every stored time of every client is less than a window old. |
| RateLimiting.Prune | src/services/rate_limiter.py:21-22 | The filtered list is never longer than the original. |
| RateLimiting.PruneKeepsExactlyTheRecent | src/services/rate_limiter.py:20-24 | A time survives the prune exactly when `now - t < window`. The pruned list is an in-order subsequence of the old one and no longer. |
| RateLimiting.PruneKeepsRecentList | src/services/rate_limiter.py:20-24 | A list whose times are all inside the window is unchanged by the prune. |
| RateLimiting.PruneDropsStaleList | src/services/rate_limiter.py:20-24 | A list whose times are all a full window old is emptied. |
| RateLimiting.PruneAll | src/services/rate_limiter.py:20-24 | The prune-all update keeps exactly the same client keys. |
| RateLimiting.Admit | src/services/rate_limiter.py:15-34 | One call is admitted exactly when the caller's pruned list is shorter than the limit, and the caller has an entry in the table afterwards. |
| RateLimiting.AdmitInSteps | src/services/rate_limiter.py:20-34 | The prune, then an empty entry for an unseen caller, then refusal or an append, in the source's order, give exactly `Admit`'s answer and table. |
| RateLimiting.AdmitDecision | src/services/rate_limiter.py:27-34 | The call is refused exactly when the caller's pruned list has at least `limit` entries. On refusal nothing is appended; on admission `now` is appended at the end. The caller always has an entry afterwards, even when refused, and no key is removed. |
| RateLimiting.OthersOnlyPruned | src/services/rate_limiter.py:20-24 | Every other client's list is only filtered. It stays in order, holds only its own recent times and is never appended to. |
| RateLimiting.AdmitLeavesOnlyRecent | src/services/rate_limiter.py:20-24 | With a positive window, after any call every stored time of every client is inside the window. |
| RateLimiting.AdmitKeepsBound | src/services/rate_limiter.py:30-34 | The bound invariant is preserved: no list grows past the limit (a non-positive limit allows none). |
| RateLimiting.Copies | src/services/rate_limiter.py:33 | `k` appends of the same instant give a list of length `k` holding only that instant. |
| RateLimiting.BurstTableHoldsCopies | src/services/rate_limiter.py:15-34 | With a positive window, after `n` calls at one instant, the pruned list of a client with no recent calls is `min(n, limit)` copies of that instant, or empty when the limit is negative. |
| RateLimiting.LastOfBurst | src/services/rate_limiter.py:30-34 | With a positive window, the `n`-th call of such a burst is admitted exactly when `n - 1 < limit`. |
| RateLimiting.AnswerIsFixed | src/services/rate_limiter.py:15-34 | The answer to the `k`-th call of a burst does not depend on how many calls follow it. |
| RateLimiting.AnswerOfBurst | src/services/rate_limiter.py:15-34 | With a positive window and a client with no recent calls, the `k`-th call of a same-instant burst is admitted exactly when `k < limit`. |
| RateLimiting.BurstAdmitsExactlyLimit | src/services/rate_limiter.py:15-34 | With a positive window and a fixed `now`, the first `limit` calls of a client with no recent calls succeed and every later one fails. |
| RateLimiting.ClosedWindowEmptiesOwnList | src/services/rate_limiter.py:20-24 | With a window of zero or less and no stored time after `now`, the caller's pruned list is empty. |
| RateLimiting.ClosedWindowStep | src/services/rate_limiter.py:15-34 | With a window of zero or less and a positive limit, a caller with no stored time after `now` is admitted, and still has no time after `now`. |
| RateLimiting.ClosedWindowNext | src/services/rate_limiter.py:15-34 | Under those conditions, one more call of a burst keeps every stored time of the caller at or before `now`. |
| RateLimiting.ClosedWindowTable | src/services/rate_limiter.py:15-34 | Under those conditions, a burst of any length keeps every stored time of the caller at or before `now`. |
| RateLimiting.ClosedWindowAdmitsEveryCall | src/services/rate_limiter.py:15-34 | With a window of zero or less and a positive limit, when the caller has no stored time after `now`, every call of a same-instant burst is admitted, however many there are. |
| RateLimiting.RecoversAfterWindow | src/services/rate_limiter.py:20-31 | With a positive limit, a client whose calls are all a full window old is admitted again. |
| SentimentRules.Mean | src/services/twitter_market_mcp.py:112 | The mean of an empty list is 0. |
| SentimentRules.SumBounds | src/services/twitter_market_mcp.py:112 | The sum of `n` scores in [lo, hi] lies in [n·lo, n·hi]. |
| SentimentRules.MeanBounds | src/services/twitter_market_mcp.py:112 | The mean of a non-empty list of scores in [lo, hi] lies in [lo, hi]. |
| SentimentRules.PolarityLabel | src/services/twitter_market_mcp.py:113 | The label is positive iff avg > 0, negative iff avg < 0, and neutral iff avg == 0. |
| SentimentRules.LabelName | src/services/twitter_market_mcp.py:113 | Each label has its own result string: "positive", "negative" or "neutral". |
| SentimentRules.TrendOf | src/services/twitter_market_mcp.py:97 | A history of one close is always downward, since the close equals its mean. |
| SentimentRules.UpwardNeedsEarlierLowerClose | src/services/twitter_market_mcp.py:97 | An upward trend needs an earlier close strictly below the last one. A single close or a flat history is downward. |
| SentimentRules.NewHighIsUpward | src/services/twitter_market_mcp.py:97 | With at least two closes, a last close strictly above every earlier close gives an upward trend. |
| SentimentRules.Assess | src/services/twitter_market_mcp.py:128-137 | For each of the five outcomes, it gives exactly the (avg, trend) inputs that reach it once the earlier branches have failed. |
| SentimentRules.AssessmentText | src/services/twitter_market_mcp.py:128-137 | Each of the five assessments has its own wording, and each wording belongs to exactly one assessment. |
| SentimentRules.AssessmentAgreesWithLabel | src/services/twitter_market_mcp.py:113-137 | A bullish assessment implies a positive label and a bearish one a negative label. A neutral label always gives the mixed assessment. |
| MarketService.TwitterMarketMcp.constructor | src/services/twitter_market_mcp.py:18-20 | The cache starts empty; the duration defaults to 3600. |
| MarketService.Lookup | src/services/twitter_market_mcp.py:31-37 | The read returns the stored data iff the symbol is present and `now - timestamp < duration`; otherwise it returns nothing. |
| MarketService.TwitterMarketMcp.GetCachedSentiment | src/services/twitter_market_mcp.py:31-37 | The method returns `Lookup` of the current cache. |
| MarketService.Store | src/services/twitter_market_mcp.py:39-54 | The written symbol holds `(writeTime, data)` and is kept iff it is not already expired at the sweep's clock reading. No remaining entry is expired at that reading. Every other entry is kept unchanged iff it is not expired. |
| MarketService.TwitterMarketMcp.CacheSentiment | src/services/twitter_market_mcp.py:39-54 | Insert-then-delete-loop leaves the cache equal to `Store` of the old cache. |
| MarketService.StoreThenLookup | src/services/twitter_market_mcp.py:35-51 | Round trip: a read at or after the sweep returns the written data exactly while it is younger than the duration. Read at the write instant, it comes back iff the duration is positive. |
| MarketService.StoredValueExpires | src/services/twitter_market_mcp.py:35-51 | A read a full duration or more after the write returns nothing. |
| MarketService.BoundaryAgeIsUnreadableButKept | src/services/twitter_market_mcp.py:35-51 | An entry exactly one duration old is refused by the read but survives the sweep of a write to another symbol, unchanged. |
| MarketService.Headlines | src/services/twitter_market_mcp.py:103 | `news[:10]`: the first `min(len, 10)` articles, in order. |
| MarketService.ScoreArticle | src/services/twitter_market_mcp.py:104-110 | An entry keeps the article's title and link. Its polarity is that of the title, or of "" when the title is missing. |
| MarketService.ScoredHeadlines | src/services/twitter_market_mcp.py:101-110 | At most ten entries; entry `i` is article `i`'s title and link with the polarity of its title, or of "" when the title is missing. |
| MarketService.Sentiments | src/services/twitter_market_mcp.py:105 | The scores list holds the entries' polarities in order. |
| MarketService.Analysis | src/services/twitter_market_mcp.py:112-137 | The result carries the symbol, trend, news items and timestamp it was given. Its label is the sign label of its score and its assessment is `Assess` of its score and trend. With no news the score is 0. |
| MarketService.TwitterMarketMcp.ScoreHeadlines | src/services/twitter_market_mcp.py:101-110 | The append loop builds exactly `ScoredHeadlines` and its polarities. |
| MarketService.NoNewsIsNeutral | src/services/twitter_market_mcp.py:112-137 | With no news the score is 0, the label neutral and the assessment mixed. |
| MarketService.ScoreWithinPolarityRange | src/services/twitter_market_mcp.py:112 | Headline polarities in [-1, 1] give a score in [-1, 1]. |
| MarketService.TwitterMarketMcp.AnalyzeMarketSentiment | src/services/twitter_market_mcp.py:81-141 | A result that is fresh at the read's clock reading is returned, with the cache untouched. On a miss, an empty history fails with `NoDataFound` and caches nothing. Otherwise it returns the trend, label, score, items and assessment of the first ten headlines, stamped with its own clock reading. The cache becomes `Store` of it at the write's two clock readings. |
| PriceMentions.DigitsEnd | src/twitter_mcp.py:83 | `\d+` from `j`: the end of the maximal run of digits. |
| PriceMentions.MatchEnd | src/twitter_mcp.py:83 | A match found at `i` ends after `i` and within the text. |
| PriceMentions.IsPriceToken | src/twitter_mcp.py:83 | A price token has exactly one `$`, at its start or at its end. Everything between the ends is digits and dots. |
| PriceMentions.MatchIsToken | src/twitter_mcp.py:83 | Every match is in the language of the pattern: `$` then a number, or a number then `$`. |
| PriceMentions.MatchIsLongest | src/twitter_mcp.py:83 | No token starting at `i` is longer than the match there, and none exists when no match is found. |
| PriceMentions.DollarFirstIsLongest | src/twitter_mcp.py:83 | For `\$\d+\.?\d*`, the greedy match reaches at least the end of every token of that form. |
| PriceMentions.DollarLastIsLongest | src/twitter_mcp.py:83 | For `\d+\.?\d*\$`, the only match ends at the token's `$`. |
| PriceMentions.Matches | src/twitter_mcp.py:86 | The spans of `re.findall` lie in the text, in order, without overlap. |
| PriceMentions.MatchesScan | src/twitter_mcp.py:86 | Each span is the match at its start, and no match starts in any gap. |
| PriceMentions.MatchesAreLeftmostLongest | src/twitter_mcp.py:86 | Each span is a longest token at its start, and no token starts in a gap before or after the spans. |
| PriceMentions.FindAll | src/twitter_mcp.py:86 | Every string `findall` returns is a price token. |
| PriceMentions.SkipsNonStarts | src/twitter_mcp.py:86 | Characters that are neither `$` nor digits are skipped. |
| PriceMentions.SingleMatch | src/twitter_mcp.py:86 | A text with one possible start yields exactly the match there. |
| PriceMentions.ConcatMapOfConcat | src/twitter_mcp.py:85-87 | Extending `prices` text by text: the result for a concatenated list is the concatenation of the results. |
| PriceMentions.MentionsAddUp | src/twitter_mcp.py:84-88 | The count of a list is the multiset sum of its parts' counts. The empty list counts nothing. The counts add up to the number of matches. |
| PriceMentions.AllMatches | src/twitter_mcp.py:84-87 | No texts give no prices. A single text gives exactly its `findall`. |
| PriceMentions.AllMatchesAreTokens | src/twitter_mcp.py:84-88 | Every counted string is a price token. |
| PriceMentions.ExtractPriceMentions | src/twitter_mcp.py:81-88 | The loop's counts are the multiset of all matches of all texts, each a price token. |
| PriceMentions.ExtractExample | src/twitter_mcp.py:81-88 | ["price is $10", "$10 again", "$12"] counts "$10" twice and "$12" once. |
| TextSignals.LowerChar | src/twitter_mcp.py:98 | ASCII capitals map to their lower-case letter; every other character is unchanged. |
| TextSignals.Lower | src/twitter_mcp.py:98 | `lower()` keeps the length and lowers every character. |
| TextSignals.ContainsIffOccurs | src/twitter_mcp.py:99 | The substring search succeeds exactly when the word occurs at some position. |
| TextSignals.CountMentioning | src/twitter_mcp.py:97-102 | Each text adds at most one, so the count is at most the number of texts. |
| TextSignals.CountZeroIff | src/twitter_mcp.py:97-102 | A count is 0 exactly when no text hits the lexicon. |
| TextSignals.CountFullIff | src/twitter_mcp.py:97-102 | A count equals the number of texts exactly when every text hits the lexicon. |
| TextSignals.CountOfConcat | src/twitter_mcp.py:97-102 | The count of a list is the sum of its parts' counts. |
| TextSignals.Ratio | src/twitter_mcp.py:104-105 | The ratio is in [0, 1]. It is 1 iff only bullish hits, 0 iff only bearish hits, 0.5 iff the counts are equal (both zero included), and above 0.5 iff bullish hits exceed bearish ones. |
| TextSignals.MentionsAny | src/twitter_mcp.py:98-101 | A text mentions a lexicon exactly when some word of the lexicon occurs at some position of the lower-cased text. |
| TextSignals.BullishRatio | src/twitter_mcp.py:97-105 | The ratio of a list of texts lies in [0, 1], and is 0.5 for no texts. |
| TextSignals.CalculateBullishRatio | src/twitter_mcp.py:90-105 | The counting loop returns `BullishRatio` of the texts, which lies in [0, 1]. |
| TextSignals.NoHitIsNeutral | src/twitter_mcp.py:104-105 | If no text hits either lexicon, the empty list included, the ratio is 0.5. |
| TextSignals.AllBullishIsOne | src/twitter_mcp.py:97-105 | A non-empty list of texts that all hit only bullish words give 1.0. |
| TextSignals.AllBearishIsZero | src/twitter_mcp.py:97-105 | A non-empty list of texts that all hit only bearish words give 0.0. |
| TextSignals.OneTextAddsAtMostOne | src/twitter_mcp.py:99-102 | One more text adds at most 1 to each count and may add to both. |
| TextSignals.LowerKeepsLowerCase | src/twitter_mcp.py:98 | Text without capitals is unchanged by `lower()`. |
| TextSignals.MentionedAt | src/twitter_mcp.py:99 | A lower-case text in which a lexicon word occurs hits that lexicon. |
| TextSignals.SubstringHit | src/twitter_mcp.py:94-99 | "support" is bullish through "up". |
| TextSignals.BothLexiconsInOneText | src/twitter_mcp.py:97-105 | A single text hitting both lexicons counts toward both, giving 0.5. |
| MarketTopics.FinancePhrases | src/twitter_mcp.py:112-113 | Exactly the input phrases containing market, stock, trade, price or investor are kept. |
| MarketTopics.Dedup | src/twitter_mcp.py:114 | `set(...)`: no repeats and the same elements. |
| MarketTopics.Insert | src/twitter_mcp.py:114 | Insertion adds exactly one occurrence of the new phrase. |
| MarketTopics.InsertKeepsOrder | src/twitter_mcp.py:114 | Insertion keeps a longest-first list longest first. |
| MarketTopics.InsertKeepsDistinct | src/twitter_mcp.py:114 | Inserting a new phrase keeps a list free of repeats. |
| MarketTopics.SortByLength | src/twitter_mcp.py:114 | The sort is a permutation of its input. |
| MarketTopics.SortedLongestFirst | src/twitter_mcp.py:114 | The sorted list is longest first and has no repeats if the input has none. |
| MarketTopics.SliceLength | src/twitter_mcp.py:114 | `[:n]` keeps `min(n, len)` elements, or `max(len + n, 0)` for negative `n`. |
| MarketTopics.Slice | src/twitter_mcp.py:114 | `[:n]` is the prefix of that length. |
| MarketTopics.DistinctCardinality | src/twitter_mcp.py:114 | A list without repeats has as many elements as its set. |
| MarketTopics.ExtractMarketTopics | src/twitter_mcp.py:107-114 | There are never more than `max_topics` topics when it is non-negative, and no phrases give no topics. |
| MarketTopics.TopicsAreDistinctFinancePhrases | src/twitter_mcp.py:107-114 | Topics are distinct input phrases, each with a finance term, longest first. |
| MarketTopics.TopicsAreTheLongest | src/twitter_mcp.py:114 | No finance phrase left out is longer than any topic kept. |
| MarketTopics.TopicsCount | src/twitter_mcp.py:114 | There are exactly as many topics as `[:max_topics]` keeps of the distinct candidates, so at most `max_topics` when it is non-negative. |
| TweetSentiment.MoodOf | src/twitter_mcp.py:169-174 | Bullish iff avg > 0.1, bearish iff avg < -0.1, neutral iff -0.1 ≤ avg ≤ 0.1. |
| TweetSentiment.MoodName | src/twitter_mcp.py:170-174 | Each mood has its own response string: "bullish", "bearish" or "neutral". |
| TweetSentiment.MoodAgreesWithSign | src/twitter_mcp.py:169-174 | A bullish mood has a positive sign label and a bearish mood a negative one. A zero mean is neutral. |
| TweetSentiment.MarketMood | src/twitter_mcp.py:243-244 | Dividing by the number of symbols fails iff there are none. |
| TweetSentiment.AllAboveIsBullish | src/twitter_mcp.py:243-244 | With at least one symbol, if every symbol's score is above a bound over 0.1, the market mood is bullish. |
| TweetSentiment.AllBelowIsBearish | src/twitter_mcp.py:243-244 | With at least one symbol, if every symbol's score is below a bound under -0.1, the market mood is bearish. |
| TweetSentiment.AllWithinIsNeutral | src/twitter_mcp.py:243-244 | With at least one symbol, if every symbol's score is within [-0.1, 0.1], the market mood is neutral. |
| TweetSentiment.NoTweetsResponse | src/twitter_mcp.py:152-161 | The fixed answer reports zero tweets, a label consistent with the ±0.1 rule on its score, and the bullish ratio of no texts. |
| TweetSentiment.TweetsResponse | src/twitter_mcp.py:164-188 | The response counts the tweets, labels its score by the ±0.1 rule, has a ratio in [0, 1] and at most five topics. |
| TweetSentiment.AnalyzeTweets | src/twitter_mcp.py:152-188 | With no tweets the response is the fixed one: score 0, neutral, count 0, no topics or mentions, ratio 0.5. Otherwise the response is built from the mean, the mood, the price mentions, the bullish ratio and the default five topics. |
| TweetSentiment.ResponseIsWellFormed | src/twitter_mcp.py:164-188 | The count is the number of tweets and the label follows the ±0.1 rule on the score. The ratio is in [0, 1]. Every mention is a price token. There are at most 5 topics, distinct and finance-related. |
| TweetSentiment.NoTweetsIsTheEmptyCase | src/twitter_mcp.py:152-166 | The fixed no-tweets answer equals the general rules applied to an empty batch. |

## Left out

- HTTP and MCP plumbing is not modelled: FastAPI routes, request and response schemas, CORS, and the mapping of exceptions to HTTP statuses.
- The tweet search, the yfinance history, news and stock-info fetches and their errors are network clients. Their results are parameters: texts, close prices, articles.
- TextBlob is a foreign library. Polarity scores and noun phrases are inputs: a scorer function for headlines, a score list and a phrase list for tweets. The `try/except` that turns a scorer error into 0.0 is part of that input.
- Volatility (`std/mean*100`), price-change percentages and the `float(p.strip('$'))` price averaging are floating-point numerics and are not modelled. `MarketAnalysis` has no volatility field.
- Scores and timestamps are exact `real`s; float rounding is not modelled.
- The result timestamp is its own clock reading `stampTime`, not its ISO-8601 string.
- MarketService.TwitterMarketMcp.CacheSentiment: the `try/except` that logs errors is not modelled; nothing in the modelled code raises.
- TextSignals.LowerChar and TextSignals.Lower: `lower()` folds only the ASCII capitals; Unicode case mapping is not modelled.
- PriceMentions.IsDigit: `\d` is taken as the ASCII digits; Python also matches other Unicode decimal digits.
- MarketTopics.Dedup: Python's `set` has no defined order, so phrases of equal length may come out in any order. The model fixes one order, first occurrence then a stable sort. The proved properties do not depend on that choice.
- TweetSentiment.MarketMood: the monitor endpoint averages a dict keyed by symbol, so a repeated symbol counts once there. The model takes the list of per-symbol scores as given.
- The per-symbol insights of the trends and monitor endpoints are not modelled: the `Counter(...).most_common(5)` topic ranking and the price-sentiment correlation table.
- Concurrency is not modelled: the async handlers share the limiter and the cache without locks, and the model treats calls as sequential.
- `src/services/twitter_service.py` is not part of this model. Its sign label is the rule `SentimentRules.PolarityLabel` already states.
