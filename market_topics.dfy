/**
 * `extract_market_topics`: of the noun phrases found in the texts (an
 * input here), keep those that contain a finance term, drop duplicates,
 * order them by length, longest first, and keep the first `max_topics`
 * with Python's slice `[:max_topics]`.
 *
 * Python's `set` gives no order to phrases of equal length; the model keeps
 * first occurrences in input order and sorts stably, one of the orders the
 * source can produce. The properties proved hold for every such order.
 */
module MarketTopics {
  import opened TextSignals

  /** The finance vocabulary a phrase must contain one term of. */
  const FinanceTerms: seq<string> := ["market", "stock", "trade", "price", "investor"]

  /** The default number of topics. */
  const DefaultMaxTopics: int := 5

  /** `any(term in phrase for term in FinanceTerms)`. */
  predicate IsFinancePhrase(phrase: string)
  {
    exists term :: term in FinanceTerms && Contains(phrase, term)
  }

  /** The finance phrases, in input order, duplicates kept. */
  function FinancePhrases(phrases: seq<string>): (r: seq<string>)
    ensures forall p :: p in r <==> p in phrases && IsFinancePhrase(p)
  {
    if phrases == [] then []
    else if IsFinancePhrase(phrases[0]) then [phrases[0]] + FinancePhrases(phrases[1..])
    else FinancePhrases(phrases[1..])
  }

  /** No phrase appears twice. */
  predicate Distinct(xs: seq<string>)
  {
    forall i, j :: 0 <= i < j < |xs| ==> xs[i] != xs[j]
  }

  /** `set(xs)` as a list: every phrase once, at its first occurrence. */
  function Dedup(xs: seq<string>): (r: seq<string>)
    ensures Distinct(r)
    ensures forall x :: x in r <==> x in xs
  {
    if xs == [] then []
    else
      var init := Dedup(xs[..|xs| - 1]);
      var last := xs[|xs| - 1];
      assert forall x :: x in xs <==> x in xs[..|xs| - 1] || x == last;
      if last in init then init else init + [last]
  }

  /** Longer phrases come first. */
  predicate LongestFirst(xs: seq<string>)
  {
    forall i, j :: 0 <= i < j < |xs| ==> |xs[i]| >= |xs[j]|
  }

  /** Put `x` in front of the first phrase of `ys` that is not longer than it. */
  function Insert(x: string, ys: seq<string>): (r: seq<string>)
    ensures multiset(r) == multiset(ys) + multiset{x}
  {
    if ys == [] then [x]
    else if |ys[0]| > |x| then
      assert ys == [ys[0]] + ys[1..];
      [ys[0]] + Insert(x, ys[1..])
    else [x] + ys
  }

  /** Inserting into a list ordered longest first keeps it so. */
  lemma {:induction false} InsertKeepsOrder(x: string, ys: seq<string>)
    requires LongestFirst(ys)
    ensures LongestFirst(Insert(x, ys))
  {
    if ys != [] && |ys[0]| > |x| {
      InsertKeepsOrder(x, ys[1..]);
      var rest := Insert(x, ys[1..]);
      forall y | y in rest
        ensures |y| <= |ys[0]|
      {
        assert y in multiset(rest);
      }
    }
  }

  /** Inserting a new phrase into a list without repeats keeps it without repeats. */
  lemma {:induction false} InsertKeepsDistinct(x: string, ys: seq<string>)
    requires Distinct(ys) && x !in ys
    ensures Distinct(Insert(x, ys))
  {
    if ys != [] && |ys[0]| > |x| {
      InsertKeepsDistinct(x, ys[1..]);
      var rest := Insert(x, ys[1..]);
      assert ys[0] !in multiset(rest);
    }
  }

  /** `sorted(xs, key=len, reverse=True)`: a stable sort, longest first. */
  function SortByLength(xs: seq<string>): (r: seq<string>)
    ensures multiset(r) == multiset(xs)
  {
    if xs == [] then []
    else
      assert xs == [xs[0]] + xs[1..];
      Insert(xs[0], SortByLength(xs[1..]))
  }

  /** The sort orders longest first and keeps a list without repeats so. */
  lemma {:induction false} SortedLongestFirst(xs: seq<string>)
    ensures LongestFirst(SortByLength(xs))
    ensures Distinct(xs) ==> Distinct(SortByLength(xs))
  {
    if xs != [] {
      var rest := SortByLength(xs[1..]);
      SortedLongestFirst(xs[1..]);
      InsertKeepsOrder(xs[0], rest);
      if Distinct(xs) {
        assert Distinct(xs[1..]);
        assert xs[0] !in multiset(rest);
        InsertKeepsDistinct(xs[0], rest);
      }
    }
  }

  /** How many elements Python's `xs[:n]` keeps of a list of length `len`. */
  function SliceLength(len: nat, n: int): (k: nat)
    ensures k <= len
    ensures n >= 0 ==> k == if n < len then n else len
    ensures n < 0 ==> k == if len + n > 0 then len + n else 0
  {
    if n >= 0 then (if n < len then n else len)
    else if len + n > 0 then len + n else 0
  }

  /** `xs[:n]`, negative `n` counting from the end. */
  function Slice(xs: seq<string>, n: int): (r: seq<string>)
    ensures |r| == SliceLength(|xs|, n)
    ensures forall i :: 0 <= i < |r| ==> r[i] == xs[i]
  {
    xs[..SliceLength(|xs|, n)]
  }

  /** `extract_market_topics`, given the noun phrases of the joined texts. */
  function ExtractMarketTopics(phrases: seq<string>, maxTopics: int): (topics: seq<string>)
    ensures maxTopics >= 0 ==> |topics| <= maxTopics
    ensures phrases == [] ==> topics == []
  {
    Slice(SortByLength(Dedup(FinancePhrases(phrases))), maxTopics)
  }

  /** The phrases a topic may be drawn from. */
  function Candidates(phrases: seq<string>): set<string>
  {
    set p | p in phrases && IsFinancePhrase(p)
  }

  /** A list without repeats has as many elements as its set. */
  lemma {:induction false} DistinctCardinality(xs: seq<string>)
    requires Distinct(xs)
    ensures |set x | x in xs| == |xs|
  {
    if xs != [] {
      var init := xs[..|xs| - 1];
      var last := xs[|xs| - 1];
      DistinctCardinality(init);
      assert (set x | x in xs) == (set x | x in init) + {last};
      assert last !in (set x | x in init);
    }
  }

  /** The topics are distinct finance phrases from the input, longest first. */
  lemma TopicsAreDistinctFinancePhrases(phrases: seq<string>, maxTopics: int)
    ensures Distinct(ExtractMarketTopics(phrases, maxTopics))
    ensures LongestFirst(ExtractMarketTopics(phrases, maxTopics))
    ensures forall t :: t in ExtractMarketTopics(phrases, maxTopics) ==> t in phrases && IsFinancePhrase(t)
  {
    var sorted := SortByLength(Dedup(FinancePhrases(phrases)));
    var topics := ExtractMarketTopics(phrases, maxTopics);
    SortedLongestFirst(Dedup(FinancePhrases(phrases)));
    forall t | t in topics
      ensures t in phrases && IsFinancePhrase(t)
    {
      assert t in multiset(sorted);
    }
  }

  /** No finance phrase left out is longer than any topic kept. */
  lemma TopicsAreTheLongest(phrases: seq<string>, maxTopics: int)
    ensures forall p, t ::
              (p in Candidates(phrases) && p !in ExtractMarketTopics(phrases, maxTopics)
               && t in ExtractMarketTopics(phrases, maxTopics)) ==> |p| <= |t|
  {
    var sorted := SortByLength(Dedup(FinancePhrases(phrases)));
    var topics := ExtractMarketTopics(phrases, maxTopics);
    var k := SliceLength(|sorted|, maxTopics);
    SortedLongestFirst(Dedup(FinancePhrases(phrases)));
    forall p, t | p in Candidates(phrases) && p !in topics && t in topics
      ensures |p| <= |t|
    {
      assert p in FinancePhrases(phrases);
      assert p in Dedup(FinancePhrases(phrases));
      assert p in multiset(sorted);
      var j :| 0 <= j < |sorted| && sorted[j] == p;
      var i :| 0 <= i < k && topics[i] == t;
      assert sorted[i] == t;
    }
  }

  /** The number of topics is `len(set(candidates))[:max_topics]`'s length. */
  lemma TopicsCount(phrases: seq<string>, maxTopics: int)
    ensures |ExtractMarketTopics(phrases, maxTopics)| == SliceLength(|Candidates(phrases)|, maxTopics)
    ensures maxTopics >= 0 ==> |ExtractMarketTopics(phrases, maxTopics)| <= maxTopics
  {
    var deduped := Dedup(FinancePhrases(phrases));
    var sorted := SortByLength(deduped);
    DistinctCardinality(deduped);
    assert (set x | x in deduped) == Candidates(phrases);
    assert |sorted| == |multiset(sorted)| == |deduped|;
  }
}
