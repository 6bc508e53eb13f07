/**
 * `extract_price_mentions`: every text is scanned with Python's
 * `re.findall` for the pattern `\$\d+\.?\d*|\d+\.?\d*\$` (a dollar sign
 * before or after a decimal number), and the matched strings of all texts
 * are counted, literally, in a `Counter` (here a multiset).
 *
 * The scanner is specified independently of its code: the set of price
 * tokens is the language of the pattern, and `findall` takes, from left to
 * right, the longest token that starts at the earliest position not inside
 * a previous match. For this pattern that is exactly what Python's
 * backtracking matcher does: the two alternatives cannot both start at one
 * position (one needs '$', the other a digit), the first one's greedy
 * quantifiers give its longest match, and the second one has only one match
 * from a given position (it must end at the first '$').
 */
module PriceMentions {
  import opened Wrappers

  /** `\d`, restricted to the ASCII digits. */
  predicate IsDigit(c: char)
  {
    '0' <= c <= '9'
  }

  /** `\d+\.?\d*`: a digit first, then only digits and at most one '.'. */
  predicate IsNumber(t: string)
  {
    && |t| > 0 && IsDigit(t[0])
    && (forall k :: 0 <= k < |t| ==> IsDigit(t[k]) || t[k] == '.')
    && (forall k, l :: 0 <= k < l < |t| && t[k] == '.' ==> t[l] != '.')
  }

  /** The language of the pattern: `$` before a number, or `$` after one. */
  predicate IsPriceToken(t: string)
    ensures IsPriceToken(t) ==> |t| >= 2 && ((t[0] == '$') != (t[|t| - 1] == '$'))
    ensures IsPriceToken(t) ==> forall k :: 0 < k < |t| - 1 ==> IsDigit(t[k]) || t[k] == '.'
  {
    |t| >= 2 && ((t[0] == '$' && IsNumber(t[1..])) || (t[|t| - 1] == '$' && IsNumber(t[..|t| - 1])))
  }

  /** The end of the run of digits that starts at `j`. */
  function DigitsEnd(s: string, j: nat): (e: nat)
    requires j <= |s|
    ensures j <= e <= |s|
    ensures forall k :: j <= k < e ==> IsDigit(s[k])
    ensures e < |s| ==> !IsDigit(s[e])
    decreases |s| - j
  {
    if j < |s| && IsDigit(s[j]) then DigitsEnd(s, j + 1) else j
  }

  /**
   * Where the match of the pattern that starts at `i` ends, if there is one:
   * the first alternative takes '$', all the digits, and a '.' with all the
   * digits after it when there is one; the second takes the digits, an
   * optional '.' and digits, and needs a '$' right after them.
   */
  function MatchEnd(s: string, i: nat): (r: Option<nat>)
    requires i < |s|
    ensures r.Some? ==> i < r.value <= |s|
  {
    if s[i] == '$' then
      if i + 1 < |s| && IsDigit(s[i + 1]) then
        var j := DigitsEnd(s, i + 1);
        if j < |s| && s[j] == '.' then Some(DigitsEnd(s, j + 1)) else Some(j)
      else None
    else if IsDigit(s[i]) then
      var j := DigitsEnd(s, i);
      if j < |s| && s[j] == '$' then Some(j + 1)
      else if j < |s| && s[j] == '.' then
        var k := DigitsEnd(s, j + 1);
        if k < |s| && s[k] == '$' then Some(k + 1) else None
      else None
    else None
  }

  /** A match found by `MatchEnd` is a price token. */
  lemma MatchIsToken(s: string, i: nat)
    requires i < |s| && MatchEnd(s, i).Some?
    ensures IsPriceToken(s[i..MatchEnd(s, i).value])
  {
    var e := MatchEnd(s, i).value;
    var t := s[i..e];
    if s[i] == '$' {
      var j := DigitsEnd(s, i + 1);
      var number := t[1..];
      assert number == s[i + 1..e];
      assert forall k :: 0 <= k < |number| ==> number[k] == s[i + 1 + k];
      assert IsNumber(number);
    } else {
      var j := DigitsEnd(s, i);
      var number := t[..|t| - 1];
      assert number == s[i..e - 1];
      assert forall k :: 0 <= k < |number| ==> number[k] == s[i + k];
      assert IsNumber(number);
    }
  }

  /** A run of digits from `j` reaches at least as far as any stretch of digits from `j`. */
  lemma RunReaches(s: string, j: nat, m: nat)
    requires j <= m <= |s|
    requires forall p :: j <= p < m ==> IsDigit(s[p])
    ensures m <= DigitsEnd(s, j)
  {
  }

  /** A token `$` + number at `i` ends no later than the first alternative's match there. */
  lemma DollarFirstIsLongest(s: string, i: nat, e: nat)
    requires i < e <= |s| && e - i >= 2
    requires s[i] == '$' && IsNumber(s[i + 1..e])
    ensures MatchEnd(s, i).Some? && e <= MatchEnd(s, i).value
  {
    var number := s[i + 1..e];
    assert forall k :: 0 <= k < |number| ==> number[k] == s[i + 1 + k];
    assert IsDigit(s[i + 1]);
    var j := DigitsEnd(s, i + 1);
    if j < e {
      assert s[j] == number[j - i - 1];
      assert s[j] == '.';
      forall p | j + 1 <= p < e
        ensures IsDigit(s[p])
      {
        assert number[p - i - 1] == s[p];
        assert number[j - i - 1] == '.';
      }
      RunReaches(s, j + 1, e);
    }
  }

  /** A token number + `$` at `i` ends exactly where the second alternative's match there ends. */
  lemma DollarLastIsLongest(s: string, i: nat, e: nat)
    requires i < e <= |s| && e - i >= 2
    requires s[e - 1] == '$' && IsNumber(s[i..e - 1])
    ensures MatchEnd(s, i) == Some(e)
  {
    var number := s[i..e - 1];
    assert forall k :: 0 <= k < |number| ==> number[k] == s[i + k];
    assert IsDigit(s[i]);
    var j := DigitsEnd(s, i);
    assert j <= e - 1;
    if j < e - 1 {
      assert s[j] == number[j - i];
      assert s[j] == '.';
      forall p | j + 1 <= p < e - 1
        ensures IsDigit(s[p])
      {
        assert number[p - i] == s[p];
        assert number[j - i] == '.';
      }
      RunReaches(s, j + 1, e - 1);
    }
  }

  /** No price token starting at `i` is longer than the match `MatchEnd` finds, and none exists when it finds none. */
  lemma MatchIsLongest(s: string, i: nat, e: nat)
    requires i < e <= |s| && IsPriceToken(s[i..e])
    ensures MatchEnd(s, i).Some? && e <= MatchEnd(s, i).value
  {
    var t := s[i..e];
    if t[0] == '$' && IsNumber(t[1..]) {
      assert t[1..] == s[i + 1..e];
      DollarFirstIsLongest(s, i, e);
    } else {
      assert t[..|t| - 1] == s[i..e - 1];
      DollarLastIsLongest(s, i, e);
    }
  }

  /** The position of one match in the scanned text: `s[start..end]`. */
  datatype Span = Span(start: nat, end: nat)

  /**
   * `re.findall` from position `i`: try to match at `i`; on success record
   * the match and go on after it, otherwise go on at the next position.
   */
  function Matches(s: string, i: nat): (spans: seq<Span>)
    requires i <= |s|
    ensures forall k :: 0 <= k < |spans| ==> i <= spans[k].start < spans[k].end <= |s|
    ensures forall k :: 0 <= k < |spans| - 1 ==> spans[k].end <= spans[k + 1].start
    decreases |s| - i
  {
    if i == |s| then []
    else match MatchEnd(s, i)
      case Some(e) => [Span(i, e)] + Matches(s, e)
      case None => Matches(s, i + 1)
  }

  /** No price token starts at any position in [a, b). */
  predicate NoTokenStartsIn(s: string, a: nat, b: nat)
  {
    forall p, e :: a <= p < b && p < e <= |s| ==> !IsPriceToken(s[p..e])
  }

  /** `sp` covers a price token, and no longer token starts where it starts. */
  predicate IsLongestTokenAt(s: string, sp: Span)
  {
    && sp.start < sp.end <= |s|
    && IsPriceToken(s[sp.start..sp.end])
    && forall e :: sp.end < e <= |s| ==> !IsPriceToken(s[sp.start..e])
  }

  /** Where the search for the `k`-th match begins: `i`, or the end of the previous match. */
  function SearchFrom(spans: seq<Span>, i: nat, k: nat): nat
    requires k <= |spans|
  {
    if k == 0 then i else spans[k - 1].end
  }

  /** No match of the pattern starts at any position in [a, b). */
  predicate NoMatchStartsIn(s: string, a: nat, b: nat)
  {
    forall p :: a <= p < b && p < |s| ==> MatchEnd(s, p).None?
  }

  /** Each span is the match `MatchEnd` finds at its start. */
  predicate SpansAreMatches(s: string, spans: seq<Span>)
  {
    forall k :: 0 <= k < |spans| ==> spans[k].start < |s| && MatchEnd(s, spans[k].start) == Some(spans[k].end)
  }

  /**
   * No match starts between the end of the previous span (or `i`) and the
   * start of the next, or after the last span.
   */
  predicate GapsHaveNoMatch(s: string, i: nat, spans: seq<Span>)
  {
    && (forall k :: 0 <= k < |spans| ==> NoMatchStartsIn(s, SearchFrom(spans, i, k), spans[k].start))
    && NoMatchStartsIn(s, SearchFrom(spans, i, |spans|), |s|)
  }

  /** `spans` is a scan of `s` from `i` in terms of `MatchEnd`. */
  predicate ScannedFrom(s: string, i: nat, spans: seq<Span>)
  {
    SpansAreMatches(s, spans) && GapsHaveNoMatch(s, i, spans)
  }

  lemma MatchThenMatches(s: string, i: nat, e: nat, rest: seq<Span>)
    requires i < |s| && MatchEnd(s, i) == Some(e)
    requires SpansAreMatches(s, rest)
    ensures SpansAreMatches(s, [Span(i, e)] + rest)
  {
    var spans := [Span(i, e)] + rest;
    forall k | 0 < k < |spans|
      ensures spans[k] == rest[k - 1]
    {
    }
  }

  lemma MatchThenGaps(s: string, i: nat, e: nat, rest: seq<Span>)
    requires GapsHaveNoMatch(s, e, rest)
    ensures GapsHaveNoMatch(s, i, [Span(i, e)] + rest)
  {
    var spans := [Span(i, e)] + rest;
    forall k | 0 < k < |spans|
      ensures spans[k] == rest[k - 1]
      ensures SearchFrom(spans, i, k) == SearchFrom(rest, e, k - 1)
    {
    }
    assert SearchFrom(spans, i, |spans|) == SearchFrom(rest, e, |rest|);
  }

  /** A match at `i` followed by a scan from its end is a scan from `i`. */
  lemma ScanStepOnMatch(s: string, i: nat, e: nat, rest: seq<Span>)
    requires i < |s| && MatchEnd(s, i) == Some(e)
    requires ScannedFrom(s, e, rest)
    ensures ScannedFrom(s, i, [Span(i, e)] + rest)
  {
    MatchThenMatches(s, i, e, rest);
    MatchThenGaps(s, i, e, rest);
  }

  /** A position without a match, followed by a scan from the next one, is a scan from it. */
  lemma ScanStepOnMiss(s: string, i: nat, spans: seq<Span>)
    requires i < |s| && MatchEnd(s, i).None?
    requires GapsHaveNoMatch(s, i + 1, spans)
    requires spans != [] ==> i + 1 <= spans[0].start
    ensures GapsHaveNoMatch(s, i, spans)
  {
    forall k | 0 < k <= |spans|
      ensures SearchFrom(spans, i, k) == SearchFrom(spans, i + 1, k)
    {
    }
    if spans != [] {
      assert NoMatchStartsIn(s, i + 1, spans[0].start);
      assert NoMatchStartsIn(s, i, spans[0].start);
    } else {
      assert NoMatchStartsIn(s, i + 1, |s|);
    }
  }

  /** The matches of `re.findall` form a scan in terms of `MatchEnd`. */
  lemma {:induction false} MatchesScan(s: string, i: nat)
    requires i <= |s|
    ensures ScannedFrom(s, i, Matches(s, i))
    decreases |s| - i
  {
    if i < |s| {
      var m := MatchEnd(s, i);
      if m.Some? {
        MatchesScan(s, m.value);
        assert Matches(s, i) == [Span(i, m.value)] + Matches(s, m.value);
        ScanStepOnMatch(s, i, m.value, Matches(s, m.value));
      } else {
        MatchesScan(s, i + 1);
        assert Matches(s, i) == Matches(s, i + 1);
        ScanStepOnMiss(s, i, Matches(s, i + 1));
      }
    }
  }

  /**
   * `spans` is what a leftmost-longest scan of `s` from `i` finds: each span
   * is a longest token at its start, no token starts between the end of the
   * previous span (or `i`) and its start, and none starts after the last.
   */
  predicate LeftmostLongest(s: string, i: nat, spans: seq<Span>)
  {
    && (forall k :: 0 <= k < |spans| ==> IsLongestTokenAt(s, spans[k]))
    && (forall k :: 0 <= k < |spans| ==> NoTokenStartsIn(s, SearchFrom(spans, i, k), spans[k].start))
    && NoTokenStartsIn(s, SearchFrom(spans, i, |spans|), |s|)
  }

  /** No token starts at `i` when `MatchEnd` finds none, and none longer than its match when it finds one. */
  lemma NoLongerTokenAt(s: string, i: nat)
    requires i < |s|
    ensures forall e :: i < e <= |s| && (MatchEnd(s, i).None? || MatchEnd(s, i).value < e)
              ==> !IsPriceToken(s[i..e])
  {
    forall e | i < e <= |s| && IsPriceToken(s[i..e])
      ensures MatchEnd(s, i).Some? && e <= MatchEnd(s, i).value
    {
      MatchIsLongest(s, i, e);
    }
  }

  /** Positions where `MatchEnd` finds nothing are positions where no token starts. */
  lemma NoMatchMeansNoToken(s: string, a: nat, b: nat)
    requires NoMatchStartsIn(s, a, b)
    ensures NoTokenStartsIn(s, a, b)
  {
    forall p, e | a <= p < b && p < e <= |s|
      ensures !IsPriceToken(s[p..e])
    {
      NoLongerTokenAt(s, p);
    }
  }

  /** The matches of `re.findall` are exactly those of a leftmost-longest scan. */
  lemma MatchesAreLeftmostLongest(s: string, i: nat)
    requires i <= |s|
    ensures LeftmostLongest(s, i, Matches(s, i))
  {
    var spans := Matches(s, i);
    MatchesScan(s, i);
    forall k | 0 <= k < |spans|
      ensures IsLongestTokenAt(s, spans[k])
      ensures NoTokenStartsIn(s, SearchFrom(spans, i, k), spans[k].start)
    {
      MatchIsToken(s, spans[k].start);
      NoLongerTokenAt(s, spans[k].start);
      NoMatchMeansNoToken(s, SearchFrom(spans, i, k), spans[k].start);
    }
    NoMatchMeansNoToken(s, SearchFrom(spans, i, |spans|), |s|);
  }

  /** `re.findall(price_pattern, s)`: the matched strings, in order. */
  function FindAll(s: string): (found: seq<string>)
    ensures forall k :: 0 <= k < |found| ==> IsPriceToken(found[k])
  {
    var spans := Matches(s, 0);
    MatchesAreLeftmostLongest(s, 0);
    seq(|spans|, k requires 0 <= k < |spans| => s[spans[k].start..spans[k].end])
  }

  /** The concatenation of `f` applied to every element, in order. */
  function ConcatMap(f: string -> seq<string>, xs: seq<string>): (r: seq<string>)
    ensures xs == [] ==> r == []
  {
    if xs == [] then [] else ConcatMap(f, xs[..|xs| - 1]) + f(xs[|xs| - 1])
  }

  /** Mapping over a list is mapping over its parts one after the other. */
  lemma {:induction false} ConcatMapOfConcat(f: string -> seq<string>, a: seq<string>, b: seq<string>)
    ensures ConcatMap(f, a + b) == ConcatMap(f, a) + ConcatMap(f, b)
    decreases |b|
  {
    if b == [] {
      assert a + b == a;
    } else {
      var n := |b| - 1;
      var ab := a + b;
      ConcatMapOfConcat(f, a, b[..n]);
      assert ab[..|ab| - 1] == a + b[..n];
      assert ab[|ab| - 1] == b[n];
      assert ConcatMap(f, ab) == ConcatMap(f, a + b[..n]) + f(b[n]);
      assert ConcatMap(f, b) == ConcatMap(f, b[..n]) + f(b[n]);
    }
  }

  /** The list `prices` after the loop has extended it with the matches of every text. */
  function AllMatches(texts: seq<string>): (prices: seq<string>)
    ensures texts == [] ==> prices == []
    ensures |texts| == 1 ==> prices == FindAll(texts[0])
  {
    ConcatMap(FindAll, texts)
  }

  /**
   * The counts of a list are the sum of the counts of its parts, the empty
   * list counts nothing, and the counts add up to the number of matches.
   */
  lemma MentionsAddUp(a: seq<string>, b: seq<string>)
    ensures multiset(AllMatches(a + b)) == multiset(AllMatches(a)) + multiset(AllMatches(b))
    ensures multiset(AllMatches([])) == multiset{}
    ensures |multiset(AllMatches(a))| == |AllMatches(a)|
  {
    ConcatMapOfConcat(FindAll, a, b);
  }

  /** Every counted string is a price token. */
  lemma {:induction false} AllMatchesAreTokens(texts: seq<string>)
    ensures forall t :: t in AllMatches(texts) ==> IsPriceToken(t)
  {
    if texts != [] {
      AllMatchesAreTokens(texts[..|texts| - 1]);
    }
  }

  /** `extract_price_mentions`: the loop extends `prices` text by text, then counts them. */
  method ExtractPriceMentions(texts: seq<string>) returns (mentions: multiset<string>)
    ensures mentions == multiset(AllMatches(texts))
    ensures forall t :: t in mentions ==> IsPriceToken(t)
  {
    var prices: seq<string> := [];
    for i := 0 to |texts|
      invariant prices == AllMatches(texts[..i])
    {
      var matches := FindAll(texts[i]);
      assert texts[..i + 1][..i] == texts[..i];
      prices := prices + matches;
    }
    assert texts[..|texts|] == texts;
    AllMatchesAreTokens(texts);
    mentions := multiset(prices);
  }

  /** Characters that are neither '$' nor a digit cannot start a match and are skipped. */
  lemma {:induction false} SkipsNonStarts(s: string, i: nat, j: nat)
    requires i <= j <= |s|
    requires forall p :: i <= p < j ==> s[p] != '$' && !IsDigit(s[p])
    ensures Matches(s, i) == Matches(s, j)
    decreases j - i
  {
    if i < j {
      SkipsNonStarts(s, i + 1, j);
    }
  }

  /** A text whose only possible match start is `i` yields exactly the match there. */
  lemma SingleMatch(s: string, i: nat, e: nat)
    requires i < |s| && MatchEnd(s, i) == Some(e)
    requires forall p :: 0 <= p < i ==> s[p] != '$' && !IsDigit(s[p])
    requires forall p :: e <= p < |s| ==> s[p] != '$' && !IsDigit(s[p])
    ensures FindAll(s) == [s[i..e]]
  {
    SkipsNonStarts(s, 0, i);
    SkipsNonStarts(s, e, |s|);
    assert Matches(s, 0) == [Span(i, e)];
  }

  /** A price at the end of a text, after words. */
  lemma PriceAfterWords()
    ensures FindAll("price is $10") == ["$10"]
  {
    var a := "price is $10";
    assert DigitsEnd(a, 10) == 12;
    SingleMatch(a, 9, 12);
    assert a[9..12] == "$10";
  }

  /** A price at the start of a text, before words. */
  lemma PriceBeforeWords()
    ensures FindAll("$10 again") == ["$10"]
  {
    var b := "$10 again";
    assert DigitsEnd(b, 1) == 3;
    SingleMatch(b, 0, 3);
    assert b[0..3] == "$10";
  }

  /** A text that is only a price. */
  lemma PriceAlone()
    ensures FindAll("$12") == ["$12"]
  {
    var c := "$12";
    assert DigitsEnd(c, 1) == 3;
    SingleMatch(c, 0, 3);
    assert c[0..3] == "$12";
  }

  /** The repeated price in three texts is counted twice and the other once. */
  lemma ExtractExample()
    ensures multiset(AllMatches(["price is $10", "$10 again", "$12"])) == multiset{"$10", "$10", "$12"}
  {
    var a, b, c := "price is $10", "$10 again", "$12";
    PriceAfterWords();
    PriceBeforeWords();
    PriceAlone();
    var texts := [a, b, c];
    assert [a][..0] == [];
    assert AllMatches([a]) == ["$10"];
    assert [a, b][..1] == [a];
    assert AllMatches([a, b]) == ["$10", "$10"];
    assert texts[..2] == [a, b];
    assert AllMatches(texts) == ["$10", "$10", "$12"];
  }
}
