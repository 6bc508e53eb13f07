/**
 * `calculate_bullish_ratio`: each text is lower-cased and tested for
 * substring containment of any word of a fixed bullish lexicon and of a
 * fixed bearish lexicon. The ratio counts texts, not words: a text adds at
 * most one to each count, and may add to both. With no hit at all the
 * ratio is the neutral 0.5.
 */
module TextSignals {

  /** `str.lower()` on one character, for the ASCII letters. */
  function LowerChar(c: char): (r: char)
    ensures 'A' <= c <= 'Z' ==> 'a' <= r <= 'z' && r as int - c as int == 32
    ensures !('A' <= c <= 'Z') ==> r == c
  {
    if 'A' <= c <= 'Z' then (c as int + 32) as char else c
  }

  /** `str.lower()`: every character lowered, the length unchanged. */
  function Lower(s: string): (r: string)
    ensures |r| == |s|
    ensures forall i :: 0 <= i < |s| ==> r[i] == LowerChar(s[i])
  {
    if s == [] then [] else [LowerChar(s[0])] + Lower(s[1..])
  }

  /** `w` is a prefix of `s`. */
  predicate StartsWith(s: string, w: string)
  {
    |w| <= |s| && s[..|w|] == w
  }

  /** `w in s` on strings: the search tries every start position from the left. */
  predicate Contains(s: string, w: string)
  {
    StartsWith(s, w) || (s != [] && Contains(s[1..], w))
  }

  /** `w` occurs in `s` at position `i`. */
  predicate OccursAt(s: string, w: string, i: int)
  {
    0 <= i && i + |w| <= |s| && s[i..i + |w|] == w
  }

  /** The search finds `w` exactly when `w` occurs somewhere in `s`. */
  lemma {:induction false} ContainsIffOccurs(s: string, w: string)
    ensures Contains(s, w) <==> exists i :: OccursAt(s, w, i)
  {
    if StartsWith(s, w) {
      assert OccursAt(s, w, 0);
    } else if s != [] {
      ContainsIffOccurs(s[1..], w);
      if Contains(s[1..], w) {
        var i :| OccursAt(s[1..], w, i);
        assert s[i + 1..i + 1 + |w|] == s[1..][i..i + |w|];
        assert OccursAt(s, w, i + 1);
      } else {
        forall i | OccursAt(s, w, i) && i > 0
          ensures OccursAt(s[1..], w, i - 1)
        {
          assert s[1..][i - 1..i - 1 + |w|] == s[i..i + |w|];
        }
      }
    }
  }

  /** The bullish lexicon. */
  const BullishWords: set<string> := {"buy", "bull", "long", "up", "calls", "moon", "higher"}

  /** The bearish lexicon. */
  const BearishWords: set<string> := {"sell", "bear", "short", "down", "puts", "crash", "lower"}

  /** The search succeeds for every word of a set exactly when the word occurs. */
  lemma ContainsIffOccursAll(s: string, words: set<string>)
    ensures (exists w :: w in words && Contains(s, w)) <==> exists w, i :: w in words && OccursAt(s, w, i)
  {
    forall w | w in words
      ensures Contains(s, w) <==> exists i :: OccursAt(s, w, i)
    {
      ContainsIffOccurs(s, w);
    }
  }

  /**
   * `any(word in text.lower() for word in words)`: some word of the set
   * occurs somewhere in the lower-cased text.
   */
  predicate MentionsAny(text: string, words: set<string>)
    ensures MentionsAny(text, words) <==> exists w, i :: w in words && OccursAt(Lower(text), w, i)
  {
    var lowered := Lower(text);
    ContainsIffOccursAll(lowered, words);
    assert (exists w :: w in words && Contains(lowered, w)) <==> exists w, i :: w in words && OccursAt(lowered, w, i);
    assert lowered == Lower(text);
    exists w :: w in words && Contains(lowered, w)
  }

  /** How many of `texts` mention a word of `words`: each text counts at most once. */
  function CountMentioning(texts: seq<string>, words: set<string>): (n: nat)
    ensures n <= |texts|
  {
    if texts == [] then 0
    else CountMentioning(texts[..|texts| - 1], words) + (if MentionsAny(texts[|texts| - 1], words) then 1 else 0)
  }

  /** The count is zero exactly when no text mentions a word of the lexicon. */
  lemma {:induction false} CountZeroIff(texts: seq<string>, words: set<string>)
    ensures CountMentioning(texts, words) == 0 <==> forall i :: 0 <= i < |texts| ==> !MentionsAny(texts[i], words)
  {
    if texts != [] {
      var init := texts[..|texts| - 1];
      CountZeroIff(init, words);
      assert forall i :: 0 <= i < |init| ==> init[i] == texts[i];
    }
  }

  /** The count equals the length exactly when every text mentions a word of the lexicon. */
  lemma {:induction false} CountFullIff(texts: seq<string>, words: set<string>)
    ensures CountMentioning(texts, words) == |texts| <==> forall i :: 0 <= i < |texts| ==> MentionsAny(texts[i], words)
  {
    if texts != [] {
      var init := texts[..|texts| - 1];
      CountFullIff(init, words);
      assert forall i :: 0 <= i < |init| ==> init[i] == texts[i];
    }
  }

  /** Counting a list is counting its parts. */
  lemma {:induction false} CountOfConcat(a: seq<string>, b: seq<string>, words: set<string>)
    ensures CountMentioning(a + b, words) == CountMentioning(a, words) + CountMentioning(b, words)
    decreases |b|
  {
    if b == [] {
      assert a + b == a;
    } else {
      CountOfConcat(a, b[..|b| - 1], words);
      assert (a + b)[..|a + b| - 1] == a + b[..|b| - 1];
    }
  }

  /** For a positive divisor, comparing a quotient with `c` is comparing the dividend with `c` times the divisor. */
  lemma DivideCompare(b: real, t: real, c: real)
    requires t > 0.0
    ensures b / t > c <==> b > c * t
    ensures b / t == c <==> b == c * t
  {
    var q := b / t;
    assert q * t == b;
    if q > c {
      assert (q - c) * t > 0.0;
    } else if q < c {
      assert (c - q) * t > 0.0;
    }
  }

  /** `bullish_count / total if total > 0 else 0.5`. */
  function Ratio(bullish: nat, bearish: nat): (r: real)
    ensures 0.0 <= r <= 1.0
    ensures r == 1.0 <==> bullish > 0 && bearish == 0
    ensures r == 0.0 <==> bullish == 0 && bearish > 0
    ensures r == 0.5 <==> bullish == bearish
    ensures r > 0.5 <==> bullish > bearish
  {
    var total := bullish + bearish;
    if total > 0 then
      var r := bullish as real / total as real;
      assert r * total as real == bullish as real;
      DivideCompare(bullish as real, total as real, 0.5);
      r
    else 0.5
  }

  /** The ratio of bullish-mentioning texts among all texts that hit either lexicon. */
  function BullishRatio(texts: seq<string>): (r: real)
    ensures 0.0 <= r <= 1.0
    ensures texts == [] ==> r == 0.5
  {
    Ratio(CountMentioning(texts, BullishWords), CountMentioning(texts, BearishWords))
  }

  /** `calculate_bullish_ratio`: one pass that tests each text against both lexicons. */
  method CalculateBullishRatio(texts: seq<string>) returns (ratio: real)
    ensures ratio == BullishRatio(texts)
    ensures 0.0 <= ratio <= 1.0
  {
    var bullishCount := 0;
    var bearishCount := 0;
    for i := 0 to |texts|
      invariant bullishCount == CountMentioning(texts[..i], BullishWords)
      invariant bearishCount == CountMentioning(texts[..i], BearishWords)
    {
      assert texts[..i + 1][..i] == texts[..i];
      var lowered := Lower(texts[i]);
      if exists w :: w in BullishWords && Contains(lowered, w) {
        bullishCount := bullishCount + 1;
      }
      if exists w :: w in BearishWords && Contains(lowered, w) {
        bearishCount := bearishCount + 1;
      }
    }
    assert texts[..|texts|] == texts;
    var total := bullishCount + bearishCount;
    ratio := if total > 0 then bullishCount as real / total as real else 0.5;
  }

  /** No lexicon hit in any text, the empty list included, gives the neutral 0.5. */
  lemma NoHitIsNeutral(texts: seq<string>)
    requires forall i :: 0 <= i < |texts| ==> !MentionsAny(texts[i], BullishWords) && !MentionsAny(texts[i], BearishWords)
    ensures BullishRatio(texts) == 0.5
  {
    CountZeroIff(texts, BullishWords);
    CountZeroIff(texts, BearishWords);
  }

  /** Texts that all hit the bullish lexicon and never the bearish one give 1.0. */
  lemma AllBullishIsOne(texts: seq<string>)
    requires texts != []
    requires forall i :: 0 <= i < |texts| ==> MentionsAny(texts[i], BullishWords) && !MentionsAny(texts[i], BearishWords)
    ensures BullishRatio(texts) == 1.0
  {
    CountFullIff(texts, BullishWords);
    CountZeroIff(texts, BearishWords);
  }

  /** Texts that all hit the bearish lexicon and never the bullish one give 0.0. */
  lemma AllBearishIsZero(texts: seq<string>)
    requires texts != []
    requires forall i :: 0 <= i < |texts| ==> MentionsAny(texts[i], BearishWords) && !MentionsAny(texts[i], BullishWords)
    ensures BullishRatio(texts) == 0.0
  {
    CountFullIff(texts, BearishWords);
    CountZeroIff(texts, BullishWords);
  }

  /** One more text adds at most one to each count, and it can add to both. */
  lemma OneTextAddsAtMostOne(texts: seq<string>, t: string)
    ensures CountMentioning(texts + [t], BullishWords) == CountMentioning(texts, BullishWords) + (if MentionsAny(t, BullishWords) then 1 else 0)
    ensures CountMentioning(texts + [t], BearishWords) == CountMentioning(texts, BearishWords) + (if MentionsAny(t, BearishWords) then 1 else 0)
  {
    assert (texts + [t])[..|texts|] == texts;
  }

  /** Text without upper-case letters is left as it is by `Lower`. */
  lemma LowerKeepsLowerCase(s: string)
    requires forall i :: 0 <= i < |s| ==> !('A' <= s[i] <= 'Z')
    ensures Lower(s) == s
  {
  }

  /** A lower-case text in which a word of the lexicon occurs mentions the lexicon. */
  lemma MentionedAt(text: string, words: set<string>, w: string, i: nat)
    requires forall k :: 0 <= k < |text| ==> !('A' <= text[k] <= 'Z')
    requires w in words && OccursAt(text, w, i)
    ensures MentionsAny(text, words)
  {
    LowerKeepsLowerCase(text);
    ContainsIffOccurs(text, w);
  }

  /** Matching is by substring: "support" is a bullish text through "up". */
  lemma SubstringHit()
    ensures MentionsAny("support", BullishWords)
  {
    assert "support"[1..3] == "up";
    MentionedAt("support", BullishWords, "up", 1);
  }

  /** A single text that hits both lexicons counts toward both, and the ratio is even. */
  lemma BothLexiconsInOneText(t: string)
    requires MentionsAny(t, BullishWords) && MentionsAny(t, BearishWords)
    ensures BullishRatio([t]) == 0.5
  {
    var none: seq<string> := [];
    assert [t][..0] == none;
  }
}
