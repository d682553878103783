/** `SEOScorer.calculate_keyword_score` (seo_scorer.py:16-36): keyword density
    and spread over the lower-cased whitespace words of a text. A word
    matches when it equals a lower-cased keyword, so only single-word
    keywords can ever match and punctuation stays attached to its word. */
module KeywordMetric {
  import opened Text
  import opened Numeric

  /** `[k.lower() for k in keywords]` */
  function LowerAll(keywords: seq<string>): seq<string> {
    seq(|keywords|, i requires 0 <= i < |keywords| => Lower(keywords[i]))
  }

  /** The lowered keywords as a set. */
  function KeywordTargets(keywords: seq<string>): set<string> {
    set k | k in keywords :: Lower(k)
  }

  lemma LowerAllTargets(keywords: seq<string>)
    ensures forall w :: w in LowerAll(keywords) <==> w in KeywordTargets(keywords)
  {
    forall w | w in KeywordTargets(keywords)
      ensures w in LowerAll(keywords)
    {
      var k :| k in keywords && Lower(k) == w;
      var i :| 0 <= i < |keywords| && keywords[i] == k;
      assert LowerAll(keywords)[i] == w;
    }
  }

  /** The ascending indices of the words that equal some target: the
      `positions` list of the keyword score. */
  function MatchPositions(words: seq<string>, targets: seq<string>): (ps: seq<nat>)
    ensures |ps| <= |words|
    ensures forall j :: 0 <= j < |ps| ==> ps[j] < |words| && words[ps[j]] in targets
    ensures forall i :: 0 <= i < |words| && words[i] in targets ==> i in ps
    ensures forall j, k :: 0 <= j < k < |ps| ==> ps[j] < ps[k]
  {
    if words == [] then []
    else
      var last := |words| - 1;
      var ps := MatchPositions(words[..last], targets);
      if words[last] in targets then ps + [last] else ps
  }

  /** `sum(1 for word in words if word in targets)` */
  function MatchCount(words: seq<string>, targets: seq<string>): (n: nat)
    ensures n <= |words|
    ensures n == 0 <==> forall i :: 0 <= i < |words| ==> words[i] !in targets
    ensures n == |words| <==> forall i :: 0 <= i < |words| ==> words[i] in targets
  {
    if words == [] then 0
    else (if words[0] in targets then 1 else 0) + MatchCount(words[1..], targets)
  }

  lemma {:induction false} MatchCountAppend(a: seq<string>, b: seq<string>, targets: seq<string>)
    ensures MatchCount(a + b, targets) == MatchCount(a, targets) + MatchCount(b, targets)
  {
    if a != [] {
      assert (a + b)[1..] == a[1..] + b;
      MatchCountAppend(a[1..], b, targets);
    } else {
      assert a + b == b;
    }
  }

  /** The matched count and the position list agree in size. */
  lemma {:induction false} MatchCountIsPositions(words: seq<string>, targets: seq<string>)
    ensures MatchCount(words, targets) == |MatchPositions(words, targets)|
  {
    if words != [] {
      var last := |words| - 1;
      MatchCountIsPositions(words[..last], targets);
      assert words == words[..last] + [words[last]];
      MatchCountAppend(words[..last], [words[last]], targets);
      assert [words[last]][1..] == [];
    }
  }

  /** With no word among the targets there are no positions. */
  lemma {:induction false} MatchPositionsNone(words: seq<string>, targets: seq<string>)
    requires forall i :: 0 <= i < |words| ==> words[i] !in targets
    ensures MatchPositions(words, targets) == []
  {
    if words != [] {
      MatchPositionsNone(words[..|words| - 1], targets);
    }
  }

  /** Only membership in the targets matters to the positions. */
  lemma {:induction false} MatchPositionsSameTargets(words: seq<string>, t1: seq<string>, t2: seq<string>)
    requires forall w :: w in t1 <==> w in t2
    ensures MatchPositions(words, t1) == MatchPositions(words, t2)
  {
    if words != [] {
      MatchPositionsSameTargets(words[..|words| - 1], t1, t2);
    }
  }

  /** The density sub-score: `max(0, min(1, 1 - |density - 2| / 2))` where
      `density` is the matched percentage of the words, or 0 with no words. */
  function DensityScore(count: nat, total: nat): (r: real)
    ensures 0.0 <= r <= 1.0
  {
    var density := if total > 0 then (count as real / total as real) * 100.0 else 0.0;
    Clamp(1.0 - Abs(density - 2.0) / 2.0)
  }

  /** The density sub-score peaks (1) exactly at 2% density, i.e. when fifty
      times the matched count is the word count, and vanishes exactly at 0%
      or at 4% and above. A text without words scores 0. */
  lemma DensityPeak(count: nat, total: nat)
    ensures DensityScore(count, total) == 1.0 <==> total > 0 && 50 * count == total
    ensures DensityScore(count, total) == 0.0 <==> total == 0 || count == 0 || 25 * count >= total
  {
    if total > 0 {
      var density := (count as real / total as real) * 100.0;
      DensityPercent(count, total);
      assert DensityScore(count, total) == Clamp(1.0 - Abs(density - 2.0) / 2.0);
    }
  }

  /** The matched percentage against the thresholds 0%, 2% and 4%, stated
      on the counts. */
  lemma DensityPercent(count: nat, total: nat)
    requires total > 0
    ensures var density := (count as real / total as real) * 100.0;
      && (density == 2.0 <==> 50 * count == total)
      && (density >= 4.0 <==> 25 * count >= total)
      && (density <= 0.0 <==> count == 0)
  {
    var t := total as real;
    var c := count as real;
    var density := (c / t) * 100.0;
    assert density * t == 100.0 * c by {
      assert (c / t) * t == c;
    }
    CompareScaled(density, t, 100.0 * c, 2.0);
    assert (50 * count) as real == 50.0 * c;
    CompareScaled(density, t, 100.0 * c, 4.0);
    assert (25 * count) as real == 25.0 * c;
    CompareScaled(density, t, 100.0 * c, 0.0);
  }

  /** `calculate_keyword_score`: 0 without keywords, otherwise the mean of
      the density sub-score and the distribution sub-score; `deviation`
      stands for `np.std` of the match positions. */
  function KeywordScore(text: string, keywords: seq<string>, deviation: seq<nat> -> real): (r: real)
    ensures 0.0 <= r <= 1.0
    ensures keywords == [] ==> r == 0.0
  {
    if keywords == [] then 0.0
    else
      var words := Words(Lower(text));
      var targets := LowerAll(keywords);
      var count := MatchCount(words, targets);
      var density := DensityScore(count, |words|);
      var positions := MatchPositions(words, targets);
      var distribution :=
        if positions != [] then Clamp(1.0 - deviation(positions) / (|words| as real)) else 0.0;
      (density + distribution) / 2.0
  }

  /** The density sub-score of `text` against `keywords`. */
  function TextDensity(text: string, keywords: seq<string>): real {
    var words := Words(Lower(text));
    DensityScore(MatchCount(words, LowerAll(keywords)), |words|)
  }

  /** With keywords, the score lies between half the density sub-score and
      half of one more than it: the distribution sub-score moves it by at
      most one half. */
  lemma KeywordScoreByDensity(text: string, keywords: seq<string>, deviation: seq<nat> -> real)
    requires keywords != []
    ensures TextDensity(text, keywords) / 2.0 <= KeywordScore(text, keywords, deviation)
    ensures KeywordScore(text, keywords, deviation) <= (TextDensity(text, keywords) + 1.0) / 2.0
  {
  }

  /** At 2% density the keyword score is at least one half. */
  lemma KeywordScoreAtPeak(text: string, keywords: seq<string>, deviation: seq<nat> -> real)
    requires keywords != []
    requires |Words(Lower(text))| > 0
    requires 50 * MatchCount(Words(Lower(text)), LowerAll(keywords)) == |Words(Lower(text))|
    ensures KeywordScore(text, keywords, deviation) >= 0.5
  {
    var words := Words(Lower(text));
    DensityPeak(MatchCount(words, LowerAll(keywords)), |words|);
    KeywordScoreByDensity(text, keywords, deviation);
  }

  /** When no lowered word equals a lowered keyword, both sub-scores are 0. */
  lemma KeywordScoreWithoutMatch(text: string, keywords: seq<string>, deviation: seq<nat> -> real)
    requires forall w :: w in Words(Lower(text)) ==> w !in KeywordTargets(keywords)
    ensures KeywordScore(text, keywords, deviation) == 0.0
  {
    if keywords != [] {
      var words := Words(Lower(text));
      var targets := LowerAll(keywords);
      LowerAllTargets(keywords);
      MatchPositionsNone(words, targets);
      MatchCountIsPositions(words, targets);
      DensityPeak(0, |words|);
    }
  }

  /** A text without words has keyword score 0. */
  lemma KeywordScoreOfBlankText(text: string, keywords: seq<string>, deviation: seq<nat> -> real)
    requires AllSpace(text)
    ensures KeywordScore(text, keywords, deviation) == 0.0
  {
    LowerKeepsSpaces(text);
    assert AllSpace(Lower(text));
    KeywordScoreWithoutMatch(text, keywords, deviation);
  }

  /** Matching is by whole whitespace word, so keywords that are empty or
      contain whitespace (such as "wireless mouse") never count. */
  lemma KeywordScoreIgnoresPhrases(text: string, keywords: seq<string>, deviation: seq<nat> -> real)
    requires forall i :: 0 <= i < |keywords| ==> !IsToken(keywords[i])
    ensures KeywordScore(text, keywords, deviation) == 0.0
  {
    forall k | k in keywords
      ensures !IsToken(Lower(k))
    {
      LowerKeepsSpaces(k);
    }
    KeywordScoreWithoutMatch(text, keywords, deviation);
  }

  /** The keyword score sees its keywords only through the set of their
      lower-cased forms. */
  lemma KeywordScoreSameTargets(text: string, k1: seq<string>, k2: seq<string>, deviation: seq<nat> -> real)
    requires KeywordTargets(k1) == KeywordTargets(k2)
    ensures KeywordScore(text, k1, deviation) == KeywordScore(text, k2, deviation)
  {
    assert k1 == [] <==> k2 == [] by {
      if k1 != [] {
        assert Lower(k1[0]) in KeywordTargets(k1);
      }
      if k2 != [] {
        assert Lower(k2[0]) in KeywordTargets(k2);
      }
    }
    var words := Words(Lower(text));
    LowerAllTargets(k1);
    LowerAllTargets(k2);
    MatchPositionsSameTargets(words, LowerAll(k1), LowerAll(k2));
    MatchCountIsPositions(words, LowerAll(k1));
    MatchCountIsPositions(words, LowerAll(k2));
  }

  /** Reordering the keywords leaves the targets alone. */
  lemma TargetsOfPermutation(k1: seq<string>, k2: seq<string>)
    requires multiset(k1) == multiset(k2)
    ensures KeywordTargets(k1) == KeywordTargets(k2)
  {
    assert forall k :: k in k1 <==> k in multiset(k1);
    assert forall k :: k in k2 <==> k in multiset(k2);
  }

  /** Repeating a keyword leaves the targets alone. */
  lemma TargetsOfDuplicate(keywords: seq<string>, i: nat)
    requires i < |keywords|
    ensures KeywordTargets(keywords + [keywords[i]]) == KeywordTargets(keywords)
  {
  }
}
