/** `SEOScorer.score_description` (seo_scorer.py:8-14, 112-135): the five
    metrics combined with fixed weights into one overall score, reported
    together with each metric on a 0-100 scale. Rounding to two decimals is
    not modelled: every figure here is the value before `round`. */
module Scorer {
  import opened Optional
  import opened KeywordMetric
  import opened ReadabilityMetric
  import opened LengthMetric
  import opened StructureMetric
  import opened UniquenessMetric

  const KeywordWeight: real := 0.3
  const ReadabilityWeight: real := 0.2
  const LengthWeight: real := 0.15
  const StructureWeight: real := 0.2
  const UniquenessWeight: real := 0.15

  /** The foreign routines the scorer calls; `None` stands for a call that
      raised. */
  datatype Library = Library(
    readingEase: string -> Option<real>,   // textstat.flesch_reading_ease
    gradeLevel: string -> Option<real>,    // textstat.flesch_kincaid_grade
    deviation: seq<nat> -> real)           // np.std of the keyword positions

  /** The `overall_score` and the five `detailed_scores`, unrounded. */
  datatype Report = Report(
    overall: real,
    keyword: real,
    readability: real,
    length: real,
    structure: real,
    uniqueness: real)

  function Weighted(k: real, r: real, l: real, s: real, u: real): real {
    KeywordWeight * k + ReadabilityWeight * r + LengthWeight * l + StructureWeight * s + UniquenessWeight * u
  }

  /** The weights form a convex combination. */
  lemma WeightsSumToOne()
    ensures KeywordWeight + ReadabilityWeight + LengthWeight + StructureWeight + UniquenessWeight == 1.0
    ensures KeywordWeight > 0.0 && ReadabilityWeight > 0.0 && LengthWeight > 0.0
    ensures StructureWeight > 0.0 && UniquenessWeight > 0.0
  {
  }

  /** `score_description`, before rounding. */
  function ScoreDescription(text: string, keywords: seq<string>, pool: seq<string>, lib: Library): (r: Report)
    requires UniquenessDefined(text, pool)
    ensures r.keyword == 100.0 * KeywordScore(text, keywords, lib.deviation)
    ensures r.readability == 100.0 * ReadabilityScore(text, lib.readingEase, lib.gradeLevel)
    ensures r.length == 100.0 * LengthScore(text)
    ensures r.structure == 100.0 * StructureScore(text)
    ensures r.uniqueness == 100.0 * UniquenessScore(text, pool)
    ensures r.overall == Weighted(r.keyword, r.readability, r.length, r.structure, r.uniqueness)
    ensures 0.0 <= r.overall <= 100.0
    ensures 0.0 <= r.keyword <= 100.0 && 0.0 <= r.readability <= 100.0 && 0.0 <= r.length <= 100.0
    ensures 0.0 <= r.structure <= 100.0 && 0.0 <= r.uniqueness <= 100.0
    ensures keywords == [] ==> r.keyword == 0.0
    ensures pool == [] ==> r.uniqueness == 100.0
    ensures r.length == 30.0 || r.length == 70.0 || r.length == 80.0 || r.length == 100.0
  {
    var k := KeywordScore(text, keywords, lib.deviation);
    var rd := ReadabilityScore(text, lib.readingEase, lib.gradeLevel);
    var l := LengthScore(text);
    var s := StructureScore(text);
    var u := UniquenessScore(text, pool);
    Report(100.0 * Weighted(k, rd, l, s, u), 100.0 * k, 100.0 * rd, 100.0 * l, 100.0 * s, 100.0 * u)
  }

  /** The score depends on the keywords only through their lower-cased set:
      order, repetition and letter case of the keywords do not matter. */
  lemma ScoreSameTargets(text: string, k1: seq<string>, k2: seq<string>, pool: seq<string>, lib: Library)
    requires UniquenessDefined(text, pool)
    requires KeywordTargets(k1) == KeywordTargets(k2)
    ensures ScoreDescription(text, k1, pool, lib) == ScoreDescription(text, k2, pool, lib)
  {
    KeywordScoreSameTargets(text, k1, k2, lib.deviation);
  }

  /** Reordering the keyword list leaves the whole report unchanged. */
  lemma ScoreKeywordOrder(text: string, k1: seq<string>, k2: seq<string>, pool: seq<string>, lib: Library)
    requires UniquenessDefined(text, pool)
    requires multiset(k1) == multiset(k2)
    ensures ScoreDescription(text, k1, pool, lib) == ScoreDescription(text, k2, pool, lib)
  {
    TargetsOfPermutation(k1, k2);
    ScoreSameTargets(text, k1, k2, pool, lib);
  }

  /** A perfect overall score needs a perfect score on every metric. */
  lemma ScorePerfectIff(text: string, keywords: seq<string>, pool: seq<string>, lib: Library)
    requires UniquenessDefined(text, pool)
    ensures var r := ScoreDescription(text, keywords, pool, lib);
      r.overall == 100.0 <==>
        r.keyword == 100.0 && r.readability == 100.0 && r.length == 100.0
        && r.structure == 100.0 && r.uniqueness == 100.0
  {
    var r := ScoreDescription(text, keywords, pool, lib);
    var gap := KeywordWeight * (100.0 - r.keyword) + ReadabilityWeight * (100.0 - r.readability)
             + LengthWeight * (100.0 - r.length) + StructureWeight * (100.0 - r.structure)
             + UniquenessWeight * (100.0 - r.uniqueness);
    assert r.overall == 100.0 - gap;
  }

  /** Without keywords the overall score cannot exceed 70. */
  lemma ScoreWithoutKeywords(text: string, pool: seq<string>, lib: Library)
    requires UniquenessDefined(text, pool)
    ensures ScoreDescription(text, [], pool, lib).overall <= 70.0
  {
  }
}
