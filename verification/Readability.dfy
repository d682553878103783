/** `SEOScorer.calculate_readability_score` (seo_scorer.py:38-51). The two
    `textstat` statistics come from outside; a statistic that cannot be
    computed is `None`. */
module ReadabilityMetric {
  import opened Numeric
  import opened Optional

  /** `max(0, min(1, flesch / 100))` */
  function EasePart(flesch: real): (r: real)
    ensures 0.0 <= r <= 1.0
    ensures r == 1.0 <==> flesch >= 100.0
    ensures r == 0.0 <==> flesch <= 0.0
  {
    Clamp(flesch / 100.0)
  }

  /** `max(0, min(1, 1 - (grade - 7) / 10))` */
  function GradePart(grade: real): (r: real)
    ensures 0.0 <= r <= 1.0
    ensures r == 1.0 <==> grade <= 7.0
    ensures r == 0.0 <==> grade >= 17.0
  {
    Clamp(1.0 - (grade - 7.0) / 10.0)
  }

  /** The readability of a text whose two statistics were computed: the mean
      of the two clamped parts. */
  function ReadabilityOf(flesch: real, grade: real): (r: real)
    ensures 0.0 <= r <= 1.0
    ensures grade <= 7.0 ==> r == (EasePart(flesch) + 1.0) / 2.0
    ensures r == 1.0 <==> flesch >= 100.0 && grade <= 7.0
    ensures r == 0.0 <==> flesch <= 0.0 && grade >= 17.0
  {
    (EasePart(flesch) + GradePart(grade)) / 2.0
  }

  /** Easier text (higher reading ease, lower grade) never scores lower. */
  lemma ReadabilityMonotone(f1: real, g1: real, f2: real, g2: real)
    requires f1 <= f2 && g2 <= g1
    ensures ReadabilityOf(f1, g1) <= ReadabilityOf(f2, g2)
  {
    assert f1 / 100.0 <= f2 / 100.0;
    assert 1.0 - (g1 - 7.0) / 10.0 <= 1.0 - (g2 - 7.0) / 10.0;
  }

  /** `calculate_readability_score`: the neutral 0.5 when either statistic
      raised, the mean of the two parts otherwise. */
  function ReadabilityScore(text: string, readingEase: string -> Option<real>, gradeLevel: string -> Option<real>): (r: real)
    ensures 0.0 <= r <= 1.0
    ensures readingEase(text).None? || gradeLevel(text).None? ==> r == 0.5
    ensures readingEase(text).Some? && gradeLevel(text).Some? ==>
              r == ReadabilityOf(readingEase(text).value, gradeLevel(text).value)
  {
    match readingEase(text)
    case None => 0.5
    case Some(flesch) =>
      match gradeLevel(text)
      case None => 0.5
      case Some(grade) => ReadabilityOf(flesch, grade)
  }
}
