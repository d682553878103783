/** `SEOScorer.calculate_length_score` (seo_scorer.py:53-64): a step function
    of the whitespace word count with no interpolation between the steps. */
module LengthMetric {
  import opened Text

  /** `calculate_length_score`: 1.0 for 100..150 words, 0.3 below 50, 0.7
      above 200, 0.8 in the two bands between. */
  function LengthScore(text: string): (r: real)
    ensures var n := |Words(text)|;
      && (r == 1.0 <==> 100 <= n <= 150)
      && (r == 0.8 <==> 50 <= n < 100 || 150 < n <= 200)
      && (r == 0.3 <==> n < 50)
      && (r == 0.7 <==> n > 200)
  {
    var n := |Words(text)|;
    if 100 <= n <= 150 then 1.0
    else if n < 50 then 0.3
    else if n > 200 then 0.7
    else 0.8
  }

  /** The breakpoints, on texts made of `|ws|` words separated by spaces. */
  lemma LengthBreakpoints(ws: seq<string>)
    requires forall i :: 0 <= i < |ws| ==> IsToken(ws[i])
    ensures |ws| == 49 ==> LengthScore(Join(ws, " ")) == 0.3
    ensures |ws| == 50 ==> LengthScore(Join(ws, " ")) == 0.8
    ensures |ws| == 99 ==> LengthScore(Join(ws, " ")) == 0.8
    ensures |ws| == 100 ==> LengthScore(Join(ws, " ")) == 1.0
    ensures |ws| == 150 ==> LengthScore(Join(ws, " ")) == 1.0
    ensures |ws| == 151 ==> LengthScore(Join(ws, " ")) == 0.8
    ensures |ws| == 200 ==> LengthScore(Join(ws, " ")) == 0.8
    ensures |ws| == 201 ==> LengthScore(Join(ws, " ")) == 0.7
  {
    WordsOfJoin(ws);
  }
}
