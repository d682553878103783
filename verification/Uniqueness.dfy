/** `SEOScorer.calculate_uniqueness_score` (seo_scorer.py:89-110): one minus
    the mean word-set overlap between a text and the pool entries that
    differ from it. */
module UniquenessMetric {
  import opened Text
  import opened Numeric

  /** `set(s.lower().split())` */
  function WordSet(s: string): set<string> {
    set w | w in Words(Lower(s))
  }

  lemma WordSetEmpty(s: string)
    ensures WordSet(s) == {} <==> Words(Lower(s)) == []
  {
    if Words(Lower(s)) != [] {
      assert Words(Lower(s))[0] in WordSet(s);
    }
  }

  /** Comparing `text` with `other` does not divide by zero: `other` is
      skipped because it equals `text`, or one of the two has a word. */
  predicate Comparable(text: string, other: string) {
    other == text || Words(Lower(text)) != [] || Words(Lower(other)) != []
  }

  /** The score can be computed: the source raises `ZeroDivisionError`
      exactly when some entry differs from the text and both are blank. */
  predicate UniquenessDefined(text: string, pool: seq<string>) {
    forall i :: 0 <= i < |pool| ==> Comparable(text, pool[i])
  }

  /** No entry that differs from the text shares a word with it. */
  predicate NoSharedWords(text: string, pool: seq<string>) {
    forall i :: 0 <= i < |pool| && pool[i] != text ==> WordSet(text) * WordSet(pool[i]) == {}
  }

  lemma SubsetCard<T>(a: set<T>, b: set<T>)
    requires a <= b
    ensures |a| <= |b|
    ensures a != b ==> |a| < |b|
  {
    var d := b - a;
    assert a * d == {};
    assert a + d == b;
    if a != b {
      var x :| x in b && x !in a;
      assert x in d;
    }
  }

  /** `len(A & B) / max(len(A), len(B))` */
  function Overlap(a: set<string>, b: set<string>): (r: real)
    requires a != {} || b != {}
    ensures 0.0 <= r <= 1.0
    ensures r == 0.0 <==> a * b == {}
  {
    SubsetCard(a * b, a);
    SubsetCard(a * b, b);
    MeanBounds(|a * b| as real, MaxNat(|a|, |b|) as real);
    (|a * b| as real) / (MaxNat(|a|, |b|) as real)
  }

  /** The overlap is 1 exactly for equal word sets. */
  lemma OverlapOne(a: set<string>, b: set<string>)
    requires a != {} || b != {}
    ensures Overlap(a, b) == 1.0 <==> a == b
  {
    OverlapFull(a, b);
    FullIntersection(a, b);
  }

  /** The overlap is 1 exactly when the intersection is as large as the
      larger set. */
  lemma OverlapFull(a: set<string>, b: set<string>)
    requires a != {} || b != {}
    ensures Overlap(a, b) == 1.0 <==> |a * b| == MaxNat(|a|, |b|)
  {
    var c := |a * b| as real;
    var m := MaxNat(|a|, |b|) as real;
    assert m > 0.0;
    assert (c / m) * m == c;
    CompareScaled(c / m, m, c, 1.0);
  }

  /** The intersection is as large as the larger set exactly for equal sets. */
  lemma FullIntersection(a: set<string>, b: set<string>)
    ensures |a * b| == MaxNat(|a|, |b|) <==> a == b
  {
    SubsetCard(a * b, a);
    SubsetCard(a * b, b);
    if a == b {
      assert a * b == a;
    }
  }

  /** The overlap of the word sets of `text` and `other`. */
  function PairSimilarity(text: string, other: string): (r: real)
    requires Words(Lower(text)) != [] || Words(Lower(other)) != []
    ensures 0.0 <= r <= 1.0
    ensures r == 0.0 <==> WordSet(text) * WordSet(other) == {}
  {
    WordSetEmpty(text);
    WordSetEmpty(other);
    Overlap(WordSet(text), WordSet(other))
  }

  /** The `similarities` list: one overlap per pool entry that differs from
      `text`, in pool order. */
  function Similarities(text: string, pool: seq<string>): (sims: seq<real>)
    requires UniquenessDefined(text, pool)
    ensures AllUnit(sims)
    ensures |sims| <= |pool|
    ensures sims == [] <==> forall i :: 0 <= i < |pool| ==> pool[i] == text
  {
    if pool == [] then []
    else
      var rest := Similarities(text, pool[1..]);
      assert forall i :: 1 <= i < |pool| ==> pool[1..][i - 1] == pool[i];
      if pool[0] == text then rest
      else [PairSimilarity(text, pool[0])] + rest
  }

  /** `calculate_uniqueness_score`: 1.0 for an empty pool or when every
      entry equals the text; otherwise one minus the mean overlap, floored
      at 0. */
  function UniquenessScore(text: string, pool: seq<string>): (r: real)
    requires UniquenessDefined(text, pool)
    ensures 0.0 <= r <= 1.0
    ensures pool == [] ==> r == 1.0
    ensures (forall i :: 0 <= i < |pool| ==> pool[i] == text) ==> r == 1.0
  {
    if pool == [] then 1.0
    else
      var sims := Similarities(text, pool);
      if sims == [] then 1.0
      else
        SumBounds(sims);
        MeanBounds(Sum(sims), |sims| as real);
        var avg := Sum(sims) / |sims| as real;
        if 1.0 - avg < 0.0 then 0.0 else 1.0 - avg
  }

  /** The pool without the entries equal to `text`. */
  function Without(pool: seq<string>, text: string): (r: seq<string>)
    ensures forall x :: x in r <==> x in pool && x != text
  {
    if pool == [] then []
    else (if pool[0] == text then [] else [pool[0]]) + Without(pool[1..], text)
  }

  lemma {:induction false} SimilaritiesWithout(text: string, pool: seq<string>)
    requires UniquenessDefined(text, pool)
    ensures UniquenessDefined(text, Without(pool, text))
    ensures Similarities(text, pool) == Similarities(text, Without(pool, text))
  {
    var w := Without(pool, text);
    forall i | 0 <= i < |w|
      ensures Comparable(text, w[i])
    {
      assert w[i] in w;
      var j :| 0 <= j < |pool| && pool[j] == w[i];
    }
    if pool != [] {
      assert forall i :: 1 <= i < |pool| ==> pool[1..][i - 1] == pool[i];
      SimilaritiesWithout(text, pool[1..]);
      if pool[0] != text {
        assert w == [pool[0]] + Without(pool[1..], text);
        assert w[1..] == Without(pool[1..], text);
      } else {
        assert w == Without(pool[1..], text);
      }
    }
  }

  /** The `similarities` list holds one overlap per pool entry that differs
      from the text, in pool order. */
  lemma SimilaritiesPerEntry(text: string, pool: seq<string>)
    requires UniquenessDefined(text, pool)
    ensures UniquenessDefined(text, Without(pool, text))
    ensures |Similarities(text, pool)| == |Without(pool, text)|
    ensures forall j :: 0 <= j < |Without(pool, text)| ==>
              Without(pool, text)[j] != text
              && Similarities(text, pool)[j] == PairSimilarity(text, Without(pool, text)[j])
  {
    var w := Without(pool, text);
    SimilaritiesWithout(text, pool);
    forall j | 0 <= j < |w|
      ensures w[j] != text
    {
      assert w[j] in w;
    }
    SimilaritiesOfDistinct(text, w);
  }

  /** On a pool with no copy of the text, similarity j compares entry j. */
  lemma {:induction false} SimilaritiesOfDistinct(text: string, pool: seq<string>)
    requires UniquenessDefined(text, pool)
    requires forall i :: 0 <= i < |pool| ==> pool[i] != text
    ensures |Similarities(text, pool)| == |pool|
    ensures forall j :: 0 <= j < |pool| ==> Similarities(text, pool)[j] == PairSimilarity(text, pool[j])
  {
    if pool != [] {
      var rest := pool[1..];
      SimilaritiesCons(text, pool);
      SimilaritiesOfDistinct(text, rest);
      var tail := Similarities(text, rest);
      var sims := Similarities(text, pool);
      forall j | 0 <= j < |pool|
        ensures sims[j] == PairSimilarity(text, pool[j])
      {
        if j > 0 {
          assert sims[j] == tail[j - 1];
          assert rest[j - 1] == pool[j];
        }
      }
    }
  }

  /** An entry that differs from the text contributes the first similarity. */
  lemma SimilaritiesCons(text: string, pool: seq<string>)
    requires UniquenessDefined(text, pool)
    requires pool != [] && pool[0] != text
    ensures UniquenessDefined(text, pool[1..])
    ensures Similarities(text, pool) == [PairSimilarity(text, pool[0])] + Similarities(text, pool[1..])
  {
    assert forall i :: 1 <= i < |pool| ==> pool[1..][i - 1] == pool[i];
  }

  /** Entries equal to the text are ignored: dropping them (or adding more
      copies) leaves the score unchanged. */
  lemma UniquenessIgnoresCopies(text: string, pool: seq<string>)
    requires UniquenessDefined(text, pool)
    ensures UniquenessDefined(text, Without(pool, text))
    ensures UniquenessScore(text, pool) == UniquenessScore(text, Without(pool, text))
  {
    SimilaritiesWithout(text, pool);
  }

  lemma NoSharedWordsCons(text: string, pool: seq<string>)
    requires pool != []
    ensures NoSharedWords(text, pool)
        <==> (pool[0] != text ==> WordSet(text) * WordSet(pool[0]) == {}) && NoSharedWords(text, pool[1..])
  {
    assert forall i :: 1 <= i < |pool| ==> pool[1..][i - 1] == pool[i];
    if (pool[0] != text ==> WordSet(text) * WordSet(pool[0]) == {}) && NoSharedWords(text, pool[1..]) {
      forall i | 0 <= i < |pool| && pool[i] != text
        ensures WordSet(text) * WordSet(pool[i]) == {}
      {
        if i > 0 {
          assert pool[1..][i - 1] == pool[i];
        }
      }
    }
  }

  /** Every overlap is zero exactly when no compared entry shares a word. */
  lemma {:induction false} SimilaritiesZero(text: string, pool: seq<string>)
    requires UniquenessDefined(text, pool)
    ensures AllZero(Similarities(text, pool)) <==> NoSharedWords(text, pool)
  {
    if pool != [] {
      assert forall i :: 1 <= i < |pool| ==> pool[1..][i - 1] == pool[i];
      SimilaritiesZero(text, pool[1..]);
      NoSharedWordsCons(text, pool);
      var rest := Similarities(text, pool[1..]);
      if pool[0] != text {
        var sims := [PairSimilarity(text, pool[0])] + rest;
        assert sims[1..] == rest;
        assert AllZero(sims) <==> sims[0] == 0.0 && AllZero(rest) by {
          if sims[0] == 0.0 && AllZero(rest) {
            forall j | 0 <= j < |sims|
              ensures sims[j] == 0.0
            {
              if j > 0 {
                assert sims[j] == rest[j - 1];
              }
            }
          }
          if AllZero(sims) {
            forall j | 0 <= j < |rest|
              ensures rest[j] == 0.0
            {
              assert rest[j] == sims[j + 1];
            }
          }
        }
      }
    }
  }

  /** The score is 1.0 exactly when no compared entry shares a word with
      the text. */
  lemma UniquenessOneIff(text: string, pool: seq<string>)
    requires UniquenessDefined(text, pool)
    ensures UniquenessScore(text, pool) == 1.0 <==> NoSharedWords(text, pool)
  {
    if pool != [] {
      var sims := Similarities(text, pool);
      SimilaritiesZero(text, pool);
      if sims != [] {
        SumBounds(sims);
        MeanBounds(Sum(sims), |sims| as real);
      }
    }
  }
}
