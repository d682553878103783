/** The decision rules of the Celery tasks (celery_app/tasks.py), as pure
    functions over values already computed: the keyword fallback, the A/B
    choice between two generated descriptions, and `score_seo_description`.
    A task turns any exception into `{'status': 'error', 'error': str(e)}`;
    here that is `Error(message)`. */
module Tasks {
  import opened Text
  import opened Optional
  import opened Scorer
  import opened UniquenessMetric
  import opened DescriptionGenerator

  datatype Outcome<T> = Success(value: T) | Error(message: string)

  /** What `str(e)` gives for the `ZeroDivisionError` of the uniqueness score. */
  const DivisionByZero := "division by zero"

  /** The product record a task receives. `features` is `None` when the
      record has no 'Product Features' key. */
  datatype Product = Product(name: string, features: Option<string>)

  // ===========================================================================
  // Keyword fallback (tasks.py:25-33)

  /** The keywords a description is generated with, or a request for the
      keyword generator, which is not part of this model. */
  datatype KeywordChoice = Use(keywords: seq<string>) | GenerateRequested

  /** A non-empty match is used as is; otherwise the comma-separated
      features are used when there are at least three of them (at most
      five are kept), and fewer features ask for generated keywords. A
      record without features keeps the empty list. */
  function ChooseKeywords(matched: seq<string>, features: Option<string>): (c: KeywordChoice)
    ensures matched != [] ==> c == Use(matched)
    ensures matched == [] && features.None? ==> c == Use([])
    ensures matched == [] && features.Some? ==>
              (c.Use? <==> |SplitOn(features.value, ", ")| >= 3)
    ensures matched == [] && features.Some? && c.Use? ==>
              && 3 <= |c.keywords| <= 5
              && c.keywords <= SplitOn(features.value, ", ")
              && (|c.keywords| == 5 || c.keywords == SplitOn(features.value, ", "))
  {
    if matched != [] then Use(matched)
    else
      match features
      case None => Use([])
      case Some(text) =>
        var items := SplitOn(text, ", ");
        if |items| >= 3 then Use(if |items| <= 5 then items else items[..5])
        else GenerateRequested
  }

  /** Feature keywords are whole pieces of the feature text: joined back
      with ", " they spell the start of it. */
  lemma FallbackIsPrefixOfFeatures(features: string)
    requires ChooseKeywords([], Some(features)).Use?
    ensures Join(ChooseKeywords([], Some(features)).keywords, ", ") <= features
  {
    var items := SplitOn(features, ", ");
    var k := if |items| <= 5 then |items| else 5;
    assert ChooseKeywords([], Some(features)).keywords == items[..k];
    JoinPrefixOfSplit(features, ", ", k);
  }

  // ===========================================================================
  // A/B selection (tasks.py:36-41, 51-66, 90-94)

  datatype Variant = A | B

  /** The audit record of an A/B run: both texts, both overall scores and
      the label of the chosen one. */
  datatype ABRecord = ABRecord(textA: string, scoreA: real, textB: string, scoreB: real, selected: Variant) {
    function SelectedText(): string {
      if selected == A then textA else textB
    }
    function SelectedScore(): real {
      if selected == A then scoreA else scoreB
    }
  }

  /** `score_a >= score_b` keeps A; B wins only with a strictly higher score. */
  function SelectVariant(textA: string, scoreA: real, textB: string, scoreB: real): (r: ABRecord)
    ensures r.textA == textA && r.scoreA == scoreA && r.textB == textB && r.scoreB == scoreB
    ensures r.selected == B <==> scoreB > scoreA
    ensures scoreA == scoreB ==> r.selected == A
    ensures r.SelectedScore() >= scoreA && r.SelectedScore() >= scoreB
    ensures r.SelectedScore() == scoreA || r.SelectedScore() == scoreB
  {
    if scoreA >= scoreB then ABRecord(textA, scoreA, textB, scoreB, A)
    else ABRecord(textA, scoreA, textB, scoreB, B)
  }

  /** Apart from ties, the winner does not depend on which candidate was
      generated first. */
  lemma SelectionIgnoresOrder(textA: string, scoreA: real, textB: string, scoreB: real)
    requires scoreA != scoreB
    ensures SelectVariant(textA, scoreA, textB, scoreB).SelectedText()
         == SelectVariant(textB, scoreB, textA, scoreA).SelectedText()
    ensures SelectVariant(textA, scoreA, textB, scoreB).SelectedScore()
         == SelectVariant(textB, scoreB, textA, scoreA).SelectedScore()
  {
  }

  /** The A/B part of `process_product_description`: an empty initial
      description stops the task; otherwise both candidates are scored
      against the same pool (A first) and the better one is selected. */
  function ABTest(initial: string, descA: string, descB: string, keywords: seq<string>,
                  pool: seq<string>, lib: Library): (o: Outcome<ABRecord>)
    ensures initial == "" ==> o == Error("Failed to generate initial description")
    ensures o.Success? <==> initial != "" && UniquenessDefined(descA, pool) && UniquenessDefined(descB, pool)
    ensures o.Success? ==>
              && o.value.textA == descA && o.value.textB == descB
              && o.value.scoreA == ScoreDescription(descA, keywords, pool, lib).overall
              && o.value.scoreB == ScoreDescription(descB, keywords, pool, lib).overall
              && (o.value.selected == A ==> o.value.scoreA >= o.value.scoreB)
              && (o.value.selected == B ==> o.value.scoreB > o.value.scoreA)
  {
    if initial == "" then Error("Failed to generate initial description")
    else if !UniquenessDefined(descA, pool) then Error(DivisionByZero)
    else if !UniquenessDefined(descB, pool) then Error(DivisionByZero)
    else
      var scoreA := ScoreDescription(descA, keywords, pool, lib).overall;
      var scoreB := ScoreDescription(descB, keywords, pool, lib).overall;
      Success(SelectVariant(descA, scoreA, descB, scoreB))
  }

  // ===========================================================================
  // `score_seo_description` (tasks.py:107-127)

  /** Missing keywords and a missing pool both stand for the empty list. */
  function ScoreSeoDescription(description: string, keywords: Option<seq<string>>,
                               pool: Option<seq<string>>, lib: Library): (o: Outcome<Report>)
    ensures o.Success? <==> UniquenessDefined(description, pool.OrElse([]))
    ensures o.Error? ==> o.message == DivisionByZero
    ensures o.Success? ==> o.value == ScoreDescription(description, keywords.OrElse([]), pool.OrElse([]), lib)
    ensures pool.None? ==> o.Success? && o.value.uniqueness == 100.0
    ensures keywords.None? && o.Success? ==> o.value.keyword == 0.0
  {
    var ks := keywords.OrElse([]);
    var p := pool.OrElse([]);
    if UniquenessDefined(description, p) then Success(ScoreDescription(description, ks, p, lib))
    else Error(DivisionByZero)
  }

  /** A missing argument and an empty list give the same outcome. */
  lemma ScoreSeoMissingIsEmpty(description: string, lib: Library)
    ensures ScoreSeoDescription(description, None, None, lib)
         == ScoreSeoDescription(description, Some([]), Some([]), lib)
  {
  }

  // ===========================================================================
  // Keyword lookup of `process_product_description` (tasks.py:25-33)

  /** What `str(e)` gives for calling `generate_keywords`, a name the task
      module neither defines nor imports. */
  const GenerateKeywordsUndefined := "name 'generate_keywords' is not defined"

  /** What `str(e)` gives for the `KeyError` of `item['name']` on an
      extracted record without a name. */
  const MissingNameKey := "'name'"

  /** What `str(e)` gives for calling `.lower()` on the product record. */
  const RecordHasNoLower := "'dict' object has no attribute 'lower'"

  /** As written, the task hands the whole product record to
      `find_matching_keywords`. The first extracted entry ends the lookup in
      an error: `item['name']` raises when the entry has no name, and
      otherwise `product_name.lower()` raises on the record. With no
      extracted data, a product whose features are too few calls the
      undefined `generate_keywords`. */
  function TaskKeywordsAsWritten(product: Product, extracted: seq<KeywordEntry>): (o: Outcome<KeywordChoice>)
    ensures o.Success? <==> extracted == [] && !ChooseKeywords([], product.features).GenerateRequested?
    ensures extracted != [] && extracted[0].name.None? ==> o == Error(MissingNameKey)
    ensures extracted != [] && extracted[0].name.Some? ==> o == Error(RecordHasNoLower)
    ensures extracted == [] && ChooseKeywords([], product.features).GenerateRequested? ==>
              o == Error(GenerateKeywordsUndefined)
    ensures o.Success? ==> o.value == ChooseKeywords([], product.features) && o.value.Use?
  {
    if extracted != [] then
      if extracted[0].name.None? then Error(MissingNameKey) else Error(RecordHasNoLower)
    else
      match ChooseKeywords([], product.features)
      case GenerateRequested => Error(GenerateKeywordsUndefined)
      case Use(keywords) => Success(Use(keywords))
  }

  /** A product listed first in the extracted data, with its own keywords,
      still ends in an error as written. */
  lemma TaskKeywordsAsWrittenFails()
    ensures TaskKeywordsAsWritten(
              Product("Wireless Mouse", Some("ergonomic, 2.4GHz, silent click")),
              [KeywordEntry(Some("Wireless Mouse"), ["mouse", "wireless"])]).Error?
  {
  }

  /** A product with a single feature and no extracted data ends in the
      `NameError` as written, where the intended task asks the keyword
      generator. */
  lemma TaskKeywordsAsWrittenFewFeatures()
    ensures TaskKeywordsAsWritten(Product("Wireless Mouse", Some("ergonomic")), [])
         == Error(GenerateKeywordsUndefined)
    ensures TaskKeywords(Product("Wireless Mouse", Some("ergonomic")), []) == Success(GenerateRequested)
  {
    var f := "ergonomic";
    forall i | 0 <= i <= |f|
      ensures !OccursAt(f, ", ", i)
    {
      if i + 2 <= |f| {
        assert f[i..i + 2][0] == f[i] != ',';
      }
    }
    SplitCountContains(f, ", ");
  }

  /** The lookup by product name that the task evidently intends. Records
      without a name still raise the `KeyError` when the lookup reaches them. */
  function TaskKeywords(product: Product, extracted: seq<KeywordEntry>): (o: Outcome<KeywordChoice>)
    ensures (forall i :: 0 <= i < |extracted| ==> PassesOver(extracted[i], product.name))
              ==> o == Success(ChooseKeywords([], product.features))
    ensures o.Error? ==> o.message == MissingNameKey
    ensures o.Error? ==> exists i :: 0 <= i < |extracted| && extracted[i].name.None?
  {
    match FindMatchingKeywords(product.name, extracted)
    case MissingName => Error(MissingNameKey)
    case Found(matched) => Success(ChooseKeywords(matched, product.features))
  }

  /** With the intended task, the keyword generator is asked exactly when
      the lookup finds nothing and the product has fewer than three
      comma-separated features. */
  lemma TaskKeywordsRequestsGeneration(product: Product, extracted: seq<KeywordEntry>)
    ensures TaskKeywords(product, extracted) == Success(GenerateRequested)
        <==> && FindMatchingKeywords(product.name, extracted) == Found([])
             && product.features.Some?
             && |SplitOn(product.features.value, ", ")| < 3
  {
  }

  /** With the intended lookup, a product whose first matching entry has
      keywords is described with (the first five of) those keywords. */
  lemma TaskKeywordsUsesExtracted(product: Product, extracted: seq<KeywordEntry>, i: nat)
    requires FirstMatchAt(extracted, product.name, i)
    requires extracted[i].keywords != []
    ensures TaskKeywords(product, extracted).Success?
    ensures TaskKeywords(product, extracted).value.Use?
    ensures TaskKeywords(product, extracted).value.keywords <= extracted[i].keywords
    ensures 1 <= |TaskKeywords(product, extracted).value.keywords| <= 5
  {
    FindTakesFirstMatch(product.name, extracted, i);
  }

  /** Records in the shape keyword_extractor/pipeline.py writes carry no
      name, so the intended lookup fails as soon as it reaches one. */
  lemma TaskKeywordsUnnamedEntry(product: Product, extracted: seq<KeywordEntry>, i: nat)
    requires FirstUnnamedAt(extracted, product.name, i)
    ensures TaskKeywords(product, extracted) == Error(MissingNameKey)
  {
    FindStopsAtUnnamed(product.name, extracted, i);
  }
}
