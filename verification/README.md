# SEO description scorer: a Dafny model

This project models the scoring core of a product-description generator.
`SEOScorer` rates a marketing text with five metrics, each in [0, 1]:

- keyword density and spread;
- readability from two `textstat` statistics;
- a step function of the word count;
- four structural checks;
- word-set overlap with earlier descriptions.

It then combines them with the fixed weights 0.3 / 0.2 / 0.15 / 0.2 / 0.15 into
an overall score out of 100. Around the scorer, the model covers:

- `find_matching_keywords`, the case-insensitive first-match lookup of extracted
  keywords, and the keyword fallback of the task. Together they produce the
  keyword list that the scorer receives.
- The A/B rule, which scores two generated descriptions and keeps the better one.
- `score_seo_description`, the task that scores one description.

Modules, one per concern:

| module | file | models |
|---|---|---|
| `Text` | Text.dfy | the Python `str` operations the code relies on: `isspace`, `lower`, `split()`, `split(sep)`, `sep.join`, `strip`, `count`, `in` |
| `Numeric` | Numeric.dfy | `max(0, min(1, x))`, `abs`, `sum`, and mean bounds |
| `KeywordMetric`, `ReadabilityMetric`, `LengthMetric`, `StructureMetric`, `UniquenessMetric` | Keyword.dfy, Readability.dfy, Length.dfy, Structure.dfy, Uniqueness.dfy | the five `calculate_*_score` methods |
| `Scorer` | Scorer.dfy | the weights and `score_description` |
| `DescriptionGenerator` | Generator.dfy | `find_matching_keywords` |
| `Tasks` | Tasks.dfy | keyword fallback, A/B selection, `score_seo_description`, and the keyword lookup of `process_product_description` |
| `Optional` | Optional.dfy | `None`-or-value |

Whitespace is Python's own: `Text.IsSpace` lists every code point for which
`str.isspace` is true. So `split()` and `strip()` cut where Python cuts.

Some consequences of the code are easy to miss:

- A keyword matches only a whole whitespace-separated word of the lower-cased
  text. A keyword such as "wireless mouse" can never match
  (`KeywordScoreIgnoresPhrases`). Punctuation stays attached to its word, so
  "mouse," is a different word from "mouse".
- The task imports `improve_description` from description_generator.py, which
  does not define it, so there is no refinement loop to model.
- The density sub-score is 1 exactly when `50 * matches == words` and the text
  has at least one word. A blank text has density 0, and its density sub-score
  is therefore 0, not 1 (`DensityPeak`).
- The lookup reads `item['name']` of each entry it reaches. The records that
  keyword_extractor/pipeline.py:68-73 writes have no 'name' key, so on such
  data the lookup raises `KeyError('name')` at the first entry
  (`Tasks.TaskKeywordsUnnamedEntry`). The records of keyword_extractor.py:136-141
  carry a name.

## Model

| member | source | states |
|---|---|---|
| `Scorer.WeightsSumToOne` | seo_scorer.py:10-14 | the five weights are positive and sum to 1 |
| `KeywordMetric.KeywordScore` | seo_scorer.py:16-36 | the keyword score lies in [0, 1] and is 0 for an empty keyword list, whatever the text |
| `KeywordMetric.MatchCount` | seo_scorer.py:22 | the matched-word count is at most the number of words; it is 0 exactly when no word is a target, and equals the number of words exactly when every word is one |
| `KeywordMetric.MatchPositions` | seo_scorer.py:29 | the positions are strictly increasing indices of words that are targets, and every index of such a word is among them |
| `KeywordMetric.DensityScore` | seo_scorer.py:25-26 | the density sub-score lies in [0, 1] whatever the counts |
| `Numeric.Clamp` | seo_scorer.py:26 | `max(0, min(1, x))` lies in [0, 1]; it is x when x is in that range, 0 when x ≤ 0 and 1 when x ≥ 1 (the same clamp is applied at lines 32, 43 and 47) |
| `KeywordMetric.MatchCountIsPositions` | seo_scorer.py:22-29 | the matched-word count equals the length of the match-position list, although the code computes the two separately |
| `KeywordMetric.DensityPeak` | seo_scorer.py:25-26 | the density sub-score is 1 exactly when the text has words and 50 × matches = words (2%); it is 0 exactly for no words, no matches, or density ≥ 4% |
| `KeywordMetric.DensityPercent` | seo_scorer.py:25 | on a text with words, the matched percentage equals 2 exactly when 50 × matches = words, is at least 4 exactly when 25 × matches ≥ words, and is at most 0 exactly when nothing matches |
| `KeywordMetric.KeywordScoreByDensity` | seo_scorer.py:25-36 | with keywords, the score lies between D/2 and (D + 1)/2, where D is the density sub-score of the text |
| `KeywordMetric.KeywordScoreAtPeak` | seo_scorer.py:25-36 | with keywords, a text with words whose matches are exactly 2% of its words scores at least 0.5 |
| `KeywordMetric.KeywordScoreWithoutMatch` | seo_scorer.py:21-36 | when no lower-cased word equals a lower-cased keyword, both sub-scores are 0 and so is the score |
| `KeywordMetric.KeywordScoreOfBlankText` | seo_scorer.py:21-36 | a text of whitespace only scores 0 on keywords |
| `KeywordMetric.KeywordScoreIgnoresPhrases` | seo_scorer.py:21-22 | keywords that are empty or contain whitespace never match, so such a keyword list scores 0 |
| `KeywordMetric.KeywordScoreSameTargets` | seo_scorer.py:18-36 | two keyword lists with the same set of lower-cased keywords give the same keyword score |
| `KeywordMetric.TargetsOfPermutation` | seo_scorer.py:22 | reordering the keywords leaves the set of lower-cased keywords unchanged |
| `KeywordMetric.TargetsOfDuplicate` | seo_scorer.py:22 | repeating a keyword leaves the set of lower-cased keywords unchanged |
| `ReadabilityMetric.ReadabilityOf` | seo_scorer.py:41-49 | the readability of computed statistics lies in [0, 1]; a grade ≤ 7 makes the grade part 1; it is 1 exactly for ease ≥ 100 and grade ≤ 7, and 0 exactly for ease ≤ 0 and grade ≥ 17 |
| `ReadabilityMetric.EasePart` | seo_scorer.py:42-43 | the reading-ease part lies in [0, 1]; it is 1 exactly for ease ≥ 100 and 0 exactly for ease ≤ 0 |
| `ReadabilityMetric.GradePart` | seo_scorer.py:46-47 | the grade part lies in [0, 1]; it is 1 exactly for grade ≤ 7 and 0 exactly for grade ≥ 17 |
| `ReadabilityMetric.ReadabilityMonotone` | seo_scorer.py:41-49 | higher reading ease and lower grade never lower the readability |
| `ReadabilityMetric.ReadabilityScore` | seo_scorer.py:38-51 | the readability lies in [0, 1] and is exactly 0.5 when either statistic fails |
| `LengthMetric.LengthScore` | seo_scorer.py:53-64 | the length score is 1.0 exactly for 100..150 words, 0.8 exactly for 50..99 and 151..200, 0.3 exactly below 50, and 0.7 exactly above 200 |
| `LengthMetric.LengthBreakpoints` | seo_scorer.py:55-64 | on texts of n space-separated words the score jumps at 49/50, 99/100, 150/151 and 200/201 |
| `StructureMetric.StructureScore` | seo_scorer.py:66-87 | the structure score lies in [0, 1] |
| `StructureMetric.StructureScoreParts` | seo_scorer.py:68-87 | the score is 0.3·[contains "\n\n"] + 0.2·[contains •, - or *] + 0.2·[some colon ends its line up to whitespace] + 0.3·[≥ 3 '.' and ≥ 2 ','] |
| `StructureMetric.HasBullet` | seo_scorer.py:76 | the list-marker test holds exactly when the text has a positive number of '•', '-' and '*' characters together |
| `StructureMetric.WellPunctuated` | seo_scorer.py:84 | the punctuation test holds exactly when at least three positions of the text hold '.' and at least two hold ',' |
| `StructureMetric.HasColonLine` | seo_scorer.py:80 | the line-by-line heading test holds exactly when some ':' in the text has only whitespace after it up to the next line feed |
| `StructureMetric.HeadingCheck` | seo_scorer.py:80 | some `\n`-line ends with ':' after `strip()` exactly when some ':' in the text has only whitespace after it up to the next line feed |
| `StructureMetric.StripColon` | seo_scorer.py:80 | `line.strip().endswith(':')` holds exactly when the line has a ':' followed only by whitespace |
| `Text.SplitCountContains` | seo_scorer.py:71-72 | `split(sep)` gives at least two pieces exactly when `sep` occurs in the text |
| `Text.SplitJoin` | seo_scorer.py:71 | joining the pieces of `split(sep)` with `sep` restores the text |
| `Text.WordsOfJoin` | seo_scorer.py:55 | `split()` of words joined by single spaces returns those words |
| `Text.Words` | seo_scorer.py:21 | every piece of `split()` is non-empty and free of whitespace, and there are none exactly when the text is all whitespace |
| `Text.WordsAroundSpace` | seo_scorer.py:21 | any single whitespace character separates words: `split()` of a, then a whitespace character, then b is `split()` of a followed by `split()` of b |
| `Text.SplitOn` | seo_scorer.py:71 | `split(sep)` yields at least one piece, no piece contains `sep`, and the first piece is a prefix of the text (the same split is used at line 80 and at celery_app/tasks.py:28) |
| `Text.TrimStart` | seo_scorer.py:80 | the left half of `strip()` returns a suffix of the text, drops only whitespace, and leaves a result that is empty or starts with a visible character |
| `Text.TrimEnd` | seo_scorer.py:80 | the right half of `strip()` returns a prefix of the text, drops only whitespace, and leaves a result that is empty or ends with a visible character |
| `Text.Strip` | seo_scorer.py:80 | `strip()` returns text that is empty or starts and ends with a visible character, and it is empty exactly when the input is all whitespace |
| `Text.StripAt` | seo_scorer.py:80 | whenever a text is whitespace, then a middle that is empty or starts and ends with a visible character, then whitespace, `strip()` returns that middle |
| `Text.CountChar` | seo_scorer.py:84 | `count(c)` is at most the length of the text and is 0 exactly when c does not occur |
| `Text.CountCharAppend` | seo_scorer.py:84 | `count(c)` of a concatenation is the sum of the counts of its parts |
| `Text.CountCharIndices` | seo_scorer.py:84 | `count(c)` equals the number of positions of the text that hold c |
| `Text.LowerIdempotent` | description_generator.py:41 | lower-casing a lower-cased string changes nothing |
| `UniquenessMetric.UniquenessScore` | seo_scorer.py:89-110 | the uniqueness lies in [0, 1], and is 1.0 for an empty pool or a pool whose entries all equal the text |
| `UniquenessMetric.UniquenessIgnoresCopies` | seo_scorer.py:98-100 | removing the pool entries equal to the text changes nothing |
| `UniquenessMetric.UniquenessOneIff` | seo_scorer.py:95-110 | the uniqueness is 1.0 exactly when no pool entry that differs from the text shares a lower-cased word with it |
| `UniquenessMetric.Overlap` | seo_scorer.py:102-103 | the pair similarity lies in [0, 1] and is 0 exactly for disjoint word sets |
| `UniquenessMetric.PairSimilarity` | seo_scorer.py:101-103 | the similarity of the text with one pool entry (when either has a word) lies in [0, 1] and is 0 exactly when their lower-cased word sets are disjoint |
| `UniquenessMetric.OverlapOne` | seo_scorer.py:102-103 | the pair similarity is 1 exactly when the two word sets are equal |
| `UniquenessMetric.Similarities` | seo_scorer.py:96-104 | every similarity lies in [0, 1]; there are at most as many as pool entries; the list is empty exactly when every entry equals the text |
| `UniquenessMetric.SimilaritiesPerEntry` | seo_scorer.py:96-104 | there is exactly one similarity per pool entry that differs from the text, in pool order, and similarity j is the overlap of the text with the j-th such entry |
| `Scorer.ScoreDescription` | seo_scorer.py:112-135 | each detailed score is 100 × its metric on the same text (keywords and pool as given); the overall score is the weighted sum of the five detailed scores; all of them lie in [0, 100]; no keywords gives keyword 0; an empty pool gives uniqueness 100; the length detail is 30, 70, 80 or 100 |
| `Scorer.ScoreSameTargets` | seo_scorer.py:112-120 | keyword lists with the same lower-cased set give the same report |
| `Scorer.ScoreKeywordOrder` | seo_scorer.py:112-120 | reordering the keyword list leaves the whole report unchanged |
| `Scorer.ScorePerfectIff` | seo_scorer.py:130 | the overall score is 100 exactly when all five detailed scores are 100 |
| `Scorer.ScoreWithoutKeywords` | seo_scorer.py:115-130 | without keywords the overall score is at most 70 |
| `DescriptionGenerator.FindMatchingKeywords` | description_generator.py:38-43 | a returned list has at most five keywords; it is empty when every entry has a name and none matches the product name ignoring case; the `KeyError` for a missing 'name' arises only when some entry has no name |
| `DescriptionGenerator.FindTakesFirstMatch` | description_generator.py:40-42 | when entry i is the first whose name matches and every earlier entry has a name, the result is a list, namely the prefix of min(5, n) of its n keywords |
| `DescriptionGenerator.FindStopsAtUnnamed` | description_generator.py:40-41 | when the loop reaches an entry without a name (every earlier entry has a non-matching name), the lookup raises the `KeyError` |
| `DescriptionGenerator.FirstMatchWins` | description_generator.py:40-42 | entries after a match are never consulted |
| `DescriptionGenerator.NonMatchesSkipped` | description_generator.py:40-43 | entries that have a name and do not match are skipped without effect |
| `DescriptionGenerator.FindIgnoresCase` | description_generator.py:41 | the lookup gives the same result for a name and its lower-cased form |
| `Tasks.ChooseKeywords` | celery_app/tasks.py:25-33 | a non-empty match is used unchanged; without a match and without features the list stays empty; with features, keywords are used exactly when splitting on ", " yields ≥ 3 items, and they are the first min(5, n) of those n items; otherwise generation is requested |
| `Tasks.FallbackIsPrefixOfFeatures` | celery_app/tasks.py:27-30 | the fallback keywords joined with ", " are a prefix of the feature text |
| `Tasks.SelectVariant` | celery_app/tasks.py:58-66 | the record carries both texts and both scores; B is selected exactly when its score is strictly greater; a tie selects A; the selected score is the maximum of the two |
| `Tasks.SelectionIgnoresOrder` | celery_app/tasks.py:59-66 | without a tie, swapping the two candidates selects the same text and score |
| `Tasks.ABTest` | celery_app/tasks.py:36-66 | an empty initial description is an error; otherwise the run succeeds exactly when both candidates can be scored, the record holds both overall scores, and the selected one is not worse |
| `Tasks.ScoreSeoDescription` | celery_app/tasks.py:107-127 | the task fails (with "division by zero") exactly when the uniqueness cannot be computed; on success the report is the scorer's report with each missing argument replaced by the empty list; a missing pool always succeeds with uniqueness 100; missing keywords give keyword 0 |
| `Tasks.ScoreSeoMissingIsEmpty` | celery_app/tasks.py:116-117 | omitting the keywords and the pool gives the same outcome as passing empty lists |
| `Tasks.TaskKeywordsAsWritten` | celery_app/tasks.py:25-33 | as written, the keyword step succeeds exactly when the extracted data is empty and the fallback does not need generated keywords; a first entry with a name gives the `AttributeError` message, a first entry without one gives the `KeyError` message `'name'`, and a needed generation gives the `NameError` message for `generate_keywords` |
| `Tasks.TaskKeywordsAsWrittenFewFeatures` | celery_app/tasks.py:26-33 | a product with the single feature "ergonomic" and no extracted data gets the `NameError` as written, while the intended task requests generated keywords |
| `Tasks.TaskKeywordsAsWrittenFails` | celery_app/tasks.py:25 | a product whose name is the first extracted entry still gets an error |
| `Tasks.TaskKeywords` | celery_app/tasks.py:25-33 | with the lookup by product name, a product falls back to its features when every entry has a non-matching name; the task fails only with the `KeyError` message `'name'`, and only when some entry has no name |
| `Tasks.TaskKeywordsUnnamedEntry` | celery_app/tasks.py:25 | with the lookup by product name, reaching an entry without a name, as keyword_extractor/pipeline.py writes them, fails with `'name'` |
| `Tasks.TaskKeywordsRequestsGeneration` | celery_app/tasks.py:26-33 | with the intended task, generated keywords are requested exactly when the lookup finds nothing and the product has features that split into fewer than three items |
| `Tasks.TaskKeywordsUsesExtracted` | celery_app/tasks.py:25-26 | with the lookup by product name, a product whose first matching entry has keywords uses up to five of them |

## Findings

| source | as written | input that shows it | evidently intended | confidence | as-written member | corrected member |
|---|---|---|---|---|---|---|
| celery_app/tasks.py:25 | `find_matching_keywords(product_data, ...)` passes the whole product record where a name string is expected, so `product_name.lower()` raises `AttributeError` as soon as the first extracted entry carries a 'name' (an entry without one raises `KeyError('name')` first, in the corrected task too) | product `{'Product Name': 'Wireless Mouse', 'Product Features': 'ergonomic, 2.4GHz, silent click'}` with extracted data `[{'name': 'Wireless Mouse', 'keywords': ['mouse', 'wireless']}]`: the task reports an error instead of using the two keywords | `find_matching_keywords(product_data['Product Name'], extracted_keywords)`, as description_generator.py:93 does | high; not executed | `Tasks.TaskKeywordsAsWritten` | `Tasks.TaskKeywords` |
| celery_app/tasks.py:33 | `generate_keywords(product_data)` calls a name that celery_app/tasks.py neither defines nor imports (its imports are lines 1-10). The call raises `NameError`, and the handler at lines 101-105 turns it into an error result | product `{'Product Name': 'Wireless Mouse', 'Product Features': 'ergonomic'}` with no extracted data: one feature item is fewer than three, so the fallback calls `generate_keywords` | the keyword generator is imported and called, and the description is generated with its keywords | high; not executed | `Tasks.TaskKeywordsAsWritten` | `Tasks.TaskKeywords` |

For the first row, `Tasks.TaskKeywordsAsWrittenFails` exhibits the failing input.
`Tasks.TaskKeywordsUsesExtracted` proves the intended behaviour of the corrected lookup.

For the second row, `Tasks.TaskKeywordsAsWrittenFewFeatures` exhibits the failing input.
`Tasks.TaskKeywordsRequestsGeneration` proves when the corrected task asks for generated keywords.

## Left out

- Scorer.ScoreDescription: figures are the values before `round(…, 2)`. Python's binary-float rounding is not modelled, so the reported numbers can differ from the source's in the last two decimals.
- Tasks.ABTest: compares the unrounded overall scores. The source compares the rounded ones, so two candidates within 0.005 of each other can tie there and select A where the model selects B.
- Floating point: every score is a Dafny `real`, so the model has no float rounding in the sums and divisions.
- Text.Lower: lower-cases ASCII letters only. Python's `str.lower` is full Unicode, and some characters, such as 'İ', change length under it.
- `textstat.flesch_reading_ease` and `textstat.flesch_kincaid_grade` are foreign code (syllable counting). They are the fields `readingEase` and `gradeLevel` of `Scorer.Library`, returning `None` where the call raises.
- `np.std` of the match positions is foreign numeric code (a square root over floats). It is the field `deviation` of `Scorer.Library`. The clamp keeps the distribution sub-score in [0, 1] whatever it returns.
- UniquenessMetric.UniquenessScore: requires `UniquenessDefined` instead of modelling the `ZeroDivisionError` at seo_scorer.py:103. That error occurs exactly when an entry differs from the text and both are blank. At the task level (`Tasks.ScoreSeoDescription`, `Tasks.ABTest`) the same condition becomes the `Error("division by zero")` outcome.
- Module loading: celery_app/tasks.py:4-9 imports `improve_description` from description_generator.py, which does not define it. That module defines only `load_extracted_keywords`, `load_products`, `find_matching_keywords`, `generate_description` and `main`. So importing the task module raises `ImportError`. celery_app/__init__.py:22 imports the task module, so the Celery package fails to load too, and no task runs as written. The `Tasks` members model the task bodies on the assumption that the module loads.
- `improve_description` is not defined in description_generator.py. `generate_keywords` is neither defined nor imported in celery_app/tasks.py. The refinement after A/B selection (celery_app/tasks.py:68-80, 95-97) is left out. As written, a call to `generate_keywords` fails; see the second finding. In the corrected task, a request for generated keywords is the `GenerateRequested` result of `Tasks.ChooseKeywords`.
- `generate_description` calls a language model over the network. Its outputs are the text parameters `initial`, `descA` and `descB` of `Tasks.ABTest`.
- File I/O and orchestration are left out. This covers `load_products`, `load_extracted_keywords`, every `main`, reading the existing descriptions (celery_app/tasks.py:43-48), the Celery application and task dispatch. The pool and the extracted data are parameters.
- vectorizer.py, keyword_extractor.py, the keyword_extractor package, the old keyword extractor and web_scraper.py (embeddings, TF-IDF/RAKE, HTTP) are not part of this model.
- DescriptionGenerator.FindMatchingKeywords: a `KeywordEntry` may lack its 'name' key (modelled as `None`, giving the `KeyError`), but it is assumed to carry a 'keywords' key and a string name. A matched record without 'keywords', or a name that is not a string, would raise in the source and is not modelled. Both extractors write 'keywords' on every record.
- Product records whose 'Product Features' value is not a string (for example a missing CSV cell read as a float) are not modelled: `Tasks.Product` holds the features as an optional string.
