/** `find_matching_keywords` (description_generator.py:38-43): the keyword
    list of the first extracted entry whose name equals the product name,
    ignoring case, cut to its first five keywords. The loop reads
    `item['name']` of every entry it reaches, so an entry without a name
    stops it with a `KeyError`. */
module DescriptionGenerator {
  import opened Text
  import opened Optional

  /** One record of the extracted keyword data. `name` is `None` for a
      record without a 'name' key, the shape keyword_extractor/pipeline.py
      writes; keyword_extractor.py writes records with one. */
  datatype KeywordEntry = KeywordEntry(name: Option<string>, keywords: seq<string>)

  /** The list `find_matching_keywords` returns, or the `KeyError('name')`
      it raises on reaching a record without a name. */
  datatype Lookup = Found(keywords: seq<string>) | MissingName

  /** `item['name'].lower() == product_name.lower()` for a record with a name. */
  predicate NameMatches(entry: KeywordEntry, productName: string) {
    entry.name.Some? && Lower(entry.name.value) == Lower(productName)
  }

  /** The loop moves past the entry: it has a name, and the name differs. */
  predicate PassesOver(entry: KeywordEntry, productName: string) {
    entry.name.Some? && !NameMatches(entry, productName)
  }

  /** Index `i` holds the first entry of `extracted` that matches the product
      name, and the loop reaches it. */
  predicate FirstMatchAt(extracted: seq<KeywordEntry>, productName: string, i: int) {
    && 0 <= i < |extracted|
    && NameMatches(extracted[i], productName)
    && forall j :: 0 <= j < i ==> PassesOver(extracted[j], productName)
  }

  /** Index `i` holds an entry without a name, and the loop reaches it. */
  predicate FirstUnnamedAt(extracted: seq<KeywordEntry>, productName: string, i: int) {
    && 0 <= i < |extracted|
    && extracted[i].name.None?
    && forall j :: 0 <= j < i ==> PassesOver(extracted[j], productName)
  }

  /** `find_matching_keywords` */
  function FindMatchingKeywords(productName: string, extracted: seq<KeywordEntry>): (r: Lookup)
    ensures r.Found? ==> |r.keywords| <= 5
    ensures (forall i :: 0 <= i < |extracted| ==> PassesOver(extracted[i], productName)) ==> r == Found([])
    ensures r.MissingName? ==> exists i :: 0 <= i < |extracted| && extracted[i].name.None?
  {
    if extracted == [] then Found([])
    else if extracted[0].name.None? then MissingName
    else if NameMatches(extracted[0], productName) then
      var keywords := extracted[0].keywords;
      Found(if |keywords| <= 5 then keywords else keywords[..5])
    else
      assert forall i :: 1 <= i < |extracted| ==> extracted[1..][i - 1] == extracted[i];
      FindMatchingKeywords(productName, extracted[1..])
  }

  /** The result is the first (up to) five keywords of the first matching entry. */
  lemma {:induction false} FindTakesFirstMatch(productName: string, extracted: seq<KeywordEntry>, i: nat)
    requires FirstMatchAt(extracted, productName, i)
    ensures FindMatchingKeywords(productName, extracted).Found?
    ensures FindMatchingKeywords(productName, extracted).keywords <= extracted[i].keywords
    ensures |FindMatchingKeywords(productName, extracted).keywords|
         == (if |extracted[i].keywords| < 5 then |extracted[i].keywords| else 5)
  {
    if i > 0 {
      var rest := extracted[1..];
      assert PassesOver(extracted[0], productName);
      assert rest[i - 1] == extracted[i];
      assert forall j :: 0 <= j < i - 1 ==> rest[j] == extracted[j + 1];
      FindTakesFirstMatch(productName, rest, i - 1);
    }
  }

  /** Reaching an entry without a name raises, whatever follows it. */
  lemma {:induction false} FindStopsAtUnnamed(productName: string, extracted: seq<KeywordEntry>, i: nat)
    requires FirstUnnamedAt(extracted, productName, i)
    ensures FindMatchingKeywords(productName, extracted) == MissingName
  {
    if i > 0 {
      var rest := extracted[1..];
      assert PassesOver(extracted[0], productName);
      assert rest[i - 1] == extracted[i];
      assert forall j :: 0 <= j < i - 1 ==> rest[j] == extracted[j + 1];
      FindStopsAtUnnamed(productName, rest, i - 1);
    }
  }

  /** Once an entry matches, nothing after it is consulted. */
  lemma {:induction false} FirstMatchWins(productName: string, front: seq<KeywordEntry>, back: seq<KeywordEntry>, i: nat)
    requires i < |front| && NameMatches(front[i], productName)
    ensures FindMatchingKeywords(productName, front + back) == FindMatchingKeywords(productName, front)
  {
    var whole := front + back;
    assert whole[0] == front[0];
    if i > 0 && PassesOver(front[0], productName) {
      var rest := front[1..];
      assert rest[i - 1] == front[i];
      FirstMatchWins(productName, rest, back, i - 1);
      assert whole[1..] == rest + back;
    }
  }

  /** Entries with a name that does not match are skipped. */
  lemma {:induction false} NonMatchesSkipped(productName: string, front: seq<KeywordEntry>, back: seq<KeywordEntry>)
    requires forall i :: 0 <= i < |front| ==> PassesOver(front[i], productName)
    ensures FindMatchingKeywords(productName, front + back) == FindMatchingKeywords(productName, back)
  {
    var whole := front + back;
    if front == [] {
      assert whole == back;
    } else {
      var rest := front[1..];
      assert whole[0] == front[0] && PassesOver(front[0], productName);
      assert forall i :: 0 <= i < |rest| ==> rest[i] == front[i + 1];
      NonMatchesSkipped(productName, rest, back);
      assert whole[1..] == rest + back;
    }
  }

  /** Only the lower-cased product name matters. */
  lemma {:induction false} FindIgnoresCase(productName: string, extracted: seq<KeywordEntry>)
    ensures FindMatchingKeywords(Lower(productName), extracted) == FindMatchingKeywords(productName, extracted)
  {
    LowerIdempotent(productName);
    if extracted != [] {
      FindIgnoresCase(productName, extracted[1..]);
    }
  }
}
