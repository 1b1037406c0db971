/**
 * The offline harvest: seven catalogue listings become tagged corpus records in a fixed
 * section order, and the records are deduplicated on the same key as the corpus before
 * they are written out as the generated artifact.
 */
module Harvest {
  import opened Wrappers
  import opened Text
  import opened Dedup
  import opened Corpus

  /** One element of a listing's array: the string-valued fields it carries. */
  type Entry = map<string, string>

  /** The `meals` or `drinks` member of a fetched listing; None when it is null or absent. */
  type Listing = Option<seq<Entry>>

  /** The field a section reads its name from, and the type and source it stamps on each record. */
  datatype Section = Section(field: string, itemType: ItemType, source: string)

  const MEAL_CATEGORIES := Section("strCategory", Category, "meal")
  const MEAL_AREAS := Section("strArea", Category, "meal-area")
  const MEAL_INGREDIENTS := Section("strIngredient", Ingredient, "meal")
  const MEAL_POPULAR := Section("strMeal", Meal, "meal")
  const COCKTAIL_CATEGORIES := Section("strCategory", Category, "cocktail")
  const COCKTAIL_INGREDIENTS := Section("strIngredient1", Ingredient, "cocktail")
  const COCKTAIL_POPULAR := Section("strDrink", Cocktail, "cocktail")

  /** The seven parsed responses, in the order the script fetches them. */
  datatype Fetched = Fetched(
    mealCategories: Listing,
    mealAreas: Listing,
    mealIngredients: Listing,
    mealPopular: Listing,
    cocktailCategories: Listing,
    cocktailIngredients: Listing,
    cocktailPopular: Listing)

  /** The value of `entry[field]`; a missing or null field reads as the empty string, which is falsy. */
  function FieldValue(e: Entry, field: string): string {
    if field in e then e[field] else ""
  }

  /** The record a section would build from an entry if it kept it. */
  function Stamp(e: Entry, sec: Section): GeneratedRecord {
    GeneratedRecord(FieldValue(e, sec.field), sec.itemType, sec.source)
  }

  /** The record each entry would produce, empty names included. */
  function Candidates(entries: seq<Entry>, sec: Section): seq<GeneratedRecord> {
    seq(|entries|, i requires 0 <= i < |entries| => Stamp(entries[i], sec))
  }

  /** The records a section contributes: the stamped entries whose name is non-empty, in entry order. */
  function SectionRecords(entries: seq<Entry>, sec: Section): seq<GeneratedRecord>
    decreases |entries|
  {
    if entries == [] then []
    else
      var init, e := entries[..|entries| - 1], entries[|entries| - 1];
      if FieldValue(e, sec.field) != "" then SectionRecords(init, sec) + [Stamp(e, sec)]
      else SectionRecords(init, sec)
  }

  /** Every record a section keeps has a non-empty label and carries the section's type and source. */
  lemma {:induction false} SectionRecordsTagged(entries: seq<Entry>, sec: Section)
    ensures forall x :: x in SectionRecords(entries, sec) ==>
      x.text != "" && x.itemType == sec.itemType && x.source == sec.source
    decreases |entries|
  {
    if entries != [] {
      SectionRecordsTagged(entries[..|entries| - 1], sec);
    }
  }

  /**
   * A section keeps exactly the entries whose name field is a non-empty string: each record
   * with a non-empty label occurs as often as an entry stamps it.
   */
  lemma {:induction false} SectionRecordsCounts(entries: seq<Entry>, sec: Section)
    ensures forall x: GeneratedRecord :: x.text != "" ==>
      multiset(SectionRecords(entries, sec))[x] == multiset(Candidates(entries, sec))[x]
    decreases |entries|
  {
    if entries != [] {
      var init, e := entries[..|entries| - 1], entries[|entries| - 1];
      SectionRecordsCounts(init, sec);
      assert Candidates(entries, sec) == Candidates(init, sec) + [Stamp(e, sec)];
    }
  }

  /** The records a section keeps are in the order of the entries that produced them. */
  lemma {:induction false} SectionRecordsOrdered(entries: seq<Entry>, sec: Section)
    ensures Subsequence(SectionRecords(entries, sec), Candidates(entries, sec))
    decreases |entries|
  {
    if entries != [] {
      var init, e := entries[..|entries| - 1], entries[|entries| - 1];
      SectionRecordsOrdered(init, sec);
      var prev := SectionRecords(init, sec);
      var c := Candidates(entries, sec);
      assert c == Candidates(init, sec) + [Stamp(e, sec)];
      assert c[..|c| - 1] == Candidates(init, sec);
      if FieldValue(e, sec.field) != "" {
        assert (prev + [Stamp(e, sec)])[..|prev|] == prev;
      } else if prev != [] {
        assert Subsequence(prev, c[..|c| - 1]);
      }
    }
  }

  /** A null listing contributes nothing; an array contributes its section's records. */
  function ListingRecords(listing: Listing, sec: Section): seq<GeneratedRecord> {
    match listing
    case None => []
    case Some(entries) => SectionRecords(entries, sec)
  }

  /** The pre-deduplication corpus: the seven sections concatenated in the script's order. */
  function HarvestCorpus(f: Fetched): seq<GeneratedRecord> {
    ListingRecords(f.mealCategories, MEAL_CATEGORIES)
    + ListingRecords(f.mealAreas, MEAL_AREAS)
    + ListingRecords(f.mealIngredients, MEAL_INGREDIENTS)
    + ListingRecords(f.mealPopular, MEAL_POPULAR)
    + ListingRecords(f.cocktailCategories, COCKTAIL_CATEGORIES)
    + ListingRecords(f.cocktailIngredients, COCKTAIL_INGREDIENTS)
    + ListingRecords(f.cocktailPopular, COCKTAIL_POPULAR)
  }

  function RecordKey(r: GeneratedRecord): string {
    KeyString(r.text, r.itemType)
  }

  /** One of the script's seven section loops: push a record for every entry with a non-empty name. */
  method AppendSection(corpus: seq<GeneratedRecord>, listing: Listing, sec: Section)
    returns (out: seq<GeneratedRecord>)
    ensures out == corpus + ListingRecords(listing, sec)
  {
    out := corpus;
    if listing.Some? {
      var entries := listing.value;
      for i := 0 to |entries|
        invariant out == corpus + SectionRecords(entries[..i], sec)
      {
        assert entries[..i + 1][..i] == entries[..i];
        var name := FieldValue(entries[i], sec.field);
        if name != "" {
          out := out + [GeneratedRecord(name, sec.itemType, sec.source)];
        }
      }
      assert entries[..|entries|] == entries;
    }
  }

  /** The corpus assembly of `buildCorpus`, section by section. */
  method BuildCorpus(f: Fetched) returns (corpus: seq<GeneratedRecord>)
    ensures corpus == HarvestCorpus(f)
  {
    corpus := [];
    corpus := AppendSection(corpus, f.mealCategories, MEAL_CATEGORIES);
    corpus := AppendSection(corpus, f.mealAreas, MEAL_AREAS);
    corpus := AppendSection(corpus, f.mealIngredients, MEAL_INGREDIENTS);
    corpus := AppendSection(corpus, f.mealPopular, MEAL_POPULAR);
    corpus := AppendSection(corpus, f.cocktailCategories, COCKTAIL_CATEGORIES);
    corpus := AppendSection(corpus, f.cocktailIngredients, COCKTAIL_INGREDIENTS);
    corpus := AppendSection(corpus, f.cocktailPopular, COCKTAIL_POPULAR);
  }

  /** The script's clean-up loop: keep the first record for each key, ignoring `source`. */
  method DeduplicateCorpus(corpus: seq<GeneratedRecord>) returns (unique: seq<GeneratedRecord>)
    ensures unique == Unique(corpus, RecordKey)
    ensures KeyDistinct(unique, RecordKey)
    ensures Subsequence(unique, corpus)
  {
    var seen: set<string> := {};
    unique := [];
    for i := 0 to |corpus|
      invariant seen == KeySet(corpus[..i], RecordKey)
      invariant unique == Unique(corpus[..i], RecordKey)
    {
      var key := RecordKey(corpus[i]);
      UniqueStep(corpus, i, RecordKey);
      if key !in seen {
        seen := seen + {key};
        unique := unique + [corpus[i]];
      }
    }
    assert corpus[..|corpus|] == corpus;
    UniqueKeyDistinct(corpus, RecordKey);
    UniqueSubsequence(corpus, RecordKey);
  }

  /** `buildCorpus` without its fetches and its file write: the records the artifact receives. */
  method Harvest(f: Fetched) returns (unique: seq<GeneratedRecord>)
    ensures unique == Unique(HarvestCorpus(f), RecordKey)
    ensures KeyDistinct(unique, RecordKey)
    ensures forall x :: x in unique ==> x.text != "" && x.source in {"meal", "meal-area", "cocktail"}
  {
    var corpus := BuildCorpus(f);
    unique := DeduplicateCorpus(corpus);
    HarvestRecordsWellFormed(f);
    SubsequenceMultiset(unique, corpus);
    forall x | x in unique ensures x in corpus {
      assert x in multiset(unique);
    }
  }

  /** Every record of a listing carries a non-empty label and its section's tags; a null listing has none. */
  lemma ListingRecordsTagged(listing: Listing, sec: Section)
    ensures listing.None? ==> ListingRecords(listing, sec) == []
    ensures forall x :: x in ListingRecords(listing, sec) ==>
      x.text != "" && x.itemType == sec.itemType && x.source == sec.source
  {
    if listing.Some? {
      SectionRecordsTagged(listing.value, sec);
    }
  }

  /** Every harvested record has a non-empty label and one of the seven section tags. */
  lemma HarvestRecordsWellFormed(f: Fetched)
    ensures forall x :: x in HarvestCorpus(f) ==>
      && x.text != ""
      && (x.itemType, x.source) in {(Category, "meal"), (Category, "meal-area"), (Ingredient, "meal"),
                                    (Meal, "meal"), (Category, "cocktail"), (Ingredient, "cocktail"),
                                    (Cocktail, "cocktail")}
  {
    ListingRecordsTagged(f.mealCategories, MEAL_CATEGORIES);
    ListingRecordsTagged(f.mealAreas, MEAL_AREAS);
    ListingRecordsTagged(f.mealIngredients, MEAL_INGREDIENTS);
    ListingRecordsTagged(f.mealPopular, MEAL_POPULAR);
    ListingRecordsTagged(f.cocktailCategories, COCKTAIL_CATEGORIES);
    ListingRecordsTagged(f.cocktailIngredients, COCKTAIL_INGREDIENTS);
    ListingRecordsTagged(f.cocktailPopular, COCKTAIL_POPULAR);
  }

  /** The corpus as its first two sections (meal categories and areas) followed by the other five. */
  lemma HarvestSplit(f: Fetched) returns (rest: seq<GeneratedRecord>)
    ensures HarvestCorpus(f) ==
      ListingRecords(f.mealCategories, MEAL_CATEGORIES) + ListingRecords(f.mealAreas, MEAL_AREAS) + rest
  {
    var front := ListingRecords(f.mealCategories, MEAL_CATEGORIES) + ListingRecords(f.mealAreas, MEAL_AREAS);
    var p3 := front + ListingRecords(f.mealIngredients, MEAL_INGREDIENTS);
    var p4 := p3 + ListingRecords(f.mealPopular, MEAL_POPULAR);
    var p5 := p4 + ListingRecords(f.cocktailCategories, COCKTAIL_CATEGORIES);
    var p6 := p5 + ListingRecords(f.cocktailIngredients, COCKTAIL_INGREDIENTS);
    var c := p6 + ListingRecords(f.cocktailPopular, COCKTAIL_POPULAR);
    assert c == HarvestCorpus(f);
    assert front <= p3 <= p4 <= p5 <= p6 <= c;
    rest := c[|front|..];
    assert c == c[..|front|] + rest;
  }

  /**
   * Dedup ignores `source`: a cocktail category whose label equals a meal category or area
   * case-insensitively never survives, because the meal record comes first.
   */
  lemma CocktailCategoryShadowed(f: Fetched, k: int)
    requires 0 <= k < |Unique(HarvestCorpus(f), RecordKey)|
    requires Unique(HarvestCorpus(f), RecordKey)[k].source == "cocktail"
    requires Unique(HarvestCorpus(f), RecordKey)[k].itemType == Category
    ensures var front := ListingRecords(f.mealCategories, MEAL_CATEGORIES) + ListingRecords(f.mealAreas, MEAL_AREAS);
      forall m :: m in front ==> Lower(m.text) != Lower(Unique(HarvestCorpus(f), RecordKey)[k].text)
  {
    var c := HarvestCorpus(f);
    var x := Unique(c, RecordKey)[k];
    var front := ListingRecords(f.mealCategories, MEAL_CATEGORIES) + ListingRecords(f.mealAreas, MEAL_AREAS);
    var rest := HarvestSplit(f);
    ListingRecordsTagged(f.mealCategories, MEAL_CATEGORIES);
    ListingRecordsTagged(f.mealAreas, MEAL_AREAS);
    assert x !in front;
    UniqueItemAfterFront(front, rest, RecordKey, k);
    forall m | m in front ensures Lower(m.text) != Lower(x.text) {
      var j :| 0 <= j < |front| && front[j] == m;
      assert RecordKey(m) in KeySet(front, RecordKey);
      KeyStringInjective(m.text, m.itemType, x.text, x.itemType);
    }
  }

  /** The script's dedup, seen through the loader's projection, is `mergeAndDeduplicate(corpus, [])`. */
  lemma ScriptDedupIsMerge(corpus: seq<GeneratedRecord>)
    ensures MapSeq(ToItem, Unique(corpus, RecordKey)) == Merged(MapSeq(ToItem, corpus), [])
  {
    UniqueMapSeq(ToItem, corpus, RecordKey, CorpusKey);
    assert MapSeq(ToItem, corpus) + [] == MapSeq(ToItem, corpus);
  }

  /**
   * End to end: loading the artifact the harvest writes gives the static terms merged with
   * the harvested ones, as if the script had not deduplicated at all.
   */
  lemma PublishedCorpus(f: Fetched)
    ensures var published := AnArray(Unique(HarvestCorpus(f), RecordKey));
      Merged(STATIC_SEARCH_CORPUS, GeneratedItems(published))
        == Merged(STATIC_SEARCH_CORPUS, MapSeq(ToItem, HarvestCorpus(f)))
  {
    var c := HarvestCorpus(f);
    UniqueMapSeq(ToItem, c, RecordKey, CorpusKey);
    UniqueAbsorbs(STATIC_SEARCH_CORPUS, MapSeq(ToItem, c), CorpusKey);
  }
}
