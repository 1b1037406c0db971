/**
 * The search-term corpus: the built-in static terms, the terms loaded from the generated
 * artifact, and `mergeAndDeduplicate`, which keeps the first item for each
 * case-insensitive (label, type) key.
 */
module Corpus {
  import opened Text
  import opened Dedup

  datatype ItemType = Meal | Cocktail | Category | Ingredient

  /** The literal that stands for each type in the source and in the generated artifact. */
  function TypeName(t: ItemType): string {
    match t
    case Meal => "meal"
    case Cocktail => "cocktail"
    case Category => "category"
    case Ingredient => "ingredient"
  }

  /** A corpus term; `text` is the source's `label` (a reserved word in Dafny). */
  datatype SearchCorpusItem = Item(text: string, itemType: ItemType)

  /**
   * A record of the generated artifact as the harvest script writes it. The loader reads
   * only `label` (here `text`) and `type`; `source` is dropped.
   */
  datatype GeneratedRecord = GeneratedRecord(text: string, itemType: ItemType, source: string)

  /** The deduplication key `${label.toLowerCase()}|${type}`. */
  function KeyString(text: string, t: ItemType): string {
    Lower(text) + "|" + TypeName(t)
  }

  function CorpusKey(item: SearchCorpusItem): string {
    KeyString(item.text, item.itemType)
  }

  /** In `a + "|" + n` with no bar in `n`, position `|a|` holds the last bar. */
  lemma LastBar(a: string, n: string)
    requires '|' !in n
    ensures (a + "|" + n)[|a|] == '|'
    ensures forall k :: |a| < k < |a + "|" + n| ==> (a + "|" + n)[k] != '|'
  {
    var s := a + "|" + n;
    forall k | |a| < k < |s| ensures s[k] != '|' {
      assert s[k] == n[k - |a| - 1];
    }
  }

  lemma SplitAtLastBar(a: string, n: string, a': string, n': string)
    requires a + "|" + n == a' + "|" + n'
    requires '|' !in n && '|' !in n'
    ensures a == a' && n == n'
  {
    var s := a + "|" + n;
    LastBar(a, n);
    LastBar(a', n');
    assert |a| == |a'|;
    assert a == s[..|a|] == a';
    assert n == s[|a| + 1..] == n';
  }

  /**
   * The string key identifies exactly the pair (lower-cased label, type): no type name
   * contains '|', so two keys are equal only when both parts are.
   */
  lemma KeyStringInjective(l: string, t: ItemType, l': string, t': ItemType)
    ensures KeyString(l, t) == KeyString(l', t') <==> Lower(l) == Lower(l') && t == t'
  {
    if KeyString(l, t) == KeyString(l', t') {
      SplitAtLastBar(Lower(l), TypeName(t), Lower(l'), TypeName(t'));
      assert TypeName(t) == TypeName(t');
      match t
      case Cocktail => assert TypeName(t)[1] == 'o';
      case Category => assert TypeName(t)[1] == 'a';
      case _ =>
    }
  }

  /** The built-in terms, in the source's four groups: popular cocktails, meals, categories and ingredients. */
  const STATIC_COCKTAILS: seq<SearchCorpusItem> := [
    Item("Margarita", Cocktail),
    Item("Mojito", Cocktail),
    Item("Old Fashioned", Cocktail),
    Item("Negroni", Cocktail),
    Item("Daiquiri", Cocktail),
    Item("Martini", Cocktail),
    Item("Bloody Mary", Cocktail)
  ]

  const STATIC_MEALS: seq<SearchCorpusItem> := [
    Item("Spaghetti Bolognese", Meal),
    Item("Chicken Curry", Meal),
    Item("Beef Stroganoff", Meal),
    Item("Tiramisu", Meal),
    Item("Lasagna", Meal),
    Item("Caesar Salad", Meal)
  ]

  const STATIC_CATEGORIES: seq<SearchCorpusItem> := [
    Item("Seafood", Category),
    Item("Vegetarian", Category),
    Item("Vegan", Category),
    Item("Dessert", Category)
  ]

  const STATIC_INGREDIENTS: seq<SearchCorpusItem> := [
    Item("Chicken", Ingredient),
    Item("Beef", Ingredient),
    Item("Pasta", Ingredient),
    Item("Tomato", Ingredient),
    Item("Gin", Ingredient),
    Item("Rum", Ingredient),
    Item("Tequila", Ingredient)
  ]

  const STATIC_SEARCH_CORPUS: seq<SearchCorpusItem> :=
    STATIC_COCKTAILS + STATIC_MEALS + STATIC_CATEGORIES + STATIC_INGREDIENTS

  /** Items whose labels differ in length or in their folded first letter, or whose types differ, have different keys. */
  lemma KeysDifferBySignature(x: SearchCorpusItem, y: SearchCorpusItem)
    requires x.text != [] && y.text != []
    requires |x.text| != |y.text| || LowerChar(x.text[0]) != LowerChar(y.text[0]) || x.itemType != y.itemType
    ensures CorpusKey(x) != CorpusKey(y)
  {
    KeyStringInjective(x.text, x.itemType, y.text, y.itemType);
    if Lower(x.text) == Lower(y.text) {
      assert Lower(x.text)[0] == LowerChar(x.text[0]);
      assert Lower(y.text)[0] == LowerChar(y.text[0]);
    }
  }

  /** Within one static group every label differs from the others in length or first letter. */
  lemma GroupKeyDistinct(g: seq<SearchCorpusItem>)
    requires forall i :: 0 <= i < |g| ==> g[i].text != []
    requires forall i, j :: 0 <= i < j < |g| ==>
      |g[i].text| != |g[j].text| || LowerChar(g[i].text[0]) != LowerChar(g[j].text[0])
    ensures KeyDistinct(g, CorpusKey)
  {
    forall i, j | 0 <= i < j < |g| ensures CorpusKey(g[i]) != CorpusKey(g[j]) {
      KeysDifferBySignature(g[i], g[j]);
    }
  }

  /** Lists of two different types share no key. */
  lemma TypedKeysDisjoint(a: seq<SearchCorpusItem>, t: ItemType, b: seq<SearchCorpusItem>, u: ItemType)
    requires t != u
    requires forall i :: 0 <= i < |a| ==> a[i].itemType == t
    requires forall i :: 0 <= i < |b| ==> b[i].itemType == u
    ensures KeySet(a, CorpusKey) !! KeySet(b, CorpusKey)
  {
    forall i, j | 0 <= i < |a| && 0 <= j < |b| ensures CorpusKey(a[i]) != CorpusKey(b[j]) {
      KeyStringInjective(a[i].text, t, b[j].text, u);
    }
  }

  /** The popular cocktails are key-distinct and all of type cocktail. */
  lemma StaticCocktailsFacts()
    ensures KeyDistinct(STATIC_COCKTAILS, CorpusKey)
    ensures forall i :: 0 <= i < |STATIC_COCKTAILS| ==> STATIC_COCKTAILS[i].itemType == Cocktail
  {
    GroupKeyDistinct(STATIC_COCKTAILS);
  }

  /** The popular meals are key-distinct and all of type meal. */
  lemma StaticMealsFacts()
    ensures KeyDistinct(STATIC_MEALS, CorpusKey)
    ensures forall i :: 0 <= i < |STATIC_MEALS| ==> STATIC_MEALS[i].itemType == Meal
  {
    GroupKeyDistinct(STATIC_MEALS);
  }

  /** The categories are key-distinct and all of type category. */
  lemma StaticCategoriesFacts()
    ensures KeyDistinct(STATIC_CATEGORIES, CorpusKey)
    ensures forall i :: 0 <= i < |STATIC_CATEGORIES| ==> STATIC_CATEGORIES[i].itemType == Category
  {
    GroupKeyDistinct(STATIC_CATEGORIES);
  }

  /** The ingredients are key-distinct and all of type ingredient. */
  lemma StaticIngredientsFacts()
    ensures KeyDistinct(STATIC_INGREDIENTS, CorpusKey)
    ensures forall i :: 0 <= i < |STATIC_INGREDIENTS| ==> STATIC_INGREDIENTS[i].itemType == Ingredient
  {
    GroupKeyDistinct(STATIC_INGREDIENTS);
  }

  /** The static list has no two items with the same key. */
  lemma StaticCorpusKeyDistinct()
    ensures |STATIC_SEARCH_CORPUS| == 24
    ensures KeyDistinct(STATIC_SEARCH_CORPUS, CorpusKey)
  {
    var c, m, k, g := STATIC_COCKTAILS, STATIC_MEALS, STATIC_CATEGORIES, STATIC_INGREDIENTS;
    StaticCocktailsFacts();
    StaticMealsFacts();
    StaticCategoriesFacts();
    StaticIngredientsFacts();
    TypedKeysDisjoint(c, Cocktail, m, Meal);
    KeyDistinctConcat(c, m, CorpusKey);
    KeySetConcat(c, m, CorpusKey);
    TypedKeysDisjoint(c, Cocktail, k, Category);
    TypedKeysDisjoint(m, Meal, k, Category);
    KeyDistinctConcat(c + m, k, CorpusKey);
    KeySetConcat(c + m, k, CorpusKey);
    TypedKeysDisjoint(c, Cocktail, g, Ingredient);
    TypedKeysDisjoint(m, Meal, g, Ingredient);
    TypedKeysDisjoint(k, Category, g, Ingredient);
    KeyDistinctConcat(c + m + k, g, CorpusKey);
  }

  /**
   * What loading the generated artifact yields. `LoadFailed` covers every throw inside the
   * loader's `try`: a missing file, bad JSON, or a `null` array element. `NotAnArray` is JSON
   * that is not an array. `AnArray` holds records that each have a string label and one of the
   * four types; a record without a string label, which crashes the merge, is outside the model.
   */
  datatype Artifact = LoadFailed | NotAnArray | AnArray(records: seq<GeneratedRecord>)

  /** The projection of a generated record onto the corpus item shape. */
  function ToItem(r: GeneratedRecord): SearchCorpusItem {
    Item(r.text, r.itemType)
  }

  /** The corpus terms the artifact contributes. */
  function GeneratedItems(artifact: Artifact): seq<SearchCorpusItem> {
    if artifact.AnArray? then MapSeq(ToItem, artifact.records) else []
  }

  /**
   * The module-level `generated`: empty unless the artifact is an array, in which case
   * each record is cut down to its label and type, in order.
   */
  method LoadGenerated(artifact: Artifact) returns (generated: seq<SearchCorpusItem>)
    ensures !artifact.AnArray? ==> generated == []
    ensures artifact.AnArray? ==> |generated| == |artifact.records|
    ensures artifact.AnArray? ==> forall k :: 0 <= k < |generated| ==>
      generated[k].text == artifact.records[k].text && generated[k].itemType == artifact.records[k].itemType
    ensures generated == GeneratedItems(artifact)
  {
    generated := [];
    if artifact.AnArray? {
      generated := MapSeq(ToItem, artifact.records);
      forall k | 0 <= k < |generated|
        ensures generated[k] == Item(artifact.records[k].text, artifact.records[k].itemType)
      {
        assert generated[k] == ToItem(artifact.records[k]);
      }
    }
  }

  /** The specification of `mergeAndDeduplicate`: the first item of each key in static-then-generated order. */
  function Merged(staticItems: seq<SearchCorpusItem>, generatedItems: seq<SearchCorpusItem>): seq<SearchCorpusItem> {
    Unique(staticItems + generatedItems, CorpusKey)
  }

  /**
   * `mergeAndDeduplicate`: walks the static items and then the generated ones, keeping an
   * item when its key has not been seen. The result is key-distinct, a subsequence of the
   * input, and begins with the static list whenever that list is itself key-distinct.
   */
  method MergeAndDeduplicate(staticItems: seq<SearchCorpusItem>, generatedItems: seq<SearchCorpusItem>)
    returns (result: seq<SearchCorpusItem>)
    ensures result == Merged(staticItems, generatedItems)
    ensures KeyDistinct(result, CorpusKey)
    ensures Subsequence(result, staticItems + generatedItems)
    ensures KeySet(result, CorpusKey) == KeySet(staticItems + generatedItems, CorpusKey)
    ensures KeyDistinct(staticItems, CorpusKey) ==>
      |staticItems| <= |result| && result[..|staticItems|] == staticItems
  {
    var all := staticItems + generatedItems;
    var seen: set<string> := {};
    result := [];
    for i := 0 to |all|
      invariant seen == KeySet(all[..i], CorpusKey)
      invariant result == Unique(all[..i], CorpusKey)
    {
      var key := CorpusKey(all[i]);
      UniqueStep(all, i, CorpusKey);
      if key !in seen {
        seen := seen + {key};
        result := result + [all[i]];
      }
    }
    assert all[..|all|] == all;
    UniqueKeyDistinct(all, CorpusKey);
    UniqueSubsequence(all, CorpusKey);
    UniqueKeySet(all, CorpusKey);
    if KeyDistinct(staticItems, CorpusKey) {
      UniquePrefix(staticItems, generatedItems, CorpusKey);
      UniqueOfKeyDistinct(staticItems, CorpusKey);
    }
  }

  /**
   * `SEARCH_CORPUS`: the static list merged with whatever the artifact yields. It always
   * begins with the 24 static items in order, and it is exactly the static list when the
   * artifact could not be loaded or is not an array.
   */
  method LoadSearchCorpus(artifact: Artifact) returns (corpus: seq<SearchCorpusItem>)
    ensures corpus == Merged(STATIC_SEARCH_CORPUS, GeneratedItems(artifact))
    ensures |corpus| >= 24 && corpus[..24] == STATIC_SEARCH_CORPUS
    ensures !artifact.AnArray? ==> corpus == STATIC_SEARCH_CORPUS
  {
    var generated := LoadGenerated(artifact);
    StaticCorpusKeyDistinct();
    corpus := MergeAndDeduplicate(STATIC_SEARCH_CORPUS, generated);
    if !artifact.AnArray? {
      assert STATIC_SEARCH_CORPUS + [] == STATIC_SEARCH_CORPUS;
      UniqueOfKeyDistinct(STATIC_SEARCH_CORPUS, CorpusKey);
    }
  }

  /** Merging an already merged list with nothing gives it back unchanged. */
  lemma MergeIdempotent(staticItems: seq<SearchCorpusItem>, generatedItems: seq<SearchCorpusItem>)
    ensures var m := Merged(staticItems, generatedItems); Merged(m, []) == m
  {
    var m := Merged(staticItems, generatedItems);
    assert m + [] == m;
    UniqueIdempotent(staticItems + generatedItems, CorpusKey);
  }

  /**
   * Static entries beat generated ones: when the static list is key-distinct, every
   * static item is kept, and a generated item whose key a static item already has is dropped.
   */
  lemma StaticWins(staticItems: seq<SearchCorpusItem>, generatedItems: seq<SearchCorpusItem>, k: int)
    requires KeyDistinct(staticItems, CorpusKey)
    requires 0 <= k < |Merged(staticItems, generatedItems)|
    requires CorpusKey(Merged(staticItems, generatedItems)[k]) in KeySet(staticItems, CorpusKey)
    ensures k < |staticItems| && Merged(staticItems, generatedItems)[k] == staticItems[k]
  {
    var m := Merged(staticItems, generatedItems);
    UniquePrefix(staticItems, generatedItems, CorpusKey);
    UniqueOfKeyDistinct(staticItems, CorpusKey);
    UniqueKeyDistinct(staticItems + generatedItems, CorpusKey);
    var j :| 0 <= j < |staticItems| && CorpusKey(staticItems[j]) == CorpusKey(m[k]);
    assert m[j] == staticItems[j];
    assert j == k;
  }

  /**
   * Keys fold the case of the label but not the type: `Gin` and `gin` as ingredients
   * collapse to the first, while `Gin` as an ingredient and as a cocktail are both kept.
   */
  lemma CaseFoldingExample()
    ensures Merged([Item("Gin", Ingredient)], [Item("gin", Ingredient)]) == [Item("Gin", Ingredient)]
    ensures Merged([Item("Gin", Ingredient)], [Item("Gin", Cocktail)]) == [Item("Gin", Ingredient), Item("Gin", Cocktail)]
  {
    var gin, gin', ginC := Item("Gin", Ingredient), Item("gin", Ingredient), Item("Gin", Cocktail);
    assert Lower("Gin") == "gin" == Lower("gin");
    assert CorpusKey(gin) == CorpusKey(gin');
    assert [gin] + [gin'] == [gin, gin'];
    assert [gin, gin'][..1] == [gin];
    assert [] + [gin] == [gin];
    KeySetSnoc([], gin, CorpusKey);
    assert KeySet([gin], CorpusKey) == {CorpusKey(gin)};
    assert Unique([gin], CorpusKey) == [gin];
    KeyStringInjective("Gin", Ingredient, "Gin", Cocktail);
    assert [gin] + [ginC] == [gin, ginC];
    assert [gin, ginC][..1] == [gin];
  }
}
