# Search corpus, suggestions and favorites — a Dafny model

This project models the search core of a recipe and cocktail finder written in TypeScript:

- **The search corpus** (`lib/data/searchCorpus.ts`). 24 built-in terms are merged with the terms of a generated artifact by `mergeAndDeduplicate`. It keeps the first item for each key `label.toLowerCase() + "|" + type`.
- **The harvest script** (`scripts/build-search-corpus.mjs`). It turns seven catalogue listings into tagged records, section by section. It then deduplicates them on the same key before it writes the artifact.
- **The suggestion wrapper** (`lib/search/fuzzyIndex.ts`). `getSuggestions` and `getAutoCorrectCandidate` trim the query, return nothing for a blank one, and copy the ranked Fuse results. The candidate also applies a `<= maxScore` cutoff.
- **The favorites store** (`store/favoritesStore.ts`). It is a list of saved items with add, remove, membership and clear.

Modules, one per file:

- `Wrappers` holds `Option`.
- `Text` holds ASCII `Lower` and the JavaScript `Trim`, with a reference characterisation of `Trim`.
- `Dedup` holds the first-occurrence filter `Unique` and its properties. Both dedup loops are proved against it.
- `Corpus` models `searchCorpus.ts`.
- `Harvest` models the script.
- `FuzzyIndex` models `fuzzyIndex.ts`. The Fuse index appears only as a `Ranking` oracle.
- `Favorites` models the store as a class whose `favorites` field the methods reassign.

## Notes on the source's behaviour

- Corpus items carry no provenance. Only the harvest records have a `source`, and the loader drops it when it maps each record to its label and type (`lib/data/searchCorpus.ts:58-61`).
- No auto-correct candidate is returned when the best hit's score is undefined (`lib/search/fuzzyIndex.ts:49`). `getSuggestions` reports such a score as 0 instead.
- The harvest script writes the artifact with a plain `writeFileSync` (`scripts/build-search-corpus.mjs:163`). There is no atomic replace.

## Model

| member | source | states |
|---|---|---|
| Text.TrimUnique | lib/search/fuzzyIndex.ts:23 | Trimming a string that neither starts nor ends with white space, surrounded by any white space, gives back that string. |
| Text.TrimSplit | lib/search/fuzzyIndex.ts:23 | `trim` removes only white space, only at the two ends, and leaves a string that neither starts nor ends with white space. |
| Text.TrimEmptyIff | lib/search/fuzzyIndex.ts:23-24 | A trimmed query is empty exactly when the query is all white space. |
| Text.TrimIdempotent | lib/search/fuzzyIndex.ts:42 | Trimming twice is trimming once. |
| Text.TrimPadding | lib/search/fuzzyIndex.ts:42-43 | White space added around a string does not change what it trims to. |
| Dedup.IndexOfKey | lib/data/searchCorpus.ts:78-80 | The position found holds the key, and no earlier item has that key. |
| Dedup.KeyDistinctConcat | lib/data/searchCorpus.ts:9-41 | Two key-distinct lists that share no key concatenate to a key-distinct list. |
| Dedup.UniqueStep | lib/data/searchCorpus.ts:79-83 | One loop step adds the item's key to `seen`. It pushes the item exactly when the key was not seen before. |
| Dedup.UniqueKeySet | lib/data/searchCorpus.ts:78-84 | The output has exactly the keys of the input: no key is lost. |
| Dedup.UniqueKeyDistinct | lib/data/searchCorpus.ts:78-84 | No two output items share a key. |
| Dedup.UniqueSubsequence | lib/data/searchCorpus.ts:74-84 | The output is the input with items left out, in the input's relative order. |
| Dedup.SubsequenceMultiset | lib/data/searchCorpus.ts:82 | Every item of a subsequence is an input item, occurring no more often: items are pushed unchanged. |
| Dedup.UniqueItemIsFirst | lib/data/searchCorpus.ts:80-83 | Every output item is the first input item with its key. |
| Dedup.UniqueItemAfterFront | lib/data/searchCorpus.ts:74-83 | An output item that is not in the front part of the input has a key that the front part does not have. |
| Dedup.FirstOccurrenceWins | lib/data/searchCorpus.ts:74-84 | For every input item, the output's one item with its key is the earliest input item with that key. |
| Dedup.UniqueLength | lib/data/searchCorpus.ts:74-86 | The output length equals the number of distinct input keys, which is at most the input length. |
| Dedup.UniqueOfKeyDistinct | lib/data/searchCorpus.ts:78-84 | A key-distinct input is returned unchanged. |
| Dedup.UniqueIdempotent | lib/data/searchCorpus.ts:70-87 | Deduplicating twice is deduplicating once. |
| Dedup.UniquePrefix | lib/data/searchCorpus.ts:74-84 | Deduplicating `a + b` begins with the deduplication of `a`. |
| Dedup.UniqueAbsorbs | scripts/build-search-corpus.mjs:145-154 | Deduplicating the tail and then the whole equals deduplicating the whole once. |
| Dedup.UniqueMapSeq | lib/data/searchCorpus.ts:57-62 | Deduplication commutes with a key-preserving projection. |
| Corpus.SplitAtLastBar | lib/data/searchCorpus.ts:79 | `a + "\|" + n` determines `a` and `n` when `n` contains no bar. |
| Corpus.KeyStringInjective | lib/data/searchCorpus.ts:79 | Two string keys are equal iff the lower-cased labels and the types are both equal. The label's case is folded; the type's is not. |
| Corpus.KeysDifferBySignature | lib/data/searchCorpus.ts:79 | Labels of different length or different folded first letter, or different types, give different keys. |
| Corpus.GroupKeyDistinct | lib/data/searchCorpus.ts:9-41 | A group of one type whose labels differ in length or first letter is key-distinct. |
| Corpus.TypedKeysDisjoint | lib/data/searchCorpus.ts:9-41 | Groups of different types share no key. |
| Corpus.StaticCocktailsFacts | lib/data/searchCorpus.ts:10-17 | The built-in cocktails are key-distinct and all typed as cocktails. |
| Corpus.StaticMealsFacts | lib/data/searchCorpus.ts:19-25 | The built-in meals are key-distinct and all typed as meals. |
| Corpus.StaticCategoriesFacts | lib/data/searchCorpus.ts:27-31 | The built-in categories are key-distinct and all typed as categories. |
| Corpus.StaticIngredientsFacts | lib/data/searchCorpus.ts:33-40 | The built-in ingredients are key-distinct and all typed as ingredients. |
| Corpus.StaticCorpusKeyDistinct | lib/data/searchCorpus.ts:9-41 | The static list has 24 items and no two share a key. |
| Corpus.LoadGenerated | lib/data/searchCorpus.ts:45-62 | `generated` is empty unless the artifact is an array. If it is an array, `generated` holds each record cut down to label and type, in order. |
| Corpus.MergeAndDeduplicate | lib/data/searchCorpus.ts:70-87 | The loop computes the first-occurrence filter of static-then-generated. The result is key-distinct, keeps every key, and is an order-preserving subsequence. It begins with the static list when that list is key-distinct. |
| Corpus.LoadSearchCorpus | lib/data/searchCorpus.ts:89-92 | `SEARCH_CORPUS` begins with the 24 static items in order. It equals the static list when the artifact is missing, unreadable or not an array. |
| Corpus.MergeIdempotent | lib/data/searchCorpus.ts:70-87 | Merging a merged list with `[]` returns it unchanged. |
| Corpus.StaticWins | lib/data/searchCorpus.ts:74-83 | An output item whose key occurs in a key-distinct static list is that static item, at the static item's own position. |
| Corpus.CaseFoldingExample | lib/data/searchCorpus.ts:79 | `Gin` and `gin` as ingredients collapse to `Gin`. `Gin` as an ingredient and `Gin` as a cocktail are both kept. |
| Harvest.SectionRecordsTagged | scripts/build-search-corpus.mjs:56-61 | Every record a section pushes has a non-empty label and the section's own type and source. |
| Harvest.SectionRecordsCounts | scripts/build-search-corpus.mjs:55-63 | A section keeps exactly the entries whose name field is non-empty: each such record occurs as often as an entry produces it. |
| Harvest.SectionRecordsOrdered | scripts/build-search-corpus.mjs:55-63 | The section's records follow entry order. |
| Harvest.ListingRecordsTagged | scripts/build-search-corpus.mjs:54-56 | A null listing contributes nothing. Every record of a listing has a non-empty label and the section's type and source. |
| Harvest.AppendSection | scripts/build-search-corpus.mjs:66-77 | One section loop appends exactly that listing's records to the corpus. |
| Harvest.BuildCorpus | scripts/build-search-corpus.mjs:51-142 | The assembled corpus is the seven sections concatenated in their fixed order. |
| Harvest.HarvestSplit | scripts/build-search-corpus.mjs:51-142 | The corpus is the meal-category and meal-area records followed by the other five sections. |
| Harvest.DeduplicateCorpus | scripts/build-search-corpus.mjs:145-154 | The clean-up loop computes the first-occurrence filter. `unique` is key-distinct and a subsequence of `corpus`. |
| Harvest.Harvest | scripts/build-search-corpus.mjs:19-154 | The written records are the deduplicated corpus. They are key-distinct, with non-empty labels and one of the three source tags. |
| Harvest.HarvestRecordsWellFormed | scripts/build-search-corpus.mjs:53-142 | Every harvested record has a non-empty label and one of the seven (type, source) tags. |
| Harvest.CocktailCategoryShadowed | scripts/build-search-corpus.mjs:105-116 | No surviving cocktail category shares a case-insensitive label with a meal category or area: the meal record, which comes first, wins. |
| Harvest.ScriptDedupIsMerge | scripts/build-search-corpus.mjs:145-154 | The script's dedup, projected as the loader projects it, equals `mergeAndDeduplicate(corpus, [])`. |
| Harvest.PublishedCorpus | scripts/build-search-corpus.mjs:145-163 | Loading the written artifact gives the static terms merged with all harvested terms, as if the script had not deduplicated. |
| FuzzyIndex.Search | lib/search/fuzzyIndex.ts:26 | A limited search returns the first `min(limit, n)` hits of the ranking. |
| FuzzyIndex.GetSuggestions | lib/search/fuzzyIndex.ts:22-32 | A blank query gives `[]`. Otherwise there is one suggestion per limited hit for the trimmed query, same order, label and type copied, and a missing score reported as 0. |
| FuzzyIndex.GetAutoCorrectCandidate | lib/search/fuzzyIndex.ts:38-58 | A candidate exists iff the query is not blank, there is a hit, and the best score is defined and at most `maxScore`. The candidate is that best hit with its score. |
| FuzzyIndex.QueryPaddingIgnored | lib/search/fuzzyIndex.ts:42 | `q` and the same query padded with white space give identical answers from both functions. |
| FuzzyIndex.LimitOnlyAppends | lib/search/fuzzyIndex.ts:26 | Raising the limit only appends suggestions. |
| FuzzyIndex.ThresholdMonotone | lib/search/fuzzyIndex.ts:49 | A candidate returned for `maxScore = m` is returned unchanged for any larger threshold. |
| FuzzyIndex.CandidateIsFirstSuggestion | lib/search/fuzzyIndex.ts:45-55 | When a candidate exists, it equals the first suggestion under any positive limit. |
| FuzzyIndex.UndefinedBestScore | lib/search/fuzzyIndex.ts:30 | An undefined best score is reported as 0 by `getSuggestions`, while `getAutoCorrectCandidate` returns null. |
| FuzzyIndex.DefaultCalls | lib/search/fuzzyIndex.ts:22-40 | With the default arguments, `limit = 5` caps the suggestions at five, and a candidate has a score of at most 0.45. |
| Favorites.HasMatch | store/favoritesStore.ts:37 | `some` holds iff an entry has exactly this id and type. |
| Favorites.WithoutSpec | store/favoritesStore.ts:29-34 | After removal no entry matches. Every other entry keeps its multiplicity, so the same id with the other type survives, and order is kept. |
| Favorites.WithoutAbsent | store/favoritesStore.ts:31-33 | Removing an absent pair is a no-op. |
| Favorites.WithoutIdempotent | store/favoritesStore.ts:31-33 | Removing twice is removing once. |
| Favorites.AddKeepsDuplicates | store/favoritesStore.ts:25-28 | Adding an already saved pair leaves two entries for it: there is no duplicate check. |
| Favorites.FavoritesStore.constructor | store/favoritesStore.ts:24 | The store starts with an empty list. |
| Favorites.FavoritesStore.IsFavorite | store/favoritesStore.ts:35-38 | Holds iff some entry has exactly this id and type. |
| Favorites.FavoritesStore.AddFavorite | store/favoritesStore.ts:25-28 | The item is appended and earlier entries are unchanged. `IsFavorite` then holds for its pair. |
| Favorites.FavoritesStore.RemoveFavorite | store/favoritesStore.ts:29-34 | The list becomes the filtered list and `IsFavorite` is false afterwards. An absent pair leaves the list unchanged. |
| Favorites.FavoritesStore.ClearFavorites | store/favoritesStore.ts:39 | The list becomes empty. |

## Left out

- Fuse.js matching and scoring (`threshold`, `distance`, `minMatchCharLength`). It is a library whose source is not part of this model, and its scores are floating point. `Ranking` is an arbitrary function from query to ranked hits. Nothing is proved about typo tolerance, exact-match-first or score values. That the hits come from `SEARCH_CORPUS` is not modelled.
- FuzzyIndex.Search: assumes that `search(q, { limit })` returns the first `min(limit, n)` hits of the unlimited ranking.
- Negative or fractional limits are not modelled: `limit` is a natural number.
- Scores are Dafny `real`s, which are only copied and compared. IEEE rounding and NaN are not modelled.
- Text.Lower: folds ASCII letters only. Full Unicode `toLowerCase` (for example `İ` or `ß`) is not modelled.
- `trim` removes the ECMAScript white-space and line-terminator set, listed character by character.
- Loading the generated JSON with `require` and the `console.warn` on failure are I/O. The load's outcome is the `Artifact` input.
- Corpus.LoadGenerated: assumes every array element is a record with a string label and one of the four types. A `null` element throws inside the `try`, so the loader falls back to the static list; the model counts that case as `LoadFailed`. A record without a string label passes the load but makes `toLowerCase` throw in `mergeAndDeduplicate`, outside the `try`, so loading the module fails. That crash is not modelled. A type outside the four literals cannot be represented either.
- Harvest.FieldValue: a listing entry is a map of string fields. A missing or null field reads as the empty string. Non-string JSON values in a name field are not modelled.
- The script's `fetchJson`, `Promise.all`, directory creation, `writeFileSync`, console output and `process.exit` are I/O. A failed fetch aborts before anything is written; that abort is not modelled.
- Persisting favorites through `persist` and localStorage is storage plumbing.
- The React pages and components are not part of this model. This includes the search page's filtering of suggestions, pagination, debounce timers and the video-id regex.
- The catalogue fetch wrappers in `lib/api/` are not part of this model.
