# One shelf over — a verified model of the recommendation core

This project models the core of a small reading-tracker web app for a
catalog of science-fiction books (`app.js`). The app's one real algorithm is
the "one shelf over" recommender. It looks for unread books that share a few
themes with the books the reader rated 4 or 5 (the *seeds*), or that share
their writing style or era. It avoids books that are near-duplicates. Each
recommendation gets a score, a shelf label and a one-line explanation.

The model covers:

- **Style similarity** (`Style`, with `Text` and `Seqs`). Both descriptors
  are lowercased and split on runs of whitespace and hyphens, exactly as the
  regular expression `/[\s-]+/` does, including the empty tokens a leading or
  trailing separator produces. The result counts the words of the first
  descriptor that occur in the second, repeats included.
- **Scoring and ranking** (`Engine`, with `Sorting`). For every unread book,
  each seed adds a theme term, a style term and an era term. The shared
  themes and a diversity bonus are tracked alongside. The positive scores
  are stably sorted, highest first, and cut to 12. The app's loops are
  `method`s proved equal to specification functions. The lemmas state what
  the score and the ranking mean.
- **Shelf labels** (`Shelf`). The label comes from the distinct
  matched-theme count and the style subtotal. It is also given as a
  first-match table.
- **Reading state** (`Books`, `Library`). Stored read/rating state is merged
  into the catalog, with the default `{read: false, rating: 0}`. The
  `Library` class holds the catalog, the stored state and the open book.
  Opening, closing, rating and marking read/unread update these fields.
- **The catalog view** (`Filters`). The search, status, minimum-rating, era
  and theme filters are applied one after another, then the list is sorted
  by the chosen key.

Scores are exact rationals (`real`). A `Scored` record is the recommendation
the app builds (`{...book, shelfScore, matchedThemes, shelfLocation,
recommendationReason}`).

Notes on how the code behaves, which the model keeps:

- The shared themes are `book.themes.filter(t => ratedBook.themes.includes(t))`
  (app.js:116), a sequence, not a set. A theme the candidate lists twice
  counts twice toward the 1-to-3 sweet spot and the theme term. The
  matched-theme set holds it once.
- The style similarity (app.js:88) keeps every keyword of the first
  descriptor that the second includes, repeats counted. The count is
  therefore not symmetric (`Style.SimilarityAsymmetric`).
- Stored state replaces the catalog's `read` and `rating` (app.js:245-248).
  A book absent from the store gets `read: false, rating: 0` even if the
  catalog says otherwise (`Books.MergeEmptyStore`).
- The code reads `book.themes` without a guard, so a book with no `themes`
  array would throw rather than contribute nothing. In the model every book
  carries a (possibly empty) theme sequence.

## Model

| member | source | states |
|---|---|---|
| Text.Lower | app.js:85-86 | `toLowerCase` keeps the length, leaves no ASCII capital, keeps every other character, and keeps every separator a separator at the same index, so lowercasing before the split cannot move a cut |
| Text.LowerCapital | app.js:85-86 | a capital becomes the small letter at the same place in the alphabet |
| Text.LowerIdempotent | app.js:85-86 | lowercasing twice is lowercasing once |
| Text.IsSeparator | app.js:85-86 | the class `[\s-]`: hyphen, space, tab and newline are in it; ASCII letters, digits and `_` are not |
| Text.Contains | app.js:476-480 | `includes` holds when the needle is a prefix, in particular for the empty needle, and never for a needle longer than the haystack |
| Text.ContainsAt | app.js:476-480 | `includes` holds exactly when the needle occurs at some position of the haystack |
| Text.ContainsOccurs | app.js:476-480 | when `includes` holds, the needle occurs at some position |
| Text.OccursContains | app.js:476-480 | an occurrence at any position makes `includes` hold |
| Text.DropSeparators | app.js:85-86 | skipping a separator run leaves a suffix of the input that starts with a non-separator, and only separators were dropped |
| Text.Split | app.js:85-86 | `split(/[\s-]+/)` always yields at least one token; `SplitCut` and `SplitOneWord` fix the tokens of every string |
| Text.DropSeparatorRun | app.js:85-86 | a whole run of separators before a non-separator is skipped at once |
| Text.SplitCut | app.js:85-86 | a word followed by a non-empty run of separators is one token, and splitting continues after the run: a run of several separators makes one cut |
| Text.SplitRunExample | app.js:85-86 | "a  -b" splits into "a" and "b" |
| Text.SplitKeepsLetters | app.js:85-86 | the tokens, concatenated, are the input with every whitespace and hyphen removed: splitting loses no other character |
| Text.SplitNoSeparators | app.js:85-86 | every token is a word: no token contains a whitespace character or a hyphen |
| Text.SplitOneWord | app.js:85-86 | a string without separators splits into itself |
| Text.SplitTwoWords | app.js:85-86 | two words around one separator split into exactly those two words |
| Text.SplitLeadingSeparator | app.js:85-86 | a leading separator produces an empty first token |
| Seqs.Filter | app.js:88 | `filter` keeps only elements of the input that satisfy the predicate, never more elements than the input has |
| Seqs.FilterAppend | app.js:472-518 | filtering a concatenation filters each part and keeps their order, so the kept elements stay in input order |
| Seqs.FilterCount | app.js:88 | each element is kept exactly as many times as it occurs, if it satisfies the predicate, and otherwise dropped |
| Seqs.FilterTwice | app.js:472-518 | filtering by one predicate and then another is filtering by their conjunction |
| Seqs.FilterSame | app.js:472-518 | filtering by two predicates that accept the same elements gives the same list |
| Seqs.Common | app.js:88 | the words of the first list that the second includes, no more than the first has |
| Seqs.CommonIsFilter | app.js:88 | the common list is `filter` with the `includes` predicate, so the general `filter` lemmas apply to it |
| Seqs.CommonMembers | app.js:88 | a word is in the common list iff it is in both lists |
| Seqs.CommonCount | app.js:88 | the common list repeats a word as often as the first list does, when the second has it |
| Seqs.Add | app.js:123 | `Set.add` keeps the set free of duplicates, adds exactly the new element and keeps insertion order |
| Seqs.AddAll | app.js:123 | adding several elements gives exactly the union, duplicate-free, with the old elements first |
| Seqs.AddAllSnoc | app.js:123 | adding a list one element longer adds that element to the earlier result |
| Seqs.AddAllPrefix | app.js:123 | adding the first k + 1 elements is adding the first k, then element k |
| Seqs.Union | app.js:111-123 | adding list after list to an empty set gives a duplicate-free result |
| Seqs.UnionMembers | app.js:111-123 | an element is in the union iff some list holds it |
| Style.Keywords | app.js:85-86 | a descriptor's keyword list is never empty |
| Style.StyleSimilarity | app.js:82-90 | 0 when either descriptor is absent or empty; never more than the first descriptor's keyword count |
| Style.SimilarityCountsRepeats | app.js:85-88 | the common keywords are the first descriptor's keywords, each as often as it occurs there, when the second descriptor has it |
| Style.SimilarityPositive | app.js:82-90 | similarity is positive iff both descriptors are non-empty and share a keyword |
| Style.SelfSimilarity | app.js:82-90 | a non-empty descriptor compared with itself scores its keyword count, at least 1 |
| Style.SimilarityExamples | app.js:82-90 | an empty or absent descriptor scores 0; "dark comic" against "dark" scores 1 |
| Style.SimilarityAsymmetric | app.js:88-89 | "a a" against "a" scores 2 but "a" against "a a" scores 1 |
| Style.LeadingSeparatorsMatch | app.js:85-89 | two descriptors that each start with a separator followed by different single words score 1: their empty first keywords match |
| Style.LeadingSeparatorMatches | app.js:85-89 | " sparse" against "-lush" scores 1 |
| Sorting.Insert | app.js:163 | inserting into a list adds exactly one element |
| Sorting.SortDesc | app.js:163 | the sort keeps the length |
| Sorting.SortDescSorted | app.js:163 | the sorted list is non-increasing by the key |
| Sorting.SortDescPermutation | app.js:163 | the sorted list is a permutation of the input |
| Sorting.SortDescStable | app.js:163 | for every key value, the elements with that key appear in their input order |
| Sorting.SortConstantKey | app.js:536-537 | a comparator that always answers 0 leaves the list as it is |
| Shelf.DetermineShelfLocation | app.js:175-191 | the result is always one of the seven shelf labels |
| Shelf.ShelfLocationIsTable | app.js:175-191 | the label is the first row of the seven-row threshold table that the arguments meet |
| Shelf.ShelfLocationByThemeCount | app.js:175-191 | the label tells the theme count: one, two, three, or any other number, each iff |
| Shelf.ShelfLocationVoice | app.js:176-187 | a style label is given iff the style subtotal exceeds 20 for one theme, 15 for two, or 25 for neither one, two nor three themes |
| Shelf.ShelfLocationStyleMonotone | app.js:176-187 | raising the style subtotal never takes away a style label |
| Books.WithState | app.js:245-248 | the merged book carries the given read/rating state and keeps every catalog field |
| Books.StoredStateUpdate | app.js:62-71 | after `setBookData` for an id, `getBookData` gives the state written for that id and the earlier state, or the default, for every other id |
| Books.Merge | app.js:245-248 | merging keeps the number of books |
| Books.MergeFields | app.js:245-248 | each merged book is its catalog entry with the stored or default state |
| Books.MergeRestores | app.js:245-248 | merging a catalog whose state already agrees with the store changes nothing |
| Books.MergeIdempotent | app.js:245-248 | merging twice with the same store is merging once |
| Books.MergeEmptyStore | app.js:62-65 | with an empty store every book is unread and unrated, whatever the catalog says |
| Books.FindIndex | app.js:403 | `findIndex` gives -1 iff no book has the id, and otherwise the first index with that id |
| Books.Find | app.js:331 | `find` gives nothing iff no book has the id, and otherwise the book at the first index with that id |
| Library.Library.constructor | app.js:242-248 | the library starts with the merged catalog, the given store and no open book, and keeps ids unique and catalog and store in agreement |
| Library.Library.OpenBook | app.js:330-331 | the open book is the catalog's book with that id, if any |
| Library.Library.CloseBook | app.js:373-375 | no book is open afterwards |
| Library.Library.RateBook | app.js:427-442 | with a book open: it gets the rating and is marked read; the store records both; the catalog entry with its id is replaced and no other entry changes; with no book open nothing changes; a catalog whose rated books are read stays so |
| Library.Library.ToggleReadStatus | app.js:393-406 | with a book open: only its read flag changes; the store records it with the unchanged rating; the catalog entry with its id is replaced and no other changes; with no book open nothing changes |
| Engine.ThemeReason | app.js:126-132 | the sweet-spot explanation ends with the seed's title in quotes, and names the single shared theme when there is one |
| Engine.StyleReason | app.js:138 | the style explanation ends with the seed's title in quotes |
| Engine.Finish | app.js:148-157 | the record keeps the candidate and its matched themes; the score exceeds the two running totals by exactly 20 for 1 to 3 distinct themes and by 0 otherwise; the explanation is the first recorded reason or the generic one; the label is one of the seven |
| Engine.TopRanked | app.js:161-164 | the ranking has as many entries as there are positive scores, but no more than 12 |
| Engine.Recommendations | app.js:93-172 | no seeds gives no recommendations; never more than 12 and never more than the unread books |
| Engine.ScoreAll | app.js:107 | one scored entry per unread book |
| Engine.AddEach | app.js:123 | the loop adds the shared themes to the matched set as `AddAll` does |
| Engine.CompareThemes | app.js:115-132 | the theme branch of one seed's pass: in the 1-to-3 sweet spot it adds the theme term, the shared themes and the tiered reason, otherwise nothing |
| Engine.CompareStyles | app.js:134-139 | the style branch: with a positive similarity it adds the style term to the style subtotal and the style reason, otherwise nothing |
| Engine.CompareEras | app.js:141-145 | the era branch: within 20 years it adds the era term to the total, otherwise nothing |
| Engine.CompareWithRatedBook | app.js:114-146 | one pass of the `forEach` over the seeds updates the totals, reasons and matched themes as one step of the specification does |
| Engine.ScoreCandidate | app.js:107-158 | the per-candidate loop yields exactly the specified score of the candidate against the seeds |
| Engine.ScoreEach | app.js:107-158 | the `map` over the unread books scores each of them, in catalog order |
| Engine.GenerateRecommendations | app.js:93-172 | the result is the specified ranking: empty without seeds, at most 12 entries, each an unread catalog book with a positive score, best first |
| Engine.RecommendationsShape | app.js:95-164 | every entry is an unread catalog book scored against the seeds, positive, at most 12, non-increasing by score |
| Engine.ScoredEntry | app.js:104-107 | every scored entry is an unread catalog book scored against the seeds |
| Engine.TopRankedShape | app.js:161-164 | the ranking holds at most 12 entries, non-increasing by score, each from the input with a positive score |
| Engine.ThemeStepTerms | app.js:115-132 | the theme branch adds exactly the seed's theme term, theme reason and sweet-spot themes |
| Engine.StyleStepTerms | app.js:134-139 | the style branch adds exactly the seed's style term and style reason |
| Engine.EraStepTerms | app.js:141-145 | the era branch adds exactly the seed's era term |
| Engine.StepTerms | app.js:114-146 | one seed's pass adds its theme and era terms to the total, its style term to the style subtotal, its theme reason then style reason to the reasons, its sweet-spot themes to the matched set |
| Engine.AccumulateIsSums | app.js:114-146 | after all seeds, the total is the sum of the per-seed theme and era terms, the style subtotal the sum of the style terms, and the reasons the per-seed reasons in catalog order |
| Engine.TermsNonNegative | app.js:121-144 | no seed contributes a negative term |
| Engine.WeightsNonNegative | app.js:121-144 | the theme, style and era weights are not negative for a rating that is not |
| Engine.ThemeEraSumCovers | app.js:142-145 | every seed's era term is included in the total, and the total is not negative |
| Engine.SumsNonNegative | app.js:108-146 | the total and the style subtotal are never negative |
| Engine.ScoreParts | app.js:148-155 | shelf score = total + style subtotal + bonus; the bonus is 20 iff 1 to 3 distinct themes matched; the label comes from the distinct count and the style subtotal; the score is not negative |
| Engine.MatchedThemes | app.js:116-123 | a theme is matched iff some seed in the sweet spot shares it; matched themes are distinct and are themes of the candidate |
| Engine.ThemeLists | app.js:116-123 | one list of sweet-spot themes per seed |
| Engine.AllThemesMembers | app.js:116-123 | a theme is in the matched set iff some seed in the sweet spot shares it |
| Engine.AllThemesSnoc | app.js:114-123 | visiting one more seed adds its sweet-spot themes to the matched set |
| Engine.AllReasonsPrefix | app.js:126-138 | the reasons from the first seeds are a prefix of the reasons from all seeds |
| Engine.AllReasonsEmpty | app.js:126-138 | no seed gives a reason, so the list is empty |
| Engine.FirstOfAllReasons | app.js:125-156 | the first of all reasons is the first reason of the first seed that gives one |
| Engine.FirstPairReason | app.js:125-138 | a seed's first reason is its theme reason when in the sweet spot, otherwise its style reason |
| Engine.FirstReason | app.js:125-156 | the explanation is the first reason of the first seed that gives one: its tiered theme reason if in the sweet spot, otherwise its style reason |
| Engine.FallbackReason | app.js:156 | the generic explanation is shown iff no seed gives a theme or style reason |
| Engine.ReasonIsNotFallback | app.js:126-156 | no theme or style reason equals the generic explanation |
| Engine.OneSharedThemeScoresSixty | app.js:120-153 | one shared theme with a rating-5 seed, no style match, more than 20 years apart: score 60, label "Adjacent shelf", the single-theme explanation |
| Engine.NoAffinityScoresZero | app.js:114-153 | no sweet spot, no style match and no era match with any seed gives score 0 and nothing recorded; four or more shared themes earn nothing |
| Engine.UnreadSeedScoresPositive | app.js:95-162 | a book rated 4 or 5 but marked unread is both seed and candidate and always passes the positive-score cut |
| Engine.SeedsRated | app.js:95 | every seed is rated 4 or more |
| Engine.NoSeedsNoRecommendations | app.js:95-101 | with no book rated 4 or more there are no recommendations |
| Engine.ReadNeverRecommended | app.js:104 | a read book is never recommended |
| Engine.NoAffinityNotRecommended | app.js:162 | a book with no affinity to any seed is never recommended |
| Engine.TopRankedStable | app.js:161-164 | for every score, the ranked entries with that score are a prefix of the input's entries with that score |
| Engine.RecommendationsStable | app.js:161-164 | for every score, the recommended entries with that score are the first of the scored unread books with that score, in catalog order |
| Engine.TopRankedIsTop | app.js:161-164 | the ranking holds all positive entries when there are at most 12; otherwise 12 of them, none of the rest scoring higher than the last shown |
| Engine.RecommendationsAreTop | app.js:161-164 | with at most 12 positive scores all are shown; otherwise 12 are shown and every positive score left out is at most the last one shown |
| Filters.FilterStages | app.js:472-517 | filtering by the five controls one after another is filtering by all of them at once |
| Filters.NarrowBySearch | app.js:474-483 | a non-empty lowercased term keeps the books whose title, author, description or some theme contains it; an empty term keeps all |
| Filters.NarrowByStatus | app.js:486-491 | "read" keeps read books, "unread" unread ones, any other value all |
| Filters.NarrowByRating | app.js:494-498 | a chosen minimum keeps books rated at least that; "all" keeps all |
| Filters.NarrowByEra | app.js:501-508 | "classic" keeps years before 1980, "modern" 1980 to 1999, "contemporary" 2000 on; any other value keeps all |
| Filters.NarrowByTheme | app.js:511-518 | a chosen theme keeps books with some theme containing it, case-insensitively; "all" keeps all |
| Filters.Selected | app.js:471-518 | a book is selected iff it is in the catalog and passes every control |
| Filters.SortKey | app.js:522-539 | for every sort choice and every two books, the comparator puts `a` first iff `a`'s key is higher, and answers 0 iff the keys are equal |
| Filters.CatalogView | app.js:471-539 | the view is never longer than the catalog |
| Filters.ApplyFiltersAndSort | app.js:471-539 | the result is the specified view: exactly the catalog books that pass every control, ordered by the chosen key |
| Filters.SelectedCount | app.js:471-518 | a book is selected as often as it is in the catalog when it passes the controls, and otherwise never |
| Filters.StatusSplitsSelection | app.js:486-491 | the "read" and "unread" selections together are exactly the "all" selection |
| Filters.EraBucketsPartition | app.js:501-508 | every year falls in exactly one of the three eras |
| Filters.TitleSearchFinds | app.js:474-483 | a book whose title contains the search term is listed when no other filter is active |
| Filters.UnfilteredViewIsCatalog | app.js:471-539 | with no filter active and an unknown sort value the view is the catalog in catalog order |
| Filters.ResetViewIsWholeCatalog | app.js:545-552 | after a reset the view holds every catalog book, ordered by title |
| Filters.ViewTiesInCatalogOrder | app.js:522-539 | books the chosen order ranks equal keep their catalog order |
| Filters.ViewOrders | app.js:528-533 | "year-asc" lists years non-decreasing; "rating-desc" lists ratings non-increasing |

## Left out

- Rendering, the modal, the statistics panel, the theme icons and colours
  (`getThemeVisual`, `renderBooks`, `renderRecommendations`, `updateStats`,
  `updateModalStars`) and all other DOM work: presentation only.
- Hiding the recommendations section when the list is empty: the model
  returns the empty list instead.
- Loading `books.json` and reading or writing `localStorage`: the catalog is
  a parameter and the store is a `map` from id to state. JSON parsing,
  network failure and `clearAllData` are not modelled.
- The unused `themeOverlapRatio` (app.js:117): it is computed but never read.
- Floating point: scores are exact rationals. IEEE-754 rounding of
  `rating / 5` and of the sums is not modelled, so ties that rounding would
  break or create are not captured.
- Text.Lower: maps only ASCII capitals. The rest of Unicode case mapping
  done by `toLowerCase` is not modelled.
- Filters.SortKey: `localeCompare` is replaced by an integer collation key
  given as a parameter. A locale's collation is not modelled.
- The rating control is `None` for "all" or the number that `parseInt`
  would produce. Parsing the control's text is not modelled.
- Filters.ApplyFiltersAndSort: `(b.rating || 0)` is the rating itself,
  because in the model every book has a numeric rating.
- Books with missing `themes`, `writingStyle`, `year` or `rating` fields:
  the model's book record always has them. An absent `writingStyle` is
  `None`.
- `currentBook` and the catalog entry are held by value.
  The source's aliasing between them (the modal's object and
  `booksData[bookIndex]` before the copy) is not modelled. The model gives
  the same final values.
- Library.Library.constructor: requires unique ids, which the catalog is
  assumed to have. With a repeated id, rating the first book with that id
  would leave the other entries with the same id out of step with the
  store, so the class's consistency invariant does not cover such catalogs.
- Refreshing after a rating or status change: the view
  (`Filters.ApplyFiltersAndSort`) and the recommendations
  (`Engine.GenerateRecommendations`) are separate operations and are not
  composed into `RateBook`/`ToggleReadStatus`; the statistics are not
  modelled.
