# Quote selector model

A Dafny model of the quote service of a small quote-generator web app. The
service holds a catalog that maps category names ("funny", "wisdom", …) to
ordered lists of quotes. `getQuotesByCategory(category, count = 3,
excludeIds = [])` looks the category up and fails with
`"No quotes found for category: <category>"` when it is absent or empty.
Otherwise it drops the quotes whose ids the caller wants to avoid. If fewer
than `count` quotes survive, it ignores the exclusions and uses the whole
category. It then shuffles that pool with Fisher–Yates and returns the
first `min(count, pool size)` quotes. Two small queries list the category
keys and count the quotes in one category.

Modules:

- `QuoteTypes` (`quote_types.dfy`): the `Quote` record, the response
  `Success(quotes) | Failure(error)`, and the catalog as
  `map<string, seq<Quote>>`.
- `Shuffle` (`shuffle.dfy`): the swap-index draw `floor(r * (i + 1))` and a
  pure recursive Fisher–Yates (`FisherYates`). It also holds the in-place
  array version the source runs (`ShuffleArray`), proved equal to the pure
  one, which the model's selector uses, with a loop invariant that keeps the array's multiset.
- `QuoteService` (`quote_service.dfy`): lookup, exclusion filter, fallback
  pool, JavaScript `slice(0, end)`, the selector and the two queries.
- `QuoteServiceProperties` (`quote_service_properties.dfy`): the fallback
  rule, harmless exclusions, distinct ids, and agreement between the
  queries and the selector. It also proves what the exclusion list is for:
  a caller that passes back the ids it was just shown gets no repeats when
  the category has distinct ids and at least twice as many quotes as
  requested.
- `JsRecordLookup` (`js_record_lookup.dfy`): property lookup on the plain
  object that holds the catalog, with the inherited `Object.prototype`
  methods and the inherited `__proto__` accessor. It models the finding
  below and the selector's emptiness check as written.

The catalog is a parameter instead of the singleton's field. Every
operation is a function of its inputs, so no operation can change the
catalog. `ShuffleArray` copies its input into a fresh array, as the source
copies with `[...array]`, so the caller's list is untouched. The random
source is a parameter: `draws` lists the successive values of
`Math.random()`, each in [0, 1), and one is used per shuffle step. The
selector needs as many draws as the category has quotes, less one. The
pool is never larger than the category, so that is always enough.

`count` is modelled as a whole number of any sign. The source takes any
JavaScript number and does not check it; fractional and NaN counts are
listed under "Left out". The size and exclusion guarantees are stated for
`count >= 1`.
`NonPositiveCountSelection` records what the code does for smaller counts.
Zero gives no quotes. A negative count drops that many quotes from the end
of the shuffled pool, as `slice(0, negative)` does.

## Model

| member | source | states |
|---|---|---|
| Shuffle.DrawIndex | assignment-1/quote-generator/src/lib/quote-service.ts:89 | the partner drawn for position i from a value in [0, 1) is a position in [0, i] |
| Shuffle.DrawIndexReachesEveryPosition | assignment-1/quote-generator/src/lib/quote-service.ts:89 | every position in [0, i] is drawn by some value in [0, 1), so the draw rules out no swap |
| Shuffle.Swap | assignment-1/quote-generator/src/lib/quote-service.ts:90 | the destructuring swap exchanges the two positions and keeps the multiset |
| Shuffle.SwapLeavesOthers | assignment-1/quote-generator/src/lib/quote-service.ts:90 | the swap changes no position other than the two it exchanges |
| Shuffle.ShuffleDown | assignment-1/quote-generator/src/lib/quote-service.ts:88-91 | the steps for positions n-1 down to 1 permute the sequence and leave positions from n on untouched |
| Shuffle.FisherYates | assignment-1/quote-generator/src/lib/quote-service.ts:86-93 | the shuffle returns a permutation of its input: same length, same multiset |
| Shuffle.ShuffleArray | assignment-1/quote-generator/src/lib/quote-service.ts:86-93 | the in-place loop over a copied array yields a permutation of the input, equal to the pure Fisher–Yates on the same draws |
| Shuffle.ShuffleKeepsOccurrences | assignment-1/quote-generator/src/lib/quote-service.ts:86-93 | an element is in the shuffled list iff it is in the input, and occurs there equally often |
| QuoteService.FilterExcluded | assignment-1/quote-generator/src/lib/quote-service.ts:41 | a quote survives the filter exactly as often as it occurs in the category when its id is not excluded, and never when it is |
| QuoteService.SlicePrefix | assignment-1/quote-generator/src/lib/quote-service.ts:50 | `slice(0, end)` returns a prefix of length min(end, n) for end >= 0 and max(n + end, 0) for end < 0 |
| QuoteService.SelectionPool | assignment-1/quote-generator/src/lib/quote-service.ts:41-46 | the pool is the whole category when fewer than count quotes survive the filter, and otherwise holds exactly the surviving quotes: each quote whose id is not excluded as often as the category holds it, and no excluded id; it never holds a quote more often than the category does |
| QuoteService.ShuffleAndTake | assignment-1/quote-generator/src/lib/quote-service.ts:49-50 | for count >= 1 the selection has min(count, pool size) quotes; it is empty for count 0, drops -count quotes for a negative count, and never repeats a pool position |
| QuoteService.GetQuotesByCategory | assignment-1/quote-generator/src/lib/quote-service.ts:26-55 | fails iff the category is absent or empty, with the exact message; on success every quote comes from the category and no more often than it occurs there; for count >= 1 exactly min(count, category size) quotes; no excluded id when at least count quotes survive the filter |
| QuoteService.GetAvailableCategories | assignment-1/quote-generator/src/lib/quote-service.ts:68-70 | a name is listed iff the catalog owns it as a category (related to the selector by SuccessImpliesListedCategory) |
| QuoteService.GetQuoteCount | assignment-1/quote-generator/src/lib/quote-service.ts:77-79 | the count is the number of quotes the selector draws from for that name, and 0 for a name the catalog does not own |
| QuoteServiceProperties.FilterKeepsAllWhenNothingExcluded | assignment-1/quote-generator/src/lib/quote-service.ts:41 | when no quote carries an excluded id, the filter returns the category unchanged, order included |
| QuoteServiceProperties.PoolOnFallbackIgnoresExclusions | assignment-1/quote-generator/src/lib/quote-service.ts:43-46 | when fewer than count quotes survive the filter, the pool is the whole category, the same pool an empty exclusion list gives |
| QuoteServiceProperties.PoolIgnoresForeignExclusions | assignment-1/quote-generator/src/lib/quote-service.ts:41-46 | excluding ids that no quote of the category carries leaves the pool as it is without exclusions |
| QuoteServiceProperties.FallbackDiscardsExclusions | assignment-1/quote-generator/src/lib/quote-service.ts:43-46 | when fewer than count quotes survive, the answer is identical to the one for an empty exclusion list |
| QuoteServiceProperties.ForeignExclusionsAreHarmless | assignment-1/quote-generator/src/lib/quote-service.ts:41-46 | excluding ids that no quote of the category carries gives the same answer as excluding nothing |
| QuoteServiceProperties.SelectionHasDistinctIds | assignment-1/quote-generator/src/lib/quote-service.ts:41-50 | when a category's ids are distinct, a successful selection from it has distinct ids |
| QuoteServiceProperties.FilterRemovesOnePerExcludedId | assignment-1/quote-generator/src/lib/quote-service.ts:41 | when a category's ids are distinct, the filter removes exactly one quote for each excluded id the category carries |
| QuoteServiceProperties.FilterKeepsAllButExcluded | assignment-1/quote-generator/src/lib/quote-service.ts:41 | when a category's ids are distinct, at most as many quotes are filtered out as ids are excluded |
| QuoteServiceProperties.ConsecutiveSelectionsDoNotRepeat | assignment-1/quote-generator/src/lib/quote-service.ts:40-50 | a caller that passes the ids it was just shown gets count quotes, none of them shown before, whenever the category has distinct ids and at least twice count quotes |
| QuoteServiceProperties.QuoteCountMatchesSelection | assignment-1/quote-generator/src/lib/quote-service.ts:31-50 | the count is 0 iff the selector fails, and a successful selection of count >= 1 quotes has min(count, quote count) quotes |
| QuoteServiceProperties.SuccessImpliesListedCategory | assignment-1/quote-generator/src/lib/quote-service.ts:68-79 | only a listed category can succeed, and the count is positive iff the category is listed and non-empty |
| QuoteServiceProperties.ListedEmptyCategoryFails | assignment-1/quote-generator/src/lib/quote-service.ts:33-38 | a category that is listed but holds an empty list still fails, with the not-found message |
| QuoteServiceProperties.NonPositiveCountSelection | assignment-1/quote-generator/src/lib/quote-service.ts:44-50 | for count <= 0 no fallback happens, so exclusions always hold; count 0 gives no quotes; a negative count gives max(survivors + count, 0) quotes |
| JsRecordLookup.LookupProperty | assignment-1/quote-generator/src/lib/quote-service.ts:78 | own keys yield the category's list; other keys yield an inherited method exactly when Object.prototype has one by that name, Object.prototype itself for "__proto__", and are otherwise undefined |
| JsRecordLookup.GuardRefusesAsWritten | assignment-1/quote-generator/src/lib/quote-service.ts:33 | the emptiness check (value falsy, or its `length` strictly equal to 0) refuses exactly undefined, an empty list and a method with `length` 0; it lets Object.prototype through |
| JsRecordLookup.GuardAdmitsInheritedNames | assignment-1/quote-generator/src/lib/quote-service.ts:31-41 | a name the catalog does not own passes the emptiness check iff it is "__proto__" or an inherited method with nonzero `length` |
| JsRecordLookup.QuoteCountAsWritten | assignment-1/quote-generator/src/lib/quote-service.ts:77-79 | the count as written agrees with the own-key count on own keys, but returns an inherited method's `length` for its name, and 0 for "__proto__" |
| JsRecordLookup.InheritedNameIsCounted | assignment-1/quote-generator/src/lib/quote-service.ts:78 | on an empty catalog the count as written for "hasOwnProperty" is 1, the own-key count 0 |
| JsRecordLookup.CountsDifferOnlyOnInheritedNames | assignment-1/quote-generator/src/lib/quote-service.ts:78 | the two counts differ exactly on names of inherited methods with nonzero `length` that the catalog does not own |

## Left out

- The 500 ms `setTimeout` delay before a selection (quote-service.ts:29). It is cosmetic and asynchronous.
- The singleton (`getInstance`, the private constructor, the exported instance) and the JSON import (quote-service.ts:2-17, 97). The catalog is a parameter, and the quotes data file is not part of this model.
- The `catch` branch that turns runtime exceptions into failures (quote-service.ts:56-61). No exception can arise in the model's selector. Two kinds of name the catalog does not own would reach it in the source, because they pass the emptiness check and then `filter` throws: an inherited method with a nonzero `length`, such as "constructor", and "__proto__", which yields Object.prototype. `JsRecordLookup.GuardAdmitsInheritedNames` identifies these names; the failure response the catch then builds is not modelled.
- Uniformity of `Math.random()` and of the shuffle. This is a probabilistic claim and is not stated. Only the bound on the drawn index, its reachability and the permutation property are modelled.
- Shuffle.DrawIndex: computes with exact reals, not IEEE doubles. For a double in [0, 1), rounding cannot push `Math.random() * (i + 1)` up to `i + 1` for the small sizes here. This is not proved.
- QuoteService.FilterExcluded: states which quotes survive and how often, not that they keep the category's order. The order only decides which permutation the shuffle returns, and no property depends on it.
- QuoteService.GetAvailableCategories: returns the key set; the order of `Object.keys` is not modelled.
- The default arguments (`count = 3`, no exclusions) at quote-service.ts:26. Every argument is passed explicitly.
- QuoteService.GetQuotesByCategory: `count` is a whole number. A fractional count compares and slices differently in JavaScript: with count 2.5 and two surviving quotes the fallback to the whole category happens (2 < 2.5), and `slice(0, 2.5)` truncates to 2 quotes. A NaN count fails every comparison, so no fallback happens, and `slice(0, NaN)` returns no quotes. Neither case is modelled.
- Quote ids are whole numbers. JavaScript numbers that are fractional or NaN, and the SameValueZero comparison `includes` uses on them, are not modelled.
- The `QuoteCategory` record (quote.ts:8-12) and the React/Next.js files (`quote-card.tsx`, `quote-generator.tsx`, `layout.tsx`). They are presentation code, and the service never uses `QuoteCategory`.

## Findings

| source | as written | input that shows it | evidently intended | confidence | as-written member | corrected member |
|---|---|---|---|---|---|---|
| assignment-1/quote-generator/src/lib/quote-service.ts:78 | the count reads the `length` of `this.quotesCache[category]`, and that lookup also finds inherited `Object.prototype` members, so a method name counts as a category whose size is that method's parameter count | a catalog without a "hasOwnProperty" category: `getQuoteCount("hasOwnProperty")` returns 1 ("constructor" also gives 1) | only the catalog's own categories have quotes; any other name counts 0 | not executed; follows from JavaScript property lookup on a plain object; no file of the app other than quote-service.ts calls the service, and the only category list in the UI (quote-generator.tsx:5-31) holds five fixed names | JsRecordLookup.QuoteCountAsWritten (with JsRecordLookup.InheritedNameIsCounted) | QuoteService.GetQuoteCount (with QuoteServiceProperties.SuccessImpliesListedCategory) |
