/**
  The quote service: pick a bounded, shuffled set of quotes from one category
  of the catalog, avoiding the ids the caller showed last time when enough
  other quotes remain. The catalog and the random draws are parameters; the
  service keeps no state of its own and never changes the catalog.
 */
module QuoteService {
  import opened QuoteTypes
  import opened Shuffle

  /** The failure reason for an absent or empty category. */
  function NotFoundMessage(category: string): string {
    "No quotes found for category: " + category
  }

  /** The quotes stored under `category`; an absent category reads as no quotes. */
  function CategoryQuotes(catalog: Catalog, category: string): seq<Quote> {
    if category in catalog then catalog[category] else []
  }

  /**
    The quotes of `qs`, in order, whose ids are not in `excludeIds`. A quote
    survives exactly as often as it occurs in `qs` when its id is allowed,
    and never when it is excluded.
   */
  function FilterExcluded(qs: seq<Quote>, excludeIds: seq<int>): (r: seq<Quote>)
    ensures |r| <= |qs|
    ensures forall q :: multiset(r)[q] == (if q.id in excludeIds then 0 else multiset(qs)[q])
    ensures AvoidsIds(r, excludeIds)
  {
    if |qs| == 0 then []
    else
      var rest := FilterExcluded(qs[1..], excludeIds);
      assert qs == [qs[0]] + qs[1..];
      if qs[0].id in excludeIds then rest else [qs[0]] + rest
  }

  /** `Math.min` on whole numbers. */
  function Min(a: int, b: int): int {
    if a <= b then a else b
  }

  /**
    `s.slice(0, end)` in JavaScript: a negative `end` counts back from the
    end of `s`, an `end` past the end stops there.
   */
  function SlicePrefix<T>(s: seq<T>, end: int): (r: seq<T>)
    ensures end >= 0 ==> |r| == Min(end, |s|)
    ensures end < 0 ==> |r| == (if |s| + end > 0 then |s| + end else 0)
    ensures r <= s
  {
    var stop := if end < 0 then (if |s| + end > 0 then |s| + end else 0)
                else Min(end, |s|);
    s[..stop]
  }

  /** The pool the shuffle draws from: the allowed quotes, or every quote once too few are allowed. */
  function SelectionPool(categoryQuotes: seq<Quote>, count: int, excludeIds: seq<int>): (pool: seq<Quote>)
    ensures |FilterExcluded(categoryQuotes, excludeIds)| < count ==> pool == categoryQuotes
    ensures |FilterExcluded(categoryQuotes, excludeIds)| >= count ==> AvoidsIds(pool, excludeIds)
    ensures |FilterExcluded(categoryQuotes, excludeIds)| >= count ==>
              forall q :: multiset(pool)[q] == (if q.id in excludeIds then 0 else multiset(categoryQuotes)[q])
    ensures multiset(pool) <= multiset(categoryQuotes)
  {
    var available := FilterExcluded(categoryQuotes, excludeIds);
    if |available| < count then categoryQuotes else available
  }

  /** Quotes occurring in `qs` at most as often as in a list that avoids `ids` avoid them too. */
  lemma SubMultisetAvoidsIds(qs: seq<Quote>, pool: seq<Quote>, ids: seq<int>)
    requires multiset(qs) <= multiset(pool)
    requires AvoidsIds(pool, ids)
    ensures AvoidsIds(qs, ids)
  {
    forall i | 0 <= i < |qs|
      ensures qs[i].id !in ids
    {
      assert qs[i] in multiset(qs);
      assert qs[i] in multiset(pool);
      var k :| 0 <= k < |pool| && pool[k] == qs[i];
    }
  }

  /** A prefix takes no element more often than the whole sequence holds it. */
  lemma PrefixIsSubMultiset<T>(p: seq<T>, s: seq<T>)
    requires p <= s
    ensures multiset(p) <= multiset(s)
  {
    assert s == p + s[|p|..];
  }

  /** The first `count` quotes of the shuffled pool, or all of them when the pool is smaller. */
  function ShuffleAndTake(pool: seq<Quote>, count: int, draws: seq<real>): (selected: seq<Quote>)
    requires ValidDraws(draws)
    requires |pool| <= |draws| + 1
    ensures count >= 1 ==> |selected| == Min(count, |pool|)
    ensures count == 0 ==> selected == []
    ensures count < 0 ==> |selected| == (if |pool| + count > 0 then |pool| + count else 0)
    ensures multiset(selected) <= multiset(pool)
  {
    var shuffled := FisherYates(pool, draws);
    var selected := SlicePrefix(shuffled, Min(count, |shuffled|));
    PrefixIsSubMultiset(selected, shuffled);
    selected
  }

  /**
    Up to `count` shuffled quotes from `category`, avoiding `excludeIds`
    unless fewer than `count` quotes would remain. `draws` are the random
    values the shuffle consumes; the pool is never larger than the category,
    so one draw per quote of the category is always enough.
   */
  function GetQuotesByCategory(catalog: Catalog, category: string, count: int,
                               excludeIds: seq<int>, draws: seq<real>): (r: QuoteResponse)
    requires ValidDraws(draws)
    requires |CategoryQuotes(catalog, category)| <= |draws| + 1
    ensures r.Failure? <==> category !in catalog || |catalog[category]| == 0
    ensures r.Failure? ==> r.error == "No quotes found for category: " + category
    ensures r.Success? ==> category in catalog && multiset(r.quotes) <= multiset(catalog[category])
    ensures r.Success? && count >= 1 ==> |r.quotes| == Min(count, |catalog[category]|)
    ensures r.Success? && count >= 1 && |FilterExcluded(catalog[category], excludeIds)| >= count
            ==> AvoidsIds(r.quotes, excludeIds)
  {
    var categoryQuotes := CategoryQuotes(catalog, category);
    if |categoryQuotes| == 0 then Failure(NotFoundMessage(category))
    else
      var pool := SelectionPool(categoryQuotes, count, excludeIds);
      var selected := ShuffleAndTake(pool, count, draws);
      assert |FilterExcluded(categoryQuotes, excludeIds)| >= count ==> AvoidsIds(selected, excludeIds) by {
        if |FilterExcluded(categoryQuotes, excludeIds)| >= count {
          SubMultisetAvoidsIds(selected, pool, excludeIds);
        }
      }
      Success(selected)
  }

  /** The category keys of the catalog, in no particular order. */
  function GetAvailableCategories(catalog: Catalog): (keys: set<string>)
    ensures forall c :: c in keys <==> c in catalog
  {
    catalog.Keys
  }

  /**
    How many quotes `category` holds: exactly the quotes the selector would
    draw from, so a name the catalog does not own counts none.
   */
  function GetQuoteCount(catalog: Catalog, category: string): (n: nat)
    ensures n == |CategoryQuotes(catalog, category)|
  {
    if category in catalog then |catalog[category]| else 0
  }
}
