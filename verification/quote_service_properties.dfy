/**
  Properties that relate several calls of the quote service: how the
  exclusion list and its fallback shape a selection, why a selection never
  repeats a quote, and how the auxiliary queries agree with the selector.
 */
module QuoteServiceProperties {
  import opened QuoteTypes
  import opened Shuffle
  import opened QuoteService

  /** Excluding ids that no quote carries removes nothing. */
  lemma {:induction false} FilterKeepsAllWhenNothingExcluded(qs: seq<Quote>, excludeIds: seq<int>)
    requires AvoidsIds(qs, excludeIds)
    ensures FilterExcluded(qs, excludeIds) == qs
  {
    if |qs| > 0 {
      FilterKeepsAllWhenNothingExcluded(qs[1..], excludeIds);
      assert qs == [qs[0]] + qs[1..];
    }
  }

  /** On fallback the pool is the whole category, just as if nothing had been excluded. */
  lemma PoolOnFallbackIgnoresExclusions(qs: seq<Quote>, count: int, excludeIds: seq<int>)
    requires |FilterExcluded(qs, excludeIds)| < count
    ensures SelectionPool(qs, count, excludeIds) == SelectionPool(qs, count, []) == qs
  {
    FilterKeepsAllWhenNothingExcluded(qs, []);
  }

  /** Excluding ids that no quote carries leaves the pool as it is without exclusions. */
  lemma PoolIgnoresForeignExclusions(qs: seq<Quote>, count: int, excludeIds: seq<int>)
    requires AvoidsIds(qs, excludeIds)
    ensures SelectionPool(qs, count, excludeIds) == SelectionPool(qs, count, [])
  {
    FilterKeepsAllWhenNothingExcluded(qs, excludeIds);
    FilterKeepsAllWhenNothingExcluded(qs, []);
  }

  /**
    Once fewer than `count` quotes survive the exclusions, the exclusions
    are dropped entirely: the answer is the one an empty exclusion list gives.
   */
  lemma FallbackDiscardsExclusions(catalog: Catalog, category: string, count: int,
                                   excludeIds: seq<int>, draws: seq<real>)
    requires ValidDraws(draws)
    requires |CategoryQuotes(catalog, category)| <= |draws| + 1
    requires |FilterExcluded(CategoryQuotes(catalog, category), excludeIds)| < count
    ensures GetQuotesByCategory(catalog, category, count, excludeIds, draws)
            == GetQuotesByCategory(catalog, category, count, [], draws)
  {
    PoolOnFallbackIgnoresExclusions(CategoryQuotes(catalog, category), count, excludeIds);
  }

  /** Excluding ids that the category does not contain changes nothing about the answer. */
  lemma ForeignExclusionsAreHarmless(catalog: Catalog, category: string, count: int,
                                     excludeIds: seq<int>, draws: seq<real>)
    requires ValidDraws(draws)
    requires |CategoryQuotes(catalog, category)| <= |draws| + 1
    requires AvoidsIds(CategoryQuotes(catalog, category), excludeIds)
    ensures GetQuotesByCategory(catalog, category, count, excludeIds, draws)
            == GetQuotesByCategory(catalog, category, count, [], draws)
  {
    PoolIgnoresForeignExclusions(CategoryQuotes(catalog, category), count, excludeIds);
  }

  /** Dropping the first quote keeps the ids distinct. */
  lemma DistinctIdsTail(t: seq<Quote>)
    requires |t| > 0 && DistinctIds(t)
    ensures DistinctIds(t[1..])
  {
    var rest := t[1..];
    forall i, j | 0 <= i < j < |rest|
      ensures rest[i].id != rest[j].id
    {
      assert rest[i] == t[i + 1] && rest[j] == t[j + 1];
    }
  }

  /** In a list whose ids are distinct, no quote occurs twice. */
  lemma {:induction false} DistinctIdsOccurOnce(t: seq<Quote>, x: Quote)
    requires DistinctIds(t)
    ensures multiset(t)[x] <= 1
  {
    if |t| > 0 {
      var rest := t[1..];
      assert t == [t[0]] + rest;
      DistinctIdsTail(t);
      DistinctIdsOccurOnce(rest, x);
      if x == t[0] {
        assert x !in rest by {
          forall k | 0 <= k < |rest|
            ensures rest[k] != x
          {
            assert rest[k] == t[k + 1];
          }
        }
      }
    }
  }

  /** Two positions holding the same quote make it occur at least twice. */
  lemma RepeatedQuoteOccursTwice(s: seq<Quote>, i: nat, j: nat)
    requires i < j < |s| && s[i] == s[j]
    ensures multiset(s)[s[i]] >= 2
  {
    var front := s[..j];
    assert s == front + [s[j]] + s[j + 1..];
    assert front[i] == s[i];
    assert s[i] in multiset(front);
  }

  /** Drawing from a list with distinct ids, without taking any quote more often than it occurs, keeps the ids distinct. */
  lemma SubMultisetKeepsDistinctIds(s: seq<Quote>, t: seq<Quote>)
    requires DistinctIds(t)
    requires multiset(s) <= multiset(t)
    ensures DistinctIds(s)
  {
    forall i, j | 0 <= i < j < |s|
      ensures s[i].id != s[j].id
    {
      if s[i] == s[j] {
        RepeatedQuoteOccursTwice(s, i, j);
        DistinctIdsOccurOnce(t, s[i]);
      } else {
        assert s[i] in multiset(s) && s[j] in multiset(s);
        assert s[i] in multiset(t) && s[j] in multiset(t);
        var a :| 0 <= a < |t| && t[a] == s[i];
        var b :| 0 <= b < |t| && t[b] == s[j];
        if a < b {
          assert t[a].id != t[b].id;
        } else {
          assert t[b].id != t[a].id;
        }
      }
    }
  }

  /** When the ids in a category are distinct, the ids of a selection from it are distinct. */
  lemma SelectionHasDistinctIds(catalog: Catalog, category: string, count: int,
                                excludeIds: seq<int>, draws: seq<real>)
    requires ValidDraws(draws)
    requires |CategoryQuotes(catalog, category)| <= |draws| + 1
    requires category in catalog && DistinctIds(catalog[category])
    ensures GetQuotesByCategory(catalog, category, count, excludeIds, draws).Success?
            ==> DistinctIds(GetQuotesByCategory(catalog, category, count, excludeIds, draws).quotes)
  {
    var r := GetQuotesByCategory(catalog, category, count, excludeIds, draws);
    if r.Success? {
      SubMultisetKeepsDistinctIds(r.quotes, catalog[category]);
    }
  }

  /**
    The count query and the selector agree: a category with no quotes is
    exactly one the selector refuses, and a successful selection of at least
    one quote returns as many as requested, capped by the count.
   */
  lemma QuoteCountMatchesSelection(catalog: Catalog, category: string, count: int,
                                   excludeIds: seq<int>, draws: seq<real>)
    requires ValidDraws(draws)
    requires |CategoryQuotes(catalog, category)| <= |draws| + 1
    ensures GetQuoteCount(catalog, category) == 0
            <==> GetQuotesByCategory(catalog, category, count, excludeIds, draws).Failure?
    ensures count >= 1 && GetQuotesByCategory(catalog, category, count, excludeIds, draws).Success?
            ==> |GetQuotesByCategory(catalog, category, count, excludeIds, draws).quotes|
                == Min(count, GetQuoteCount(catalog, category))
  {
  }

  /** Only a listed category can succeed, and only a listed category has quotes. */
  lemma SuccessImpliesListedCategory(catalog: Catalog, category: string, count: int,
                                     excludeIds: seq<int>, draws: seq<real>)
    requires ValidDraws(draws)
    requires |CategoryQuotes(catalog, category)| <= |draws| + 1
    ensures GetQuotesByCategory(catalog, category, count, excludeIds, draws).Success?
            ==> category in GetAvailableCategories(catalog)
    ensures GetQuoteCount(catalog, category) > 0
            <==> (category in GetAvailableCategories(catalog) && |catalog[category]| > 0)
  {
  }

  /** A listed category can still be refused: listing does not imply having quotes. */
  lemma ListedEmptyCategoryFails(category: string, count: int, excludeIds: seq<int>, draws: seq<real>)
    requires ValidDraws(draws)
    ensures category in GetAvailableCategories(map[category := []])
    ensures GetQuotesByCategory(map[category := []], category, count, excludeIds, draws)
            == Failure("No quotes found for category: " + category)
  {
  }

  /**
    A count of zero or less is not guarded: the exclusions always apply
    (no fallback can trigger), zero yields no quotes, and a negative count
    drops that many quotes from the end of the shuffled pool, as
    `slice(0, negative)` does.
   */
  lemma NonPositiveCountSelection(catalog: Catalog, category: string, count: int,
                                  excludeIds: seq<int>, draws: seq<real>)
    requires ValidDraws(draws)
    requires |CategoryQuotes(catalog, category)| <= |draws| + 1
    requires count <= 0
    ensures var r := GetQuotesByCategory(catalog, category, count, excludeIds, draws);
            r.Success? ==>
              && AvoidsIds(r.quotes, excludeIds)
              && (count == 0 ==> r.quotes == [])
              && var n := |FilterExcluded(catalog[category], excludeIds)|;
                 (count < 0 ==> |r.quotes| == (if n + count > 0 then n + count else 0))
  {
    var r := GetQuotesByCategory(catalog, category, count, excludeIds, draws);
    if r.Success? {
      var qs := catalog[category];
      var pool := SelectionPool(qs, count, excludeIds);
      assert pool == FilterExcluded(qs, excludeIds);
      assert r.quotes == ShuffleAndTake(pool, count, draws);
      SubMultisetAvoidsIds(r.quotes, pool, excludeIds);
    }
  }

  /** The ids of `qs`, in order: what the caller keeps from one selection to pass as the next exclusion list. */
  function Ids(qs: seq<Quote>): (ids: seq<int>)
    ensures |ids| == |qs|
    ensures forall i :: 0 <= i < |qs| ==> ids[i] == qs[i].id
  {
    if |qs| == 0 then [] else [qs[0].id] + Ids(qs[1..])
  }

  /** The set of ids carried by `qs`. */
  ghost function IdSet(qs: seq<Quote>): set<int> {
    set q | q in qs :: q.id
  }

  /** The set of values listed in `ids`. */
  ghost function ToSet(ids: seq<int>): set<int> {
    set x | x in ids
  }

  /** A list of ids names at most as many distinct ids as it is long. */
  lemma {:induction false} ToSetNoLarger(ids: seq<int>)
    ensures |ToSet(ids)| <= |ids|
  {
    if |ids| > 0 {
      ToSetNoLarger(ids[1..]);
      assert ToSet(ids) == ToSet(ids[1..]) + {ids[0]};
    }
  }

  /** The ids of a list are the first quote's id, which no later quote carries, and the ids of the rest. */
  lemma IdSetSplit(qs: seq<Quote>)
    requires |qs| > 0 && DistinctIds(qs)
    ensures IdSet(qs) == {qs[0].id} + IdSet(qs[1..])
    ensures qs[0].id !in IdSet(qs[1..])
  {
    var rest := qs[1..];
    assert qs == [qs[0]] + rest;
    forall q | q in rest
      ensures q.id != qs[0].id
    {
      var k :| 0 <= k < |rest| && rest[k] == q;
      assert rest[k] == qs[k + 1];
    }
  }

  /** The filter keeps the first quote iff its id is allowed, and filters the rest alike. */
  lemma FilterLengthStep(qs: seq<Quote>, excludeIds: seq<int>)
    requires |qs| > 0
    ensures |FilterExcluded(qs, excludeIds)|
            == (if qs[0].id in excludeIds then 0 else 1) + |FilterExcluded(qs[1..], excludeIds)|
  {
  }

  /** With distinct ids, the first quote adds its id to the excluded ones it carries iff that id is excluded. */
  lemma ExcludedIdsStep(qs: seq<Quote>, excludeIds: seq<int>)
    requires |qs| > 0 && DistinctIds(qs)
    ensures |IdSet(qs) * ToSet(excludeIds)|
            == (if qs[0].id in excludeIds then 1 else 0) + |IdSet(qs[1..]) * ToSet(excludeIds)|
  {
    IdSetSplit(qs);
    var s := ToSet(excludeIds);
    var id := qs[0].id;
    if id in excludeIds {
      assert IdSet(qs) * s == (IdSet(qs[1..]) * s) + {id};
    } else {
      assert IdSet(qs) * s == IdSet(qs[1..]) * s;
    }
  }

  /** With distinct ids, the filter removes exactly one quote per excluded id that the list carries. */
  lemma {:induction false} FilterRemovesOnePerExcludedId(qs: seq<Quote>, excludeIds: seq<int>)
    requires DistinctIds(qs)
    ensures |qs| - |FilterExcluded(qs, excludeIds)| == |IdSet(qs) * ToSet(excludeIds)|
  {
    if |qs| == 0 {
      assert IdSet(qs) == {};
    } else {
      DistinctIdsTail(qs);
      FilterRemovesOnePerExcludedId(qs[1..], excludeIds);
      FilterLengthStep(qs, excludeIds);
      ExcludedIdsStep(qs, excludeIds);
    }
  }

  /** With distinct ids, excluding a list of ids removes at most as many quotes as the list is long. */
  lemma FilterKeepsAllButExcluded(qs: seq<Quote>, excludeIds: seq<int>)
    requires DistinctIds(qs)
    ensures |FilterExcluded(qs, excludeIds)| >= |qs| - |excludeIds|
  {
    FilterRemovesOnePerExcludedId(qs, excludeIds);
    ToSetNoLarger(excludeIds);
    var both := IdSet(qs) * ToSet(excludeIds);
    assert both <= ToSet(excludeIds);
    SubsetNoLarger(both, ToSet(excludeIds));
  }

  /** A subset is no larger than its superset. */
  lemma SubsetNoLarger(a: set<int>, b: set<int>)
    requires a <= b
    ensures |a| <= |b|
  {
    assert b == a + (b - a);
  }

  /**
    The use the exclusion list is made for: a caller that passes the ids it
    was just shown gets entirely new quotes next time, provided the category
    has distinct ids and at least twice as many quotes as requested.
   */
  lemma ConsecutiveSelectionsDoNotRepeat(catalog: Catalog, category: string, count: int,
                                         earlierExcludeIds: seq<int>, draws1: seq<real>, draws2: seq<real>)
    requires ValidDraws(draws1) && ValidDraws(draws2)
    requires |CategoryQuotes(catalog, category)| <= |draws1| + 1
    requires |CategoryQuotes(catalog, category)| <= |draws2| + 1
    requires category in catalog && DistinctIds(catalog[category])
    requires count >= 1 && |catalog[category]| >= 2 * count
    ensures var first := GetQuotesByCategory(catalog, category, count, earlierExcludeIds, draws1);
            && first.Success?
            && var second := GetQuotesByCategory(catalog, category, count, Ids(first.quotes), draws2);
               && second.Success?
               && |second.quotes| == count
               && AvoidsIds(second.quotes, Ids(first.quotes))
  {
    var first := GetQuotesByCategory(catalog, category, count, earlierExcludeIds, draws1);
    var shown := Ids(first.quotes);
    FilterKeepsAllButExcluded(catalog[category], shown);
  }
}
