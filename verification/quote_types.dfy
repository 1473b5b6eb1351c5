/**
  The records shared by the quote selector and its callers: a quote, the
  response of a selection, and the catalog that groups quotes by category.
 */
module QuoteTypes {

  /** One curated quote. Ids are whole numbers in the data set. */
  datatype Quote = Quote(id: int, text: string, author: string, category: string)

  /** The outcome of a selection: either the chosen quotes or a readable reason. */
  datatype QuoteResponse = Success(quotes: seq<Quote>) | Failure(error: string)

  /** Category name to the ordered list of quotes in that category. */
  type Catalog = map<string, seq<Quote>>

  /** No two positions of `qs` carry the same quote id. */
  ghost predicate DistinctIds(qs: seq<Quote>) {
    forall i, j :: 0 <= i < j < |qs| ==> qs[i].id != qs[j].id
  }

  /** No quote of `qs` has an id listed in `ids`. */
  ghost predicate AvoidsIds(qs: seq<Quote>, ids: seq<int>) {
    forall i :: 0 <= i < |qs| ==> qs[i].id !in ids
  }
}
