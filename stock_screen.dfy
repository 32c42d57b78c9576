/** The stock screen (src/components/StockScreen.tsx): the list of unsold
    articles, the search over it, and marking an article sold. */
module StockScreen {
  import opened Wrappers
  import opened Articles
  import opened Sequences
  import opened Strings
  import opened Storage
  import AddScreen

  /** `data.filter(article => !article.sold)` */
  function StockList(s: seq<Article>): seq<Article> {
    Filter(s, IsUnsold)
  }

  /** `loadArticles()`: the unsold articles, in stored order. */
  method LoadArticles(store: ArticleStore) returns (stock: seq<Article>)
    ensures stock == StockList(store.Articles())
    ensures forall a :: a in stock <==> a in store.Articles() && !a.sold
    ensures IsSubsequence(stock, store.Articles())
  {
    var data := store.GetArticles();
    stock := Filter(data, IsUnsold);
    FilterIsSubsequence(data, IsUnsold);
  }

  /** The stock list and the sold list split the collection: every stored
      article is in exactly one of them. */
  lemma StockAndSoldPartition(s: seq<Article>)
    ensures |StockList(s)| + |SoldArticles(s)| == |s|
    ensures multiset(StockList(s)) + multiset(SoldArticles(s)) == multiset(s)
    ensures forall a :: a in s ==> (a in StockList(s) <==> a !in SoldArticles(s))
  {
    FilterPartition(s, IsUnsold, IsSold);
  }

  /** The search predicate: the lower-cased query occurs in the lower-cased
      title or brand. */
  predicate MatchesQuery(a: Article, query: string) {
    Contains(Lower(a.title), Lower(query)) || Contains(Lower(a.brand), Lower(query))
  }

  /** `filteredArticles` */
  function FilteredArticles(stock: seq<Article>, query: string): (r: seq<Article>)
    ensures |r| <= |stock|
    ensures forall a :: a in r ==> a in stock && MatchesQuery(a, query)
  {
    Filter(stock, (a: Article) => MatchesQuery(a, query))
  }

  /** An article of the stock list is shown exactly when the query, lower-cased,
      occurs somewhere in its lower-cased title or brand; the result keeps the
      order of the stock list. */
  lemma SearchKeepsExactlyMatches(stock: seq<Article>, query: string)
    ensures forall a :: a in FilteredArticles(stock, query) <==>
      a in stock && ((exists i :: OccursAt(Lower(a.title), Lower(query), i))
                     || (exists i :: OccursAt(Lower(a.brand), Lower(query), i)))
    ensures IsSubsequence(FilteredArticles(stock, query), stock)
    ensures multiset(FilteredArticles(stock, query)) + multiset(Filter(stock, (a: Article) => !MatchesQuery(a, query)))
            == multiset(stock)
  {
    FilterPartition(stock, (a: Article) => MatchesQuery(a, query), (a: Article) => !MatchesQuery(a, query));
    forall a: Article
      ensures MatchesQuery(a, query) <==>
        (exists i :: OccursAt(Lower(a.title), Lower(query), i))
        || (exists i :: OccursAt(Lower(a.brand), Lower(query), i))
    {
      ContainsIff(Lower(a.title), Lower(query));
      ContainsIff(Lower(a.brand), Lower(query));
    }
    FilterIsSubsequence(stock, (a: Article) => MatchesQuery(a, query));
  }

  /** An empty query shows the whole stock list. */
  lemma EmptyQueryKeepsAll(stock: seq<Article>)
    ensures FilteredArticles(stock, []) == stock
  {
    forall i | 0 <= i < |stock| ensures MatchesQuery(stock[i], []) {
      ContainsEmpty(Lower(stock[i].title));
    }
    FilterKeepsAll(stock, (a: Article) => MatchesQuery(a, []));
  }

  /** The search does not depend on the case of ASCII letters in the query. */
  lemma SearchIgnoresQueryCase(stock: seq<Article>, query: string)
    ensures FilteredArticles(stock, Lower(query)) == FilteredArticles(stock, query)
  {
    LowerIdempotent(query);
    FilterAgreeing(stock, (a: Article) => MatchesQuery(a, Lower(query)), (a: Article) => MatchesQuery(a, query));
  }

  /** How `confirmSale` ends. */
  datatype SaleOutcome = Ignored | Rejected | Confirmed

  /** The record `confirmSale` hands to `updateArticle`. */
  function SoldRecord(selected: Article, finalSalePrice: Money, now: Timestamp): Article {
    selected.(sold := true, salePrice := finalSalePrice, soldDate := Some(now))
  }

  /** The collection after a confirmed sale: the update, then the `sale` entry. */
  function AfterSale(s: seq<Article>, selected: Article, finalSalePrice: Money, now: Timestamp, entryId: Id)
    : seq<Article>
  {
    HistoryAppended(Updated(s, SoldRecord(selected, finalSalePrice, now)), selected.id,
                    PriceHistory(entryId, finalSalePrice, now, Sale))
  }

  /** `confirmSale()` with the clock reading and the history entry's id
      passed in. */
  method ConfirmSale(store: ArticleStore, selected: Option<Article>, input: AddScreen.PriceInput,
                     now: Timestamp, entryId: Id)
    returns (outcome: SaleOutcome)
    modifies store
    ensures outcome == Ignored <==> selected.None? || input.text == []
    ensures outcome == Rejected <==>
              selected.Some? && input.text != [] && (input.parsed.None? || input.parsed.value <= 0.0)
    ensures outcome != Confirmed ==> store.saved == old(store.saved) && store.writes == old(store.writes)
    ensures outcome == Confirmed && NoMatch(old(store.Articles()), selected.value.id) ==>
              store.saved == old(store.saved) && store.writes == old(store.writes)
    ensures outcome == Confirmed && !NoMatch(old(store.Articles()), selected.value.id) ==>
              store.saved == Some(AfterSale(old(store.Articles()), selected.value, input.parsed.value, now, entryId))
              && store.writes == old(store.writes) + 2
  {
    if selected.None? || input.text == [] {
      return Ignored;
    }
    if input.parsed.None? || input.parsed.value <= 0.0 {
      return Rejected;
    }
    var finalSalePrice := input.parsed.value;
    var updatedArticle := SoldRecord(selected.value, finalSalePrice, now);
    store.UpdateArticle(updatedArticle);
    if !NoMatch(old(store.Articles()), selected.value.id) {
      var i := IndexOf(old(store.Articles()), selected.value.id).value;
      assert store.Articles()[i].id == selected.value.id;
    }
    store.AddPriceHistory(selected.value.id, finalSalePrice, Sale, entryId, now);
    outcome := Confirmed;
  }

  /** After a sale the first article with the selected id is the selected
      record marked sold at the final price and time, with every other field
      as selected and its history ending in a `sale` entry at that price;
      the other articles are untouched. */
  lemma AfterSaleRecord(s: seq<Article>, selected: Article, price: Money, now: Timestamp, entryId: Id, i: int)
    requires FirstMatch(s, selected.id, i)
    ensures var r := AfterSale(s, selected, price, now, entryId);
      && |r| == |s|
      && r[i].sold && r[i].salePrice == price && r[i].soldDate == Some(now)
      && r[i].id == selected.id && r[i].title == selected.title && r[i].brand == selected.brand
      && r[i].size == selected.size && r[i].description == selected.description
      && r[i].createdAt == selected.createdAt && r[i].purchasePrice == selected.purchasePrice
      && r[i].priceHistory == selected.priceHistory + [PriceHistory(entryId, price, now, Sale)]
      && forall j :: 0 <= j < |s| && j != i ==> r[j] == s[j]
  {
    var u := Updated(s, SoldRecord(selected, price, now));
    assert FirstMatch(u, selected.id, i);
  }

  /** With unique ids, a sold article is gone from the reloaded stock list. */
  lemma SoldLeavesStock(s: seq<Article>, selected: Article, price: Money, now: Timestamp, entryId: Id)
    requires UniqueIds(s) && !NoMatch(s, selected.id)
    ensures forall a :: a in StockList(AfterSale(s, selected, price, now, entryId)) ==> a.id != selected.id
  {
    var i := IndexOf(s, selected.id).value;
    AfterSaleRecord(s, selected, price, now, entryId, i);
    var r := AfterSale(s, selected, price, now, entryId);
    forall a | a in StockList(r) ensures a.id != selected.id {
      var j :| 0 <= j < |r| && r[j] == a;
      if j != i { assert r[j] == s[j]; }
    }
  }

  /** A sale keeps a well-formed record well-formed: marked sold with a sale
      date, its history still starting with the `initial` entry. */
  lemma SoldRecordWellFormed(selected: Article, price: Money, now: Timestamp, entryId: Id)
    requires WellFormed(selected) && price > 0.0
    ensures WellFormed(SoldRecord(selected, price, now).(priceHistory :=
                         selected.priceHistory + [PriceHistory(entryId, price, now, Sale)]))
  {
  }
}
