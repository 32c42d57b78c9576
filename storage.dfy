/** The article ledger over the durable record store (src/utils/storage.ts
    with localStorage, utils/storage.ts with AsyncStorage; the two files
    run the same logic under different keys). Every operation loads the
    whole collection, changes its own copy and writes the whole
    collection back. The functions below give the net effect of each
    operation on the collection; the class performs the operations step
    by step against the store. */
module Storage {
  import opened Wrappers
  import opened Articles
  import opened Sequences

  /** Position `i` holds the first article with this id (`findIndex`). */
  predicate FirstMatch(s: seq<Article>, id: Id, i: int) {
    0 <= i < |s| && s[i].id == id && forall j :: 0 <= j < i ==> s[j].id != id
  }

  /** No article has this id (`findIndex` returns -1). */
  predicate NoMatch(s: seq<Article>, id: Id) {
    forall j :: 0 <= j < |s| ==> s[j].id != id
  }

  /** `articles.findIndex(article => article.id === id)`, with `None` for -1. */
  function IndexOf(s: seq<Article>, id: Id): (r: Option<nat>)
    ensures r.None? <==> NoMatch(s, id)
    ensures r.Some? ==> FirstMatch(s, id, r.value)
  {
    if s == [] then None
    else if s[0].id == id then Some(0)
    else match IndexOf(s[1..], id)
      case None => None
      case Some(i) => Some(i + 1)
  }

  predicate IsSold(a: Article) { a.sold }

  predicate IsUnsold(a: Article) { !a.sold }

  /** `articles.filter(article => article.sold)` */
  function SoldArticles(s: seq<Article>): seq<Article> {
    Filter(s, IsSold)
  }

  /** Net effect of `updateArticle(updated)`. */
  function Updated(s: seq<Article>, updated: Article): seq<Article> {
    match IndexOf(s, updated.id)
    case None => s
    case Some(i) => s[i := updated]
  }

  /** Net effect of `deleteArticle(id)`: `articles.filter(article => article.id !== id)`. */
  function WithoutId(s: seq<Article>, id: Id): seq<Article> {
    Filter(s, (a: Article) => a.id != id)
  }

  /** Net effect of `addPriceHistory(id, …)` with the entry it builds. */
  function HistoryAppended(s: seq<Article>, id: Id, entry: PriceHistory): seq<Article> {
    match IndexOf(s, id)
    case None => s
    case Some(i) => s[i := s[i].(priceHistory := s[i].priceHistory + [entry])]
  }

  /** Net effect of `updateArticlePrice(id, price)` as written: only the
      sale price of the first match changes. */
  function Repriced(s: seq<Article>, id: Id, price: Money): seq<Article> {
    match IndexOf(s, id)
    case None => s
    case Some(i) => s[i := s[i].(salePrice := price)]
  }

  /** The stored collection, as a mutable object over the record store. */
  class ArticleStore {
    /** The collection under the articles key; `None` when never written. */
    var saved: Option<seq<Article>>
    /** How many times the collection has been written (`setItem` calls). */
    var writes: nat

    constructor ()
      ensures saved == None && writes == 0
    {
      saved := None;
      writes := 0;
    }

    /** What a read of the store yields. */
    function Articles(): seq<Article>
      reads this
    {
      saved.GetOr([])
    }

    /** `getArticles()`: the stored collection, or `[]` when nothing is stored. */
    method GetArticles() returns (articles: seq<Article>)
      ensures saved == None ==> articles == []
      ensures saved.Some? ==> articles == saved.value
    {
      if saved.Some? {
        articles := saved.value;
      } else {
        articles := [];
      }
    }

    /** `setItem(ARTICLES_KEY, JSON.stringify(articles))` */
    method Save(articles: seq<Article>)
      modifies this
      ensures saved == Some(articles) && writes == old(writes) + 1
    {
      saved := Some(articles);
      writes := writes + 1;
    }

    /** `getSoldArticles()`: the sold articles, in stored order. */
    method GetSoldArticles() returns (sold: seq<Article>)
      ensures sold == SoldArticles(Articles())
      ensures forall a :: a in sold <==> a in Articles() && a.sold
      ensures IsSubsequence(sold, Articles())
    {
      var articles := GetArticles();
      sold := Filter(articles, IsSold);
      FilterIsSubsequence(articles, IsSold);
    }

    /** `addArticle(article)` with the generated id passed in. */
    method AddArticle(article: Draft, id: Id)
      modifies this
      ensures saved == Some(old(Articles()) + [article.WithId(id)])
      ensures writes == old(writes) + 1
    {
      var articles := GetArticles();
      var newArticle := article.WithId(id);
      articles := articles + [newArticle];
      Save(articles);
    }

    /** `updateArticle(updated)`: no write when the id is absent. */
    method UpdateArticle(updated: Article)
      modifies this
      ensures IndexOf(old(Articles()), updated.id).None? ==> saved == old(saved) && writes == old(writes)
      ensures IndexOf(old(Articles()), updated.id).Some? ==>
                saved == Some(Updated(old(Articles()), updated)) && writes == old(writes) + 1
    {
      var articles := GetArticles();
      var index := IndexOf(articles, updated.id);
      if index.Some? {
        articles := articles[index.value := updated];
        Save(articles);
      }
    }

    /** `deleteArticle(id)`: always writes the filtered collection. */
    method DeleteArticle(id: Id)
      modifies this
      ensures saved == Some(WithoutId(old(Articles()), id))
      ensures writes == old(writes) + 1
    {
      var articles := GetArticles();
      var filteredArticles := WithoutId(articles, id);
      Save(filteredArticles);
    }

    /** `addPriceHistory(id, price, kind)` with the entry id and the clock
        reading passed in: no write when the id is absent. */
    method AddPriceHistory(articleId: Id, price: Money, kind: HistoryKind, entryId: Id, now: Timestamp)
      modifies this
      ensures IndexOf(old(Articles()), articleId).None? ==> saved == old(saved) && writes == old(writes)
      ensures IndexOf(old(Articles()), articleId).Some? ==>
                saved == Some(HistoryAppended(old(Articles()), articleId, PriceHistory(entryId, price, now, kind)))
                && writes == old(writes) + 1
    {
      var articles := GetArticles();
      var articleIndex := IndexOf(articles, articleId);
      if articleIndex.Some? {
        var i := articleIndex.value;
        var newPriceEntry := PriceHistory(entryId, price, now, kind);
        articles := articles[i := articles[i].(priceHistory := articles[i].priceHistory + [newPriceEntry])];
        Save(articles);
      }
    }

    /** `updateArticlePrice(id, price)` as written: it changes the price in
        its own copy, lets `addPriceHistory` write the `update` entry, and
        then writes its own copy, which predates that entry. */
    method UpdateArticlePrice(articleId: Id, newPrice: Money, entryId: Id, now: Timestamp)
      modifies this
      ensures IndexOf(old(Articles()), articleId).None? ==> saved == old(saved) && writes == old(writes)
      ensures IndexOf(old(Articles()), articleId).Some? ==>
                saved == Some(Repriced(old(Articles()), articleId, newPrice)) && writes == old(writes) + 2
    {
      var articles := GetArticles();
      var articleIndex := IndexOf(articles, articleId);
      if articleIndex.Some? {
        var i := articleIndex.value;
        articles := articles[i := articles[i].(salePrice := newPrice)];
        AddPriceHistory(articleId, newPrice, Update, entryId, now);
        Save(articles);
      }
    }

    /** `updateArticlePrice` with its last two steps in the order the
        function's name promises: the repriced copy is written first and
        the `update` entry is appended to it. */
    method UpdateArticlePriceCorrected(articleId: Id, newPrice: Money, entryId: Id, now: Timestamp)
      modifies this
      ensures IndexOf(old(Articles()), articleId).None? ==> saved == old(saved) && writes == old(writes)
      ensures IndexOf(old(Articles()), articleId).Some? ==>
                saved == Some(HistoryAppended(Repriced(old(Articles()), articleId, newPrice), articleId,
                                              PriceHistory(entryId, newPrice, now, Update)))
                && writes == old(writes) + 2
    {
      var articles := GetArticles();
      var articleIndex := IndexOf(articles, articleId);
      if articleIndex.Some? {
        var i := articleIndex.value;
        articles := articles[i := articles[i].(salePrice := newPrice)];
        assert !NoMatch(articles, articleId) by { assert articles[i].id == articleId; }
        Save(articles);
        AddPriceHistory(articleId, newPrice, Update, entryId, now);
      }
    }
  }

  /** Reading an empty store yields no articles. */
  lemma NothingStoredLoadsEmpty(store: ArticleStore)
    requires store.saved == None
    ensures store.Articles() == []
  {
  }

  /** The sold list holds exactly the sold articles, in stored order, and
      together with the unsold list it accounts for every stored article once. */
  lemma SoldArticlesExact(s: seq<Article>)
    ensures forall a :: a in SoldArticles(s) <==> a in s && a.sold
    ensures IsSubsequence(SoldArticles(s), s)
    ensures multiset(SoldArticles(s)) + multiset(Filter(s, IsUnsold)) == multiset(s)
  {
    FilterIsSubsequence(s, IsSold);
    FilterPartition(s, IsSold, IsUnsold);
  }

  /** Adding appends one article carrying the draft's fields and the given id. */
  lemma AddedArticleAppended(s: seq<Article>, article: Draft, id: Id)
    ensures var r := s + [article.WithId(id)];
      && |r| == |s| + 1
      && r[..|s|] == s
      && r[|s|].id == id
      && r[|s|].title == article.title && r[|s|].brand == article.brand
      && r[|s|].size == article.size && r[|s|].description == article.description
      && r[|s|].purchasePrice == article.purchasePrice && r[|s|].salePrice == article.salePrice
      && r[|s|].createdAt == article.createdAt && r[|s|].sold == article.sold
      && r[|s|].soldDate == article.soldDate && r[|s|].priceHistory == article.priceHistory
  {
  }

  /** An update replaces the first article with the same id and nothing else. */
  lemma UpdatedReplacesFirstMatch(s: seq<Article>, updated: Article, i: int)
    requires FirstMatch(s, updated.id, i)
    ensures |Updated(s, updated)| == |s|
    ensures Updated(s, updated)[i] == updated
    ensures forall j :: 0 <= j < |s| && j != i ==> Updated(s, updated)[j] == s[j]
  {
  }

  /** An update for an absent id changes nothing. */
  lemma UpdatedAbsentUnchanged(s: seq<Article>, updated: Article)
    requires NoMatch(s, updated.id)
    ensures Updated(s, updated) == s
  {
  }

  /** Deleting removes every article with the id, keeps every other one in
      its order, does nothing for an absent id and is idempotent. */
  lemma WithoutIdRemovesAll(s: seq<Article>, id: Id)
    ensures NoMatch(WithoutId(s, id), id)
    ensures forall j :: 0 <= j < |s| && s[j].id != id ==> s[j] in WithoutId(s, id)
    ensures IsSubsequence(WithoutId(s, id), s)
    ensures multiset(WithoutId(s, id)) + multiset(Filter(s, (a: Article) => a.id == id)) == multiset(s)
    ensures NoMatch(s, id) ==> WithoutId(s, id) == s
    ensures WithoutId(WithoutId(s, id), id) == WithoutId(s, id)
  {
    var keep := (a: Article) => a.id != id;
    FilterPartition(s, keep, (a: Article) => a.id == id);
    FilterIsSubsequence(s, keep);
    FilterIdempotent(s, keep);
    if NoMatch(s, id) {
      FilterKeepsAll(s, keep);
    }
    var r := WithoutId(s, id);
    forall j | 0 <= j < |r| ensures r[j].id != id {
      assert r[j] in r;
    }
  }

  /** Appending a history entry extends the first match's history by exactly
      that entry and changes no other field and no other article. */
  lemma HistoryAppendedExtendsFirstMatch(s: seq<Article>, id: Id, entry: PriceHistory, i: int)
    requires FirstMatch(s, id, i)
    ensures var r := HistoryAppended(s, id, entry);
      && |r| == |s|
      && r[i].priceHistory == s[i].priceHistory + [entry]
      && r[i].(priceHistory := s[i].priceHistory) == s[i]
      && forall j :: 0 <= j < |s| && j != i ==> r[j] == s[j]
  {
  }

  /** Appending a history entry for an absent id changes nothing. */
  lemma HistoryAppendedAbsentUnchanged(s: seq<Article>, id: Id, entry: PriceHistory)
    requires NoMatch(s, id)
    ensures HistoryAppended(s, id, entry) == s
  {
  }

  /** The net effect of `updateArticlePrice` as written: the first match gets
      the new sale price, its history keeps its old length (the `update`
      entry is lost), and nothing else changes. */
  lemma RepricedLosesUpdateEntry(s: seq<Article>, id: Id, price: Money, i: int)
    requires FirstMatch(s, id, i)
    ensures var r := Repriced(s, id, price);
      && |r| == |s|
      && r[i].salePrice == price
      && r[i].priceHistory == s[i].priceHistory
      && |r[i].priceHistory| == |s[i].priceHistory|
      && r[i].(salePrice := s[i].salePrice) == s[i]
      && forall j :: 0 <= j < |s| && j != i ==> r[j] == s[j]
  {
  }

  /** The corrected order keeps the `update` entry: the history grows by one
      entry of kind `update` carrying the new price. */
  lemma CorrectedRepriceRecordsUpdate(s: seq<Article>, id: Id, price: Money, entry: PriceHistory, i: int)
    requires FirstMatch(s, id, i)
    requires entry.kind == Update && entry.price == price
    ensures var r := HistoryAppended(Repriced(s, id, price), id, entry);
      && |r| == |s|
      && r[i].salePrice == price
      && r[i].priceHistory == s[i].priceHistory + [entry]
      && r[i].priceHistory[|r[i].priceHistory| - 1].kind == Update
      && forall j :: 0 <= j < |s| && j != i ==> r[j] == s[j]
  {
    assert FirstMatch(Repriced(s, id, price), id, i);
  }

  /** A concrete ledger on which the as-written price update drops the
      `update` entry that the corrected order keeps. */
  lemma StaleWriteExample()
    ensures var h := [PriceHistory("h0", 25.0, 0, Initial)];
      var a := Article("a", "Robe", "Zara", "M", "", None, 25.0, 0, false, None, h);
      var e := PriceHistory("h1", 20.0, 5, Update);
      && Repriced([a], "a", 20.0)[0].priceHistory == h
      && HistoryAppended(Repriced([a], "a", 20.0), "a", e)[0].priceHistory == h + [e]
  {
  }

  /** Updates, history appends and price updates never change the number of
      stored articles. */
  lemma LengthPreserved(s: seq<Article>, updated: Article, id: Id, entry: PriceHistory, price: Money)
    ensures |Updated(s, updated)| == |s|
    ensures |HistoryAppended(s, id, entry)| == |s|
    ensures |Repriced(s, id, price)| == |s|
  {
  }

  /** Replacing one article by one with the same id keeps ids unique. */
  lemma ReplaceSameIdKeepsUnique(s: seq<Article>, i: int, a: Article)
    requires UniqueIds(s) && 0 <= i < |s| && a.id == s[i].id
    ensures UniqueIds(s[i := a])
  {
  }

  /** Filtering a collection with unique ids keeps them unique. */
  lemma {:induction false} FilterKeepsUnique(s: seq<Article>, keep: Article -> bool)
    requires UniqueIds(s)
    ensures UniqueIds(Filter(s, keep))
  {
    if s != [] {
      FilterKeepsUnique(s[1..], keep);
      var rest := Filter(s[1..], keep);
      if keep(s[0]) {
        forall j | 0 <= j < |rest| ensures rest[j].id != s[0].id {
          assert rest[j] in s[1..];
        }
        assert Filter(s, keep) == [s[0]] + rest;
      }
    }
  }

  /** Every operation keeps the ids of the stored articles unique, provided
      an added article gets an id not yet in use. */
  lemma OperationsKeepIdsUnique(s: seq<Article>, article: Draft, newId: Id, updated: Article,
                                id: Id, entry: PriceHistory, price: Money)
    requires UniqueIds(s)
    ensures NoMatch(s, newId) ==> UniqueIds(s + [article.WithId(newId)])
    ensures UniqueIds(Updated(s, updated))
    ensures UniqueIds(WithoutId(s, id))
    ensures UniqueIds(HistoryAppended(s, id, entry))
    ensures UniqueIds(Repriced(s, id, price))
  {
    FilterKeepsUnique(s, (a: Article) => a.id != id);
    var u := IndexOf(s, updated.id);
    if u.Some? { ReplaceSameIdKeepsUnique(s, u.value, updated); }
    var h := IndexOf(s, id);
    if h.Some? {
      ReplaceSameIdKeepsUnique(s, h.value, s[h.value].(priceHistory := s[h.value].priceHistory + [entry]));
      ReplaceSameIdKeepsUnique(s, h.value, s[h.value].(salePrice := price));
    }
  }

  /** Every operation keeps the stored records well-formed, provided the
      records it is given are: a history append only lengthens a non-empty
      history, deletion only drops records, and a price update keeps a
      positive price. */
  lemma OperationsKeepWellFormed(s: seq<Article>, added: Article, updated: Article,
                                 id: Id, entry: PriceHistory, price: Money)
    requires AllWellFormed(s)
    ensures WellFormed(added) ==> AllWellFormed(s + [added])
    ensures WellFormed(updated) ==> AllWellFormed(Updated(s, updated))
    ensures AllWellFormed(WithoutId(s, id))
    ensures AllWellFormed(HistoryAppended(s, id, entry))
    ensures price > 0.0 ==> AllWellFormed(Repriced(s, id, price))
  {
    var r := WithoutId(s, id);
    forall j | 0 <= j < |r| ensures WellFormed(r[j]) {
      assert r[j] in r;
    }
    var h := IndexOf(s, id);
    if h.Some? {
      var i := h.value;
      assert (s[i].priceHistory + [entry])[0] == s[i].priceHistory[0];
    }
  }
}
