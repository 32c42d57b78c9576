/** The records of the ledger: one `Article` per resale item, each with
    its chronological list of `PriceHistory` events
    (src/types/article.ts). Prices are JavaScript numbers, modelled as
    reals; ISO timestamps are modelled as integers ordered like instants;
    ids are opaque strings supplied by the caller. */
module Articles {
  import opened Wrappers

  type Money = real
  type Timestamp = int
  type Id = string

  /** The `type` tag of a price-history entry. */
  datatype HistoryKind = Initial | Update | Sale

  datatype PriceHistory = PriceHistory(id: Id, price: Money, date: Timestamp, kind: HistoryKind)

  datatype Article = Article(
    id: Id,
    title: string,
    brand: string,
    size: string,
    description: string,
    purchasePrice: Option<Money>,
    salePrice: Money,
    createdAt: Timestamp,
    sold: bool,
    soldDate: Option<Timestamp>,
    priceHistory: seq<PriceHistory>)

  /** `Omit<Article, 'id'>`: everything the add screen builds before the
      store assigns the id. */
  datatype Draft = Draft(
    title: string,
    brand: string,
    size: string,
    description: string,
    purchasePrice: Option<Money>,
    salePrice: Money,
    createdAt: Timestamp,
    sold: bool,
    soldDate: Option<Timestamp>,
    priceHistory: seq<PriceHistory>)
  {
    /** `{ ...article, id }` */
    function WithId(id: Id): Article {
      Article(id, title, brand, size, description, purchasePrice, salePrice,
              createdAt, sold, soldDate, priceHistory)
    }
  }

  /** The record invariants the application relies on: the history starts
      with the `initial` entry, a sale date is present exactly for sold
      articles, the sale price is positive and a known purchase price is
      not negative. */
  predicate WellFormed(a: Article) {
    && |a.priceHistory| >= 1
    && a.priceHistory[0].kind == Initial
    && (a.sold <==> a.soldDate.Some?)
    && a.salePrice > 0.0
    && (a.purchasePrice.Some? ==> a.purchasePrice.value >= 0.0)
  }

  /** Every stored article is well-formed. */
  predicate AllWellFormed(s: seq<Article>) {
    forall i :: 0 <= i < |s| ==> WellFormed(s[i])
  }

  /** No two stored articles share an id. */
  predicate UniqueIds(s: seq<Article>) {
    forall i, j :: 0 <= i < j < |s| ==> s[i].id != s[j].id
  }
}
