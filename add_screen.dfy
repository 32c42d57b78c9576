/** Creating an article (src/components/AddScreen.tsx): the guards of
    `handleSubmit`, the record it builds, the store call it makes once
    every guard passes, and the profit preview. */
module AddScreen {
  import opened Wrappers
  import opened Articles
  import opened Strings
  import opened Storage

  /** A price field: its raw text and what `parseFloat` makes of it
      (`None` for NaN). */
  datatype PriceInput = PriceInput(text: string, parsed: Option<Money>)

  /** The form's fields as typed. */
  datatype AddForm = AddForm(
    title: string,
    brand: string,
    size: string,
    description: string,
    purchasePrice: PriceInput,
    salePrice: PriceInput)

  /** The three alerts that end `handleSubmit` early. */
  datatype SubmitError = MissingRequiredField | InvalidSalePrice | InvalidPurchasePrice

  /** A text field holds nothing but whitespace. */
  predicate Blank(s: string) {
    forall i :: 0 <= i < |s| ==> IsTrimmable(s[i])
  }

  /** First guard: a required field is empty after trimming. */
  predicate MissingRequiredText(form: AddForm) {
    Trim(form.title) == [] || Trim(form.brand) == [] || Trim(form.size) == []
    || Trim(form.salePrice.text) == []
  }

  /** Second guard: the sale price is NaN or not positive. */
  predicate BadSalePrice(form: AddForm) {
    form.salePrice.parsed.None? || form.salePrice.parsed.value <= 0.0
  }

  /** `purchasePrice ? parseFloat(purchasePrice) : undefined` */
  function PurchasePriceNum(form: AddForm): Option<Money> {
    if form.purchasePrice.text != [] then form.purchasePrice.parsed else None
  }

  /** Third guard: a purchase price was typed and is NaN or negative. */
  predicate BadPurchasePrice(form: AddForm) {
    form.purchasePrice.text != [] && (PurchasePriceNum(form).None? || PurchasePriceNum(form).value < 0.0)
  }

  /** The object literal `handleSubmit` passes to `addArticle`. */
  function NewArticle(form: AddForm, salePriceNum: Money, now: Timestamp, entryId: Id): Draft {
    Draft(Trim(form.title), Trim(form.brand), Trim(form.size), Trim(form.description),
          PurchasePriceNum(form), salePriceNum, now, false, None,
          [PriceHistory(entryId, salePriceNum, now, Initial)])
  }

  /** The guards and the record of `handleSubmit`, with the clock reading
      and the history entry's id passed in. */
  function HandleSubmit(form: AddForm, now: Timestamp, entryId: Id): (r: Result<Draft, SubmitError>)
    ensures r.Ok? ==> && form.salePrice.parsed == Some(r.value.salePrice) && r.value.salePrice > 0.0
                      && !r.value.sold && r.value.createdAt == now
                      && r.value.priceHistory == [PriceHistory(entryId, r.value.salePrice, now, Initial)]
  {
    if MissingRequiredText(form) then Err(MissingRequiredField)
    else if BadSalePrice(form) then Err(InvalidSalePrice)
    else if BadPurchasePrice(form) then Err(InvalidPurchasePrice)
    else Ok(NewArticle(form, form.salePrice.parsed.value, now, entryId))
  }

  /** Which guard rejects a form, stated on the raw fields: a required field
      that is blank, then a sale price that is NaN or not positive, then a
      non-empty purchase price that is NaN or negative; any other form is
      accepted. */
  lemma SubmitOutcomes(form: AddForm, now: Timestamp, entryId: Id)
    ensures var missing := Blank(form.title) || Blank(form.brand) || Blank(form.size) || Blank(form.salePrice.text);
      var badSale := form.salePrice.parsed.None? || form.salePrice.parsed.value <= 0.0;
      var badPurchase := form.purchasePrice.text != []
                         && (form.purchasePrice.parsed.None? || form.purchasePrice.parsed.value < 0.0);
      var r := HandleSubmit(form, now, entryId);
      && (r == Err(MissingRequiredField) <==> missing)
      && (r == Err(InvalidSalePrice) <==> !missing && badSale)
      && (r == Err(InvalidPurchasePrice) <==> !missing && !badSale && badPurchase)
      && (r.Ok? <==> !missing && !badSale && !badPurchase)
  {
    TrimEmptyIff(form.title);
    TrimEmptyIff(form.brand);
    TrimEmptyIff(form.size);
    TrimEmptyIff(form.salePrice.text);
  }

  /** An accepted form yields an unsold record with trimmed text fields, the
      parsed prices (an empty purchase price becomes absent, 0 is kept), and
      a history of exactly one `initial` entry at the sale price. */
  lemma AcceptedRecord(form: AddForm, now: Timestamp, entryId: Id, id: Id)
    ensures HandleSubmit(form, now, entryId).Ok? ==>
      var d := HandleSubmit(form, now, entryId).value;
      && !d.sold && d.soldDate == None && d.createdAt == now
      && d.title == Trim(form.title) && d.brand == Trim(form.brand)
      && d.size == Trim(form.size) && d.description == Trim(form.description)
      && d.title != [] && d.brand != [] && d.size != []
      && !IsTrimmable(d.title[0]) && !IsTrimmable(d.title[|d.title| - 1])
      && !IsTrimmable(d.brand[0]) && !IsTrimmable(d.brand[|d.brand| - 1])
      && !IsTrimmable(d.size[0]) && !IsTrimmable(d.size[|d.size| - 1])
      && Some(d.salePrice) == form.salePrice.parsed && d.salePrice > 0.0
      && (form.purchasePrice.text == [] ==> d.purchasePrice == None)
      && (form.purchasePrice.text != [] ==> d.purchasePrice == form.purchasePrice.parsed)
      && (d.purchasePrice.Some? ==> d.purchasePrice.value >= 0.0)
      && |d.priceHistory| == 1
      && d.priceHistory[0] == PriceHistory(entryId, d.salePrice, now, Initial)
      && WellFormed(d.WithId(id))
  {
  }

  /** `handleSubmit`: `addArticle` is reached only when every guard passes,
      and a rejected form leaves the store untouched. */
  method Submit(store: ArticleStore, form: AddForm, now: Timestamp, entryId: Id, articleId: Id)
    returns (r: Result<Draft, SubmitError>)
    modifies store
    ensures r == HandleSubmit(form, now, entryId)
    ensures r.Err? ==> store.saved == old(store.saved) && store.writes == old(store.writes)
    ensures r.Ok? ==> store.saved == Some(old(store.Articles()) + [r.value.WithId(articleId)])
                      && store.writes == old(store.writes) + 1
  {
    r := HandleSubmit(form, now, entryId);
    if r.Ok? {
      store.AddArticle(r.value, articleId);
    }
  }

  /** What the potential-profit line shows. */
  datatype Preview = Hidden | NotANumber | Profit(amount: Money)

  /** `purchasePrice && salePrice ? parseFloat(salePrice) - parseFloat(purchasePrice) : null` */
  function ProfitPreview(form: AddForm): (r: Preview)
    ensures r == Hidden <==> form.purchasePrice.text == [] || form.salePrice.text == []
    ensures r.Profit? ==> form.salePrice.parsed.Some? && form.purchasePrice.parsed.Some?
                          && r.amount == form.salePrice.parsed.value - form.purchasePrice.parsed.value
    ensures (form.purchasePrice.text != [] && form.salePrice.text != []
             && form.salePrice.parsed.Some? && form.purchasePrice.parsed.Some?) ==> r.Profit?
  {
    if form.purchasePrice.text == [] || form.salePrice.text == [] then Hidden
    else if form.salePrice.parsed.None? || form.purchasePrice.parsed.None? then NotANumber
    else Profit(form.salePrice.parsed.value - form.purchasePrice.parsed.value)
  }

  /** For an accepted form the preview is the profit of the record it
      creates when a purchase price is known, and hidden otherwise. */
  lemma PreviewMatchesRecord(form: AddForm, now: Timestamp, entryId: Id)
    ensures HandleSubmit(form, now, entryId).Ok? ==>
      var d := HandleSubmit(form, now, entryId).value;
      && (d.purchasePrice.Some? ==> ProfitPreview(form) == Profit(d.salePrice - d.purchasePrice.value))
      && (d.purchasePrice.None? ==> ProfitPreview(form) == Hidden)
  {
    if HandleSubmit(form, now, entryId).Ok? {
      assert form.salePrice.text != [] by { assert Trim([]) == []; }
    }
  }
}
