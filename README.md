# Resale ledger model

A Dafny model of the article ledger of a small resale tracker. The user records items held for resale.
Each item is an *article* with a purchase price, an asking or final sale price and a price history.
The user marks articles sold and reads revenue and profit figures over time windows.

The model covers four areas:

- **The ledger store** (`storage.dfy`, module `Storage`). This is `src/utils/storage.ts`.
  `utils/storage.ts` runs the same logic over AsyncStorage under another key.
  - `ArticleStore` is a class whose field `saved` holds the collection under the articles key. `None` means nothing was ever written.
  - A second field, `writes`, counts the writes, so "nothing is written" can be stated.
  - Each method loads the whole collection, changes its copy and writes it back, as the source does. `UpdateArticlePrice` calls `AddPriceHistory` between its read and its write.
  - The net effect of each operation is also given as a function on `seq<Article>` (`Updated`, `WithoutId`, `HistoryAppended`, `Repriced`). The methods are proved against these functions, and the lemmas state the properties of the functions.
  - In the table, the methods, `IndexOf` and the lemmas about the stale write or about all operations at once cite `src/utils/storage.ts`. The other lemmas cite `utils/storage.ts`. Line numbers in the second file are one higher.
- **The analytics report** (`analytics.dfy`). `CalculateAnalytics` is the single accumulator loop of the screen. It is proved equal to the recursive sums of `ReportOf`. Lemmas cover window disjointness and bounds, the average and the growth figure.
- **Article creation** (`add_screen.dfy`). This is the guard chain of `handleSubmit`, the record it builds, the store call made only after every guard passes, and the profit preview.
- **The stock screen** (`stock_screen.dfy`). This is the unsold list, the case-insensitive search and `confirmSale`. `confirmSale` takes two store steps: `updateArticle`, then `addPriceHistory`.

Supporting modules:

- `articles.dfy` mirrors `src/types/article.ts`. `Option` stands for the optional fields, and the history's `type` tag is `HistoryKind`.
- `strings.dfy` holds the JavaScript `trim`, an ASCII `toLowerCase` and `includes`.
- `sequences.dfy` holds `filter` and a subsequence relation.
- `wrappers.dfy` holds `Option` and `Result`.

Modelling choices:

- Prices are `real`.
- Timestamps are `int`.
- Each price input is its raw text plus the value `parseFloat` gives (`None` for NaN). Some guards test the raw text, others test the parsed value.
- The clock, generated ids and the four calendar boundaries of the analytics screen are parameters.

Where the documented design of the application and its code differ, the model follows the code:

- A sale of an id that is not stored, and a price update on an unknown id, do nothing. No NotFound error is raised.
- Marking an already sold article sold again is not refused.
- A price update does not keep its `update` history entry (see Findings).
- The history entry of a new article takes its own clock reading. The model takes the same instant for both.

## Model

| member | source | states |
|---|---|---|
| Storage.IndexOf | src/utils/storage.ts:38 | `findIndex` by id: absent exactly when no stored article has the id; otherwise the first position holding it |
| Storage.ArticleStore.GetArticles | src/utils/storage.ts:5-13 | yields `[]` when nothing is stored and the stored collection otherwise |
| Storage.ArticleStore.GetSoldArticles | src/utils/storage.ts:15-18 | yields exactly the stored articles with `sold` set, as a subsequence in stored order |
| Storage.ArticleStore.AddArticle | src/utils/storage.ts:20-33 | writes once; the stored collection becomes the old one plus the draft with the given id at the end |
| Storage.ArticleStore.UpdateArticle | src/utils/storage.ts:35-47 | no write when the id is absent; otherwise one write of the collection with the first match replaced |
| Storage.ArticleStore.DeleteArticle | src/utils/storage.ts:49-58 | always writes once; the stored collection becomes the old one without the articles of that id |
| Storage.ArticleStore.AddPriceHistory | src/utils/storage.ts:60-84 | no write when the id is absent; otherwise one write of the collection whose first match's history has the new entry (given price, kind, date, id) appended |
| Storage.ArticleStore.UpdateArticlePrice | src/utils/storage.ts:86-103 | no write when the id is absent; otherwise two writes whose net result is the collection with only the first match's sale price changed |
| Storage.ArticleStore.UpdateArticlePriceCorrected | src/utils/storage.ts:91-97 | same steps with the final write moved before the history append: net result is the new price and the `update` entry both kept |
| Storage.NothingStoredLoadsEmpty | utils/storage.ts:8-9 | a store that was never written reads as the empty collection |
| Storage.SoldArticlesExact | utils/storage.ts:16-19 | an article is in the sold list iff it is stored and sold; the list keeps stored order; sold and unsold lists together are the stored multiset |
| Storage.AddedArticleAppended | utils/storage.ts:21-29 | adding grows the collection by one, keeps the prefix, and the new last element carries the given id and every field of the draft |
| Storage.UpdatedReplacesFirstMatch | utils/storage.ts:36-43 | at the first position with the id the updated record stands; every other position is unchanged; length is unchanged |
| Storage.UpdatedAbsentUnchanged | utils/storage.ts:39-43 | an update for an id no article has leaves the collection as it was |
| Storage.WithoutIdRemovesAll | utils/storage.ts:50-54 | no article with the id remains, every other article is kept in order, the kept and the removed articles together are the old multiset, an absent id changes nothing, deleting twice equals deleting once |
| Storage.HistoryAppendedExtendsFirstMatch | utils/storage.ts:67-79 | the first match's history gains exactly the new entry at its end; its other fields and all other articles are unchanged |
| Storage.HistoryAppendedAbsentUnchanged | utils/storage.ts:69-79 | appending history for an absent id changes nothing |
| Storage.RepricedLosesUpdateEntry | utils/storage.ts:92-98 | after a price update the first match differs from its old record only in the new sale price, so its history keeps its old length; nothing else changes |
| Storage.CorrectedRepriceRecordsUpdate | src/utils/storage.ts:91-97 | with the corrected order the first match has the new price and its history gains one `update` entry at that price |
| Storage.StaleWriteExample | src/utils/storage.ts:94-97 | on a one-article ledger the as-written update keeps the history `[initial]` while the corrected order yields `[initial, update]` |
| Storage.LengthPreserved | utils/storage.ts:36-103 | update, history append and price update never change the number of stored articles |
| Storage.FilterKeepsUnique | utils/storage.ts:53 | filtering a collection whose ids are distinct keeps them distinct |
| Storage.OperationsKeepIdsUnique | src/utils/storage.ts:20-103 | with distinct stored ids, every operation keeps them distinct, adding provided its id is new |
| Storage.OperationsKeepWellFormed | src/utils/storage.ts:20-103 | with every stored record well-formed (history starting with `initial`, sale date exactly when sold, positive sale price), add and update of well-formed records, delete, history append and a positive price update keep them all well-formed |
| Analytics.CalculateAnalytics | src/components/AnalyticsScreen.tsx:35-90 | the loop over the sold articles yields exactly the report of sums, profit, count, average and four window revenues |
| Analytics.AverageProfit | src/components/AnalyticsScreen.tsx:78 | with a positive count the average times the count is the profit; with no sale it is 0 |
| Analytics.EmptyReportIsZero | src/components/AnalyticsScreen.tsx:45-50 | with no sold article every figure is 0 |
| Analytics.ReportTotals | src/components/AnalyticsScreen.tsx:77-83 | profit is revenue minus purchase cost (absent counted as 0), the count is the number of sold articles, average times count is profit |
| Analytics.WeekWindowsDisjoint | src/components/AnalyticsScreen.tsx:60-66 | no article counts both in this week's and in last week's revenue |
| Analytics.WeekWindowsSplit | src/components/AnalyticsScreen.tsx:40-41 | when last week starts no later than this week, the two weekly revenues add up to the revenue since the start of last week |
| Analytics.WindowWithinTotal | src/components/AnalyticsScreen.tsx:57-74 | with non-negative prices each window's revenue is between 0 and the total revenue |
| Analytics.TwoSalesExample | src/components/AnalyticsScreen.tsx:52-83 | sales of 100 and 50 with costs 40 and 10 give revenue 150, profit 100, count 2, average 50; the one sold at the week start counts this week, the one sold just before counts last week |
| Analytics.WeeklyGrowth | src/components/AnalyticsScreen.tsx:122-124 | with last week's revenue positive, growth times that revenue is 100 times the change; otherwise 0 |
| Analytics.GrowthSign | src/components/AnalyticsScreen.tsx:122-124 | with last week's revenue positive, growth is positive, zero or negative exactly as this week beats, equals or trails last week |
| Analytics.RevenueByPeriod | src/components/AnalyticsScreen.tsx:96-107 | week, month and year select the weekly, monthly and yearly revenue |
| Analytics.RevenueByPeriodWithinTotal | src/components/AnalyticsScreen.tsx:96-107 | with non-negative prices the revenue shown for any period is between 0 and the total revenue |
| Strings.Trim | src/components/AddScreen.tsx:30 | `trim` never lengthens a string, and its result neither starts nor ends with a whitespace or line-terminator character |
| Strings.TrimIsTrimmed | src/components/AddScreen.tsx:51-54 | the trimmed text is a contiguous piece of the input, and every character cut before or after it is whitespace or a line terminator |
| Strings.Lower | src/components/StockScreen.tsx:24-25 | `toLowerCase` keeps the length, leaves no upper-case ASCII letter, maps each upper-case letter to its lower-case partner 32 code points higher and leaves every other character unchanged |
| Strings.Contains | src/components/StockScreen.tsx:24-25 | an empty needle is always found, and a found needle is no longer than the text |
| Strings.TrimEmptyIff | src/components/AddScreen.tsx:30 | a string trims to empty exactly when all its characters are whitespace or line terminators |
| Strings.ContainsIff | src/components/StockScreen.tsx:24-25 | `includes` holds exactly when the needle occurs at some position of the text |
| AddScreen.HandleSubmit | src/components/AddScreen.tsx:29-67 | an accepted form yields an unsold record created now, whose sale price is the parsed positive value of the sale price text and whose history is one `initial` entry at that price |
| AddScreen.SubmitOutcomes | src/components/AddScreen.tsx:30-45 | rejected for a blank required field, else for a NaN or non-positive sale price, else for a non-empty purchase price that is NaN or negative; accepted exactly when none applies |
| AddScreen.AcceptedRecord | src/components/AddScreen.tsx:41-67 | an accepted record is unsold with no sale date, has trimmed non-empty title, brand and size, the parsed positive sale price, an absent or non-negative purchase price (0 kept), and one `initial` history entry at the sale price |
| AddScreen.Submit | src/components/AddScreen.tsx:29-78 | the store is written only when every guard passes, then with the new record appended; a rejected form leaves it untouched |
| AddScreen.ProfitPreview | src/components/AddScreen.tsx:81 | hidden exactly when either price text is empty; shown as a number when both texts parse, and then sale minus purchase price |
| AddScreen.PreviewMatchesRecord | src/components/AddScreen.tsx:81 | for an accepted form the preview is the created record's profit when a purchase price is known, hidden otherwise |
| StockScreen.LoadArticles | src/components/StockScreen.tsx:18-21 | the stock list holds exactly the stored unsold articles, in stored order |
| StockScreen.StockAndSoldPartition | src/components/StockScreen.tsx:20 | every stored article is in exactly one of the stock list and the sold list |
| StockScreen.FilteredArticles | src/components/StockScreen.tsx:23-26 | the search result is no longer than the stock list, and each article in it is in the stock list and matches the query |
| StockScreen.SearchKeepsExactlyMatches | src/components/StockScreen.tsx:23-26 | an article is shown iff the lower-cased query occurs in its lower-cased title or brand; the result is a subsequence of the stock list; shown and hidden articles together are the stock list's multiset |
| StockScreen.EmptyQueryKeepsAll | src/components/StockScreen.tsx:23-26 | an empty query shows the whole stock list |
| StockScreen.SearchIgnoresQueryCase | src/components/StockScreen.tsx:24-25 | lower-casing the query does not change the result |
| StockScreen.ConfirmSale | src/components/StockScreen.tsx:34-59 | nothing happens without a selection or with an empty price; a NaN or non-positive price is rejected without a write; otherwise two writes produce the sold record with its `sale` entry, or nothing when the id is no longer stored |
| StockScreen.AfterSaleRecord | src/components/StockScreen.tsx:43-51 | the stored record is the selected one with `sold`, the final price and the sale date set, id, title, brand, size, description, creation date and purchase price unchanged, and its history ending in a `sale` entry at the final price |
| StockScreen.SoldLeavesStock | src/components/StockScreen.tsx:50-56 | with distinct ids, no article with the sold id remains in the reloaded stock list |
| StockScreen.SoldRecordWellFormed | src/components/StockScreen.tsx:43-51 | a sale at a positive price keeps a well-formed record well-formed: sold with a sale date, history still starting with `initial` |

## Left out

- Persistence: `localStorage`/`AsyncStorage`, the JSON round trip, the parse-error branch of `getArticles` that yields `[]`, and the storage exceptions the operations log and rethrow. They are I/O; the store is an in-memory field.
- `async`/`await`: every operation runs to completion before the next; interleaved callers are out of scope.
- Id generation (`Date.now()` plus `Math.random()`): ids are parameters; uniqueness appears only as a hypothesis of `Storage.OperationsKeepIdsUnique` and `StockScreen.SoldLeavesStock`.
- Clock readings: `now` is a parameter, and each operation takes one instant where the source reads the clock more than once.
  - `handleSubmit` reads it for the creation date (src/components/AddScreen.tsx:57) and for the history date (src/components/AddScreen.tsx:63).
  - `confirmSale` reads it for `soldDate` (src/components/StockScreen.tsx:47), and the `addPriceHistory` it calls reads it again for the `sale` entry's date (src/utils/storage.ts:73). `StockScreen.AfterSale` gives both the same `now`.
- The calendar arithmetic of `calculateAnalytics` (start of week in local time, the month start, one year back): the four boundaries are given.
- `parseFloat`, NaN and floating point: the parsed value is given with each price text, and sums are exact reals. `Analytics.Cost` does not model a NaN purchase price, which `|| 0` would turn into 0.
- `toLowerCase` beyond ASCII letters.
- React rendering, state setters, alerts, `handleSellArticle` (it only pre-fills the price field), `isFormValid` (it only disables the button), `formatCurrency`, `getPeriodLabel` and the tab shell. `confirmSale`'s reload of the stock list is stated as `StockScreen.SoldLeavesStock`, not called.

## Findings

| source | as written | input that shows it | evidently intended | confidence | as-written member | corrected member |
|---|---|---|---|---|---|---|
| src/utils/storage.ts:91-97 (same in utils/storage.ts:92-98) | `updateArticlePrice` sets the price in its own copy, lets `addPriceHistory` write the `update` entry, then writes its own copy, which does not have that entry | one unsold article `a` with history `[initial]`, then `updateArticlePrice("a", 20)` | the stored article has price 20 and history `[initial, update at 20]` | high, not executed | Storage.ArticleStore.UpdateArticlePrice, Storage.RepricedLosesUpdateEntry, Storage.StaleWriteExample | Storage.ArticleStore.UpdateArticlePriceCorrected, Storage.CorrectedRepriceRecordsUpdate |
