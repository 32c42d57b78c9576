/** The figures of the analytics screen (src/components/AnalyticsScreen.tsx),
    computed from the sold articles. The four window boundaries are
    derived from the clock and the local calendar in the source; here they
    are given. */
module Analytics {
  import opened Wrappers
  import opened Articles
  import opened Storage

  /** The instants the source derives from one reading of the clock. */
  datatype Boundaries = Boundaries(
    startOfWeek: Timestamp,
    startOfPreviousWeek: Timestamp,
    startOfMonth: Timestamp,
    startOfYear: Timestamp)

  /** A revenue window: from `from` inclusive, up to `until` exclusive when given. */
  datatype Window = Window(from: Timestamp, until: Option<Timestamp>)

  function WeekWindow(b: Boundaries): Window { Window(b.startOfWeek, None) }
  function PreviousWeekWindow(b: Boundaries): Window { Window(b.startOfPreviousWeek, Some(b.startOfWeek)) }
  function MonthWindow(b: Boundaries): Window { Window(b.startOfMonth, None) }
  function YearWindow(b: Boundaries): Window { Window(b.startOfYear, None) }

  /** The article was sold inside the window. An article without a sale
      date parses to an invalid date, which every comparison rejects. */
  predicate InWindow(a: Article, w: Window) {
    && a.soldDate.Some?
    && w.from <= a.soldDate.value
    && (w.until.None? || a.soldDate.value < w.until.value)
  }

  /** `article.purchasePrice || 0` */
  function Cost(a: Article): Money {
    a.purchasePrice.GetOr(0.0)
  }

  /** Sum of the sale prices. */
  function TotalRevenue(s: seq<Article>): Money {
    if s == [] then 0.0 else TotalRevenue(s[..|s| - 1]) + s[|s| - 1].salePrice
  }

  /** Sum of the purchase prices, absent ones counted as 0. */
  function TotalCost(s: seq<Article>): Money {
    if s == [] then 0.0 else TotalCost(s[..|s| - 1]) + Cost(s[|s| - 1])
  }

  /** Sum of the sale prices of the articles sold inside the window. */
  function RevenueIn(s: seq<Article>, w: Window): Money {
    if s == [] then 0.0
    else RevenueIn(s[..|s| - 1], w) + (if InWindow(s[|s| - 1], w) then s[|s| - 1].salePrice else 0.0)
  }

  /** Extending a prefix by one article adds that article's share to each sum. */
  lemma PrefixStep(s: seq<Article>, i: nat, b: Boundaries)
    requires i < |s|
    ensures TotalRevenue(s[..i + 1]) == TotalRevenue(s[..i]) + s[i].salePrice
    ensures TotalCost(s[..i + 1]) == TotalCost(s[..i]) + Cost(s[i])
    ensures forall w: Window ::
      RevenueIn(s[..i + 1], w) == RevenueIn(s[..i], w) + (if InWindow(s[i], w) then s[i].salePrice else 0.0)
  {
    assert s[..i + 1][..i] == s[..i];
  }

  /** `totalSold > 0 ? totalProfit / totalSold : 0` */
  function AverageProfit(totalProfit: Money, totalSold: nat): (r: Money)
    ensures totalSold > 0 ==> r * (totalSold as real) == totalProfit
    ensures totalSold == 0 ==> r == 0.0
  {
    if totalSold > 0 then totalProfit / (totalSold as real) else 0.0
  }

  datatype Report = Report(
    totalRevenue: Money,
    totalProfit: Money,
    totalSold: nat,
    averageProfit: Money,
    weeklyRevenue: Money,
    previousWeekRevenue: Money,
    monthlyRevenue: Money,
    yearlyRevenue: Money)

  /** The report the screen shows for these sold articles. */
  function ReportOf(sold: seq<Article>, b: Boundaries): Report {
    var profit := TotalRevenue(sold) - TotalCost(sold);
    Report(TotalRevenue(sold), profit, |sold|, AverageProfit(profit, |sold|),
           RevenueIn(sold, WeekWindow(b)), RevenueIn(sold, PreviousWeekWindow(b)),
           RevenueIn(sold, MonthWindow(b)), RevenueIn(sold, YearWindow(b)))
  }

  /** `calculateAnalytics()`: one pass over the sold articles with six
      accumulators, then profit and average. */
  method CalculateAnalytics(store: ArticleStore, b: Boundaries) returns (report: Report)
    ensures report == ReportOf(SoldArticles(store.Articles()), b)
  {
    var soldArticles := store.GetSoldArticles();
    var totalRevenue, totalPurchaseCost := 0.0, 0.0;
    var weeklyRevenue, previousWeekRevenue, monthlyRevenue, yearlyRevenue := 0.0, 0.0, 0.0, 0.0;
    var i := 0;
    while i < |soldArticles|
      invariant 0 <= i <= |soldArticles|
      invariant totalRevenue == TotalRevenue(soldArticles[..i])
      invariant totalPurchaseCost == TotalCost(soldArticles[..i])
      invariant weeklyRevenue == RevenueIn(soldArticles[..i], WeekWindow(b))
      invariant previousWeekRevenue == RevenueIn(soldArticles[..i], PreviousWeekWindow(b))
      invariant monthlyRevenue == RevenueIn(soldArticles[..i], MonthWindow(b))
      invariant yearlyRevenue == RevenueIn(soldArticles[..i], YearWindow(b))
    {
      var article := soldArticles[i];
      PrefixStep(soldArticles, i, b);
      var revenue := article.salePrice;
      var cost := Cost(article);
      totalRevenue := totalRevenue + revenue;
      totalPurchaseCost := totalPurchaseCost + cost;
      if article.soldDate.Some? && article.soldDate.value >= b.startOfWeek {
        weeklyRevenue := weeklyRevenue + revenue;
      }
      if article.soldDate.Some? && article.soldDate.value >= b.startOfPreviousWeek
         && article.soldDate.value < b.startOfWeek {
        previousWeekRevenue := previousWeekRevenue + revenue;
      }
      if article.soldDate.Some? && article.soldDate.value >= b.startOfMonth {
        monthlyRevenue := monthlyRevenue + revenue;
      }
      if article.soldDate.Some? && article.soldDate.value >= b.startOfYear {
        yearlyRevenue := yearlyRevenue + revenue;
      }
      i := i + 1;
    }
    assert soldArticles[..i] == soldArticles;
    var totalProfit := totalRevenue - totalPurchaseCost;
    var averageProfit := if |soldArticles| > 0 then totalProfit / (|soldArticles| as real) else 0.0;
    report := Report(totalRevenue, totalProfit, |soldArticles|, averageProfit,
                     weeklyRevenue, previousWeekRevenue, monthlyRevenue, yearlyRevenue);
  }

  /** With no sold article every figure is 0. */
  lemma EmptyReportIsZero(b: Boundaries)
    ensures ReportOf([], b) == Report(0.0, 0.0, 0, 0.0, 0.0, 0.0, 0.0, 0.0)
  {
  }

  /** Profit is revenue minus cost, the count is the number of sold
      articles, and the average times the count gives back the profit. */
  lemma ReportTotals(sold: seq<Article>, b: Boundaries)
    ensures ReportOf(sold, b).totalProfit == TotalRevenue(sold) - TotalCost(sold)
    ensures ReportOf(sold, b).totalSold == |sold|
    ensures |sold| > 0 ==> ReportOf(sold, b).averageProfit * (|sold| as real) == ReportOf(sold, b).totalProfit
  {
  }

  /** No article counts both this week and the week before. */
  lemma WeekWindowsDisjoint(a: Article, b: Boundaries)
    ensures !(InWindow(a, WeekWindow(b)) && InWindow(a, PreviousWeekWindow(b)))
  {
  }

  /** This week's and last week's revenue together are the revenue since the
      start of last week. */
  lemma {:induction false} WeekWindowsSplit(s: seq<Article>, b: Boundaries)
    requires b.startOfPreviousWeek <= b.startOfWeek
    ensures RevenueIn(s, WeekWindow(b)) + RevenueIn(s, PreviousWeekWindow(b))
            == RevenueIn(s, Window(b.startOfPreviousWeek, None))
  {
    if s != [] {
      WeekWindowsSplit(s[..|s| - 1], b);
    }
  }

  /** With non-negative prices a window's revenue lies between 0 and the
      total revenue. */
  lemma {:induction false} WindowWithinTotal(s: seq<Article>, w: Window)
    requires forall i :: 0 <= i < |s| ==> s[i].salePrice >= 0.0
    ensures 0.0 <= RevenueIn(s, w) <= TotalRevenue(s)
  {
    if s != [] {
      WindowWithinTotal(s[..|s| - 1], w);
    }
  }

  /** Two sold articles, revenue 100 and 50, costs 40 and 10. */
  lemma TwoSalesExample(b: Boundaries)
    ensures var h := [PriceHistory("h", 1.0, 0, Initial)];
      var a1 := Article("1", "A", "B", "M", "", Some(40.0), 100.0, 0, true, Some(b.startOfWeek), h);
      var a2 := Article("2", "C", "D", "S", "", Some(10.0), 50.0, 0, true, Some(b.startOfWeek - 1), h);
      var r := ReportOf([a1, a2], b);
      && r.totalRevenue == 150.0 && r.totalProfit == 100.0 && r.totalSold == 2 && r.averageProfit == 50.0
      && r.weeklyRevenue == 100.0
      && (b.startOfPreviousWeek < b.startOfWeek ==> r.previousWeekRevenue == 50.0)
  {
    var h := [PriceHistory("h", 1.0, 0, Initial)];
    var a1 := Article("1", "A", "B", "M", "", Some(40.0), 100.0, 0, true, Some(b.startOfWeek), h);
    var a2 := Article("2", "C", "D", "S", "", Some(10.0), 50.0, 0, true, Some(b.startOfWeek - 1), h);
    var s := [a1, a2];
    assert s[..1] == [a1] && [a1][..0] == [];
    assert TotalRevenue([a1]) == 100.0 && TotalCost([a1]) == 40.0;
    assert TotalRevenue(s) == 150.0 && TotalCost(s) == 50.0;
    assert RevenueIn([a1], WeekWindow(b)) == 100.0;
    assert RevenueIn([a1], PreviousWeekWindow(b)) == 0.0;
  }

  /** `weeklyGrowth`: the change from last week as a percentage of last
      week's revenue, 0 when last week had none. */
  function WeeklyGrowth(weekly: Money, previous: Money): (r: real)
    ensures previous > 0.0 ==> r * previous == (weekly - previous) * 100.0
    ensures previous <= 0.0 ==> r == 0.0
  {
    if previous > 0.0 then ((weekly - previous) / previous) * 100.0 else 0.0
  }

  /** Growth is positive, zero or negative as this week beats, equals or
      trails last week. */
  lemma GrowthSign(weekly: Money, previous: Money)
    requires previous > 0.0
    ensures WeeklyGrowth(weekly, previous) > 0.0 <==> weekly > previous
    ensures WeeklyGrowth(weekly, previous) == 0.0 <==> weekly == previous
    ensures WeeklyGrowth(weekly, previous) < 0.0 <==> weekly < previous
  {
    var r := WeeklyGrowth(weekly, previous);
    assert r * previous == (weekly - previous) * 100.0;
    if r > 0.0 { assert r * previous > 0.0; }
    if r < 0.0 { assert r * previous < 0.0; }
  }

  /** The period selector of the screen. */
  datatype Period = Week | Month | Year

  /** `getRevenueByPeriod()` */
  function RevenueByPeriod(p: Period, report: Report): (r: Money)
    ensures p == Week ==> r == report.weeklyRevenue
    ensures p == Month ==> r == report.monthlyRevenue
    ensures p == Year ==> r == report.yearlyRevenue
  {
    match p
    case Week => report.weeklyRevenue
    case Month => report.monthlyRevenue
    case Year => report.yearlyRevenue
  }

  /** With non-negative prices the revenue shown for any period is at most
      the total revenue. */
  lemma RevenueByPeriodWithinTotal(p: Period, sold: seq<Article>, b: Boundaries)
    requires forall i :: 0 <= i < |sold| ==> sold[i].salePrice >= 0.0
    ensures 0.0 <= RevenueByPeriod(p, ReportOf(sold, b)) <= ReportOf(sold, b).totalRevenue
  {
    match p
    case Week => WindowWithinTotal(sold, WeekWindow(b));
    case Month => WindowWithinTotal(sold, MonthWindow(b));
    case Year => WindowWithinTotal(sold, YearWindow(b));
  }
}
