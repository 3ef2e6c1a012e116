/** One pass of the dashboard page: the uploaded table is put in date order in
    place, the filter selection is applied, and the summary cards and the insight
    facts are computed from the filtered view. */
module Dashboard {
  import opened Wrappers
  import opened Orders
  import opened Transactions
  import opened Calendar
  import opened Filtering
  import opened Metrics
  import opened Grouping
  import opened Aggregates
  import opened Ranking
  import opened Insights

  /** The values interpolated into the insight text. */
  datatype Facts = Facts(
    busiestMonth: string,
    topProduct: string,
    loyalCustomer: string,
    totalSales: int,
    topProductByQty: string,
    orders: nat,
    averageOrder: real,
    customers: nat,
    top3Products: seq<string>,
    topCategory: string,
    dailyMean: Option<real>,
    busiestDay: string,
    busiestDayMean: Option<real>)

  /** The insight facts of a filtered view. The text recomputes the revenue, the
      order count, the average order value and the customer count from the view
      (app.py:263-267) rather than reusing the summary cards; they agree with the cards. */
  function FactsOf(rows: seq<Row>): (f: Facts)
    ensures var s := Summarize(rows);
      && f.totalSales == s.revenue && f.orders == s.orders
      && f.averageOrder == s.averageOrder && f.customers == s.customers
  {
    Facts(
      BusiestMonth(rows),
      TopProduct(rows),
      LoyalCustomer(rows),
      Sum(rows, TotalOf),
      TopProductByQty(rows),
      |rows|,
      AverageOrderValue(rows),
      |Names(rows, CustomerOf)|,
      Top3Products(rows),
      TopCategory(rows),
      DailyMean(rows),
      BusiestDay(rows),
      BusiestDayMean(rows))
  }

  /** With no rows every pick falls back to its placeholder and every number is 0.
      The busiest day is the corrected pick: as written the page raises here
      (`Insights.BusiestDayAsWritten`). */
  lemma FactsOfNoRows()
    ensures FactsOf([]) == Facts(NoData, NoData, NoData, 0, NoData, 0, 0.0, 0, [], "-", None, "-", None)
  {
    assert KeySet([], ProductOf) == {};
  }

  /** With rows the busiest day is a weekday name, there is a daily mean and it is at
      most the busiest day's mean, and there are between one and three top products. */
  lemma FactsOfSomeRows(rows: seq<Row>)
    requires rows != []
    ensures var f := FactsOf(rows);
      && f.busiestDay in DayNames && f.dailyMean.Some? && f.busiestDayMean.Some?
      && f.dailyMean.value <= f.busiestDayMean.value
      && 1 <= |f.top3Products| <= 3
  {
    var f := FactsOf(rows);
    assert f.busiestDay == BusiestDay(rows) && f.top3Products == Top3Products(rows);
    assert f.dailyMean == DailyMean(rows) && f.busiestDayMean == BusiestDayMean(rows);
    DailyMeanAtMostBusiest(rows);
    Top3NotEmpty(rows);
  }

  /** Sorts the uploaded table by date in place, then computes the filtered view,
      its summary cards and its insight facts. */
  method Run(table: array<Row>, sel: Selection) returns (view: seq<Row>, summary: Summary, facts: Facts)
    modifies table
    ensures SortedByDate(table[..]) && multiset(table[..]) == old(multiset(table[..]))
    ensures view == Apply(table[..], sel) && SortedByDate(view)
    ensures summary == Summarize(view) && facts == FactsOf(view)
  {
    SortByDate(table);
    view := Apply(table[..], sel);
    FilterKeepsDateOrder(table[..], sel);
    summary := Summarize(view);
    facts := FactsOf(view);
  }

  /** The summary cards do not depend on how the date sort ordered rows with equal
      dates: any two date-ordered arrangements of the same table give the same cards. */
  lemma SummaryIgnoresTieOrder(a: seq<Row>, b: seq<Row>, sel: Selection)
    requires multiset(a) == multiset(b)
    ensures Summarize(Apply(a, sel)) == Summarize(Apply(b, sel))
  {
    FilterIgnoresOrder(a, b, sel);
    SummaryIgnoresOrder(Apply(a, sel), Apply(b, sel));
  }
}
