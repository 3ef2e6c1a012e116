# SmartBiz sales analytics, modelled in Dafny

SmartBiz is a Streamlit app. A small business uploads a table of sales
transactions and gets a dashboard back. The table has seven required columns:
`Tanggal` (date), `Nama Customer`, `Nama Produk`, `Kategori`, `Jumlah` (quantity),
`Harga` (price) and `Total`. This project models the analytics behind that
dashboard, in `app.py`:

- the column check that accepts or refuses an upload;
- the in-place sort of the table by date;
- the three-part filter: an inclusive date range, the selected categories, and the
  selected customers when any are chosen;
- the summary cards: revenue, order count, distinct customers, average order
  value, distinct products;
- the group-bys behind the charts: per product, category, customer, date, month
  and weekday;
- the top-N rankings;
- the "Insight Summary" facts: arg-max picks with their fallback texts.

Each module covers one stage:

- `Wrappers` has the `Option` (a value that may be missing) and `Result` (a value
  or a failure) types.
- `Schema` is the column check.
- `Transactions` holds the row record, column sums and the in-place insertion sort
  on an `array<Row>`.
- `Masks` is boolean-mask selection (`df[mask]`), proved to keep exactly the
  admitted rows in their original order.
- `Filtering` is the dashboard filter.
- `Metrics` is the summary cards.
- `Orders` has the key orders pandas sorts group keys by: strings by code point,
  dates by day number.
- `Calendar` has the day-number to calendar-date conversion, the `YYYY-MM` month
  label and the day name. The conversion splits a day number into 400-year eras,
  centuries, four-year cycles, years and months. It is proved against a direct day
  count in both directions, and the label is proved to read back as the year and
  month.
- `Grouping` is a generic `groupby(key)[col].sum()`. It folds the rows into a
  key-ascending association list.
- `Aggregates` has the concrete group-bys and the weekday means table.
- `Ranking` has `sort_values(ascending=False).head(n)`.
- `Insights` has the insight picks.
- `Dashboard` runs one pass of the page: it sorts the uploaded array in place,
  then computes the filtered view, its summary and its insight facts.
- `Scenario` works one small table of three sales through the filter, the cards
  and the insight picks.

Dates are day numbers: days since 1970-01-01 in the proleptic Gregorian calendar.
Money and quantities are whole numbers. Means are `real`. A missing value (pandas
NaN) is `None`.

Modelling choices:

- An empty category selection admits no row, because `isin([])` is all-false.
- The sorts are pandas' default unstable sort, so nothing is promised about the
  order of equal values. `Ranking.RankingValuesDetermined` and
  `Transactions.SortedDatesUnique` show that the value and date columns are still
  fully determined.
- `app.py` computes no Pareto table and no top-3-by-quantity list, so neither is
  modelled.

## Model

| member | source | states |
|---|---|---|
| Schema.AllPresent | app.py:50-51 | true exactly when every required name is among the columns |
| Schema.Accepts | app.py:50-51 | an upload is accepted iff all seven required column names are among its columns |
| Schema.ExtraColumnsAccepted | app.py:50-51 | adding columns before or after an accepted header never causes a rejection |
| Schema.MissingColumnRejected | app.py:50-51 | lacking any one required column rejects the table |
| Schema.ColumnOrderIrrelevant | app.py:50-51 | only the set of column names matters, not their order or repetition |
| Schema.TemplateAccepted | app.py:85-93 | the header of the downloadable template, its sample table's seven keys, passes the check and has no column the check does not ask for |
| Transactions.SortByDate | app.py:122 | after the in-place sort the array is in non-decreasing date order and a permutation of its old contents |
| Transactions.SortedDatesUnique | app.py:122 | any two date-ordered permutations of a table have the same date at every position, so only ties can differ |
| Transactions.SumAppend | app.py:160 | the column total of a concatenation is the sum of the two totals |
| Transactions.SumPermutation | app.py:160 | a column total does not depend on row order |
| Masks.Where | app.py:142-148 | a mask selection is a subsequence of the table holding every admitted occurrence and nothing else |
| Masks.SubsequenceTransitive | app.py:147-148 | selecting from a selection is still a subsequence of the table |
| Masks.WhereWhere | app.py:142-148 | applying two masks one after the other equals applying their conjunction |
| Masks.WhereExtensional | app.py:142-148 | masks that agree on every row select the same rows |
| Masks.WhereNone | app.py:142-145 | a mask that admits no row selects nothing |
| Masks.WhereAll | app.py:142-145 | a mask that admits every row selects the whole table |
| Filtering.Apply | app.py:136-150 | without exactly two endpoints the table is returned unchanged; with two, the two-stage filter equals one mask: date in range, category selected, customer selected or none chosen |
| Filtering.FilterKeepsExactly | app.py:136-148 | the filtered view is a subsequence of the table and holds every admitted row as often as the table does, and no other row |
| Filtering.IncompleteRangeKeepsAll | app.py:149-150 | a date selection without exactly two endpoints leaves the table unchanged |
| Filtering.NoCustomersMeansAll | app.py:133-148 | choosing no customer gives the same view as choosing every customer in the table |
| Filtering.CustomerSelectionNarrows | app.py:147-148 | a customer selection only narrows the date-and-category view, and every kept row has a chosen customer |
| Filtering.NoCategoriesSelectNothing | app.py:140-145 | an empty category selection yields an empty view |
| Filtering.ReversedRangeSelectsNothing | app.py:140-145 | a start date after the end date yields an empty view |
| Filtering.CustomerNames | app.py:133 | the customer picker offers every customer of the table, each once, and no other name |
| Filtering.WhereKeepsDateOrder | app.py:122-148 | a mask keeps a date-ordered table in date order |
| Filtering.FilterKeepsDateOrder | app.py:122-148 | filtering the date-sorted table yields a date-ordered view |
| Filtering.FilterIgnoresOrder | app.py:136-148 | which rows the view holds, with multiplicity, depends only on which rows the table holds |
| Metrics.NamesBounds | app.py:164 | the distinct-name count is at most the row count, and at least 1 for a non-empty table |
| Metrics.NamesPermutation | app.py:164-169 | the distinct names do not depend on row order |
| Metrics.AverageOrderValue | app.py:166 | 0 for an empty view; otherwise the average times the order count equals the revenue |
| Metrics.SumWithin | app.py:160 | the revenue lies between the row count times any lower bound and times any upper bound on `Total` |
| Metrics.AverageWithin | app.py:166 | the average order value lies between the smallest and the largest `Total` |
| Metrics.Summarize | app.py:160-169 | the cards are the `Total` sum, the row count, the numbers of distinct customers and products, and the average order value; the average times the orders is the revenue; the distinct counts are at most the orders and at least 1 when there are rows; all zero for no rows |
| Metrics.SummaryIgnoresOrder | app.py:160-169 | the cards depend only on which rows are present, not their order |
| Orders.StrLessIsStrictTotal | app.py:175 | string key order is a strict total order, so group keys sort uniquely |
| Orders.StrLessCommonPrefix | app.py:175 | a common prefix does not change how two strings compare |
| Orders.IntLessIsStrictTotal | app.py:240 | date key order is a strict total order |
| Calendar.CivilFromDays | app.py:244 | every day number gives a valid date (month 1..12, day within that month's length, leap years included) whose direct day count is that day number |
| Calendar.CountRoundTrip | app.py:244 | converting a valid date's day count back gives that date |
| Calendar.CountInjective | app.py:244 | two valid dates with the same day count are the same date |
| Calendar.YearOfEra | app.py:244 | a day of a 400-year era splits into a year of the era and a day of that year, the 366th day only in a leap year |
| Calendar.MonthOfMarchYear | app.py:244 | a day of a March-based year falls on a month and a day within that month's common length, or on 29 February |
| Calendar.EarlierYearEarlier | app.py:244 | a date in an earlier year has a smaller day count |
| Calendar.MonthLabel | app.py:244 | the `Bulan` label of a day number reads back as that day's year and month, with a `-` before the two month digits |
| Calendar.SameMonthLabel | app.py:244-245 | two days get the same label exactly when they fall in the same year and month, so the monthly group-by groups by calendar month |
| Calendar.LabelRoundTrip | app.py:244 | every year-and-month label reads back as its year and month, and has a `-` before the two month digits |
| Calendar.Weekday | app.py:251 | the weekday index is in 0..6 |
| Calendar.DayName | app.py:251 | the day name is one of Monday..Sunday |
| Calendar.WeekdayPeriodic | app.py:251 | a week later is the same weekday; a day later is the next |
| Calendar.EpochIsFirstOfJanuary1970 | app.py:244 | day 0 is 1970-01-01, from the round trip |
| Calendar.DayBeforeEpoch | app.py:244 | day -1 is 1969-12-31 |
| Calendar.FirstOfJanuary2024 | app.py:244 | day 19723 is 2024-01-01 |
| Calendar.LeapDay2024 | app.py:244 | day 19782 is 2024-02-29 |
| Calendar.KnownWeekdays | app.py:251 | 1970-01-01 was a Thursday, 2024-01-01 a Monday, 2024-02-29 a Thursday |
| Calendar.SecondAndThirdOfJanuary2024 | app.py:244 | days 19724 and 19725 are 2024-01-02 and 2024-01-03 |
| Calendar.JanuaryLabel | app.py:244 | every day of January 2024 is labelled "2024-01" |
| Grouping.Insert | app.py:175 | adding a row's value to its key keeps keys ascending, adds the key, updates only that key's value and raises the total by the value |
| Grouping.InsertCount | app.py:175 | inserting adds an entry exactly when the key is new |
| Grouping.LookupPresent | app.py:175 | a key is found exactly when it is one of the entry keys, with that entry's value |
| Grouping.FoldRow | app.py:175 | folding one more row into the groups of the rows before it gives the groups of all of them |
| Grouping.GroupSum | app.py:175 | keys ascending; every key of the rows has exactly its group's total and no other key appears; entries add up to the column total |
| Grouping.GroupCount | app.py:175 | there are exactly as many entries as distinct keys |
| Grouping.GroupEntries | app.py:175 | entry by entry, each key occurs in the rows with its own group total, and every row's key has an entry |
| Grouping.CountPositive | app.py:207 | a group that holds a row counts at least one |
| Aggregates.RevenueByProduct | app.py:175 | revenue per product: each product of the rows with the `Total` sum of its rows and no other key, keys ascending, adding up to the revenue |
| Aggregates.QtyByProduct | app.py:178 | quantity per product: each product of the rows with the `Jumlah` sum of its rows and no other key, keys ascending, adding up to the quantity sold |
| Aggregates.OrdersByCategory | app.py:207 | order count per category: each category of the rows with the number of its rows and no other key, keys ascending, each at least 1, adding up to the row count |
| Aggregates.SumOfOnes | app.py:207 | counting rows one by one gives the row count |
| Aggregates.SpendByCustomer | app.py:222 | spending per customer: each customer of the rows with the `Total` sum of their rows and no other key, keys ascending, adding up to the revenue |
| Aggregates.QtyByDate | app.py:240 | quantity per date: each date of the rows with the `Jumlah` sum of its rows and no other key, in date order, adding up to the quantity sold |
| Aggregates.QtyByMonth | app.py:243-245 | quantity per "YYYY-MM" label: each month label of the rows with the `Jumlah` sum of its rows and no other key, in label order, adding up to the quantity sold |
| Aggregates.WeekdayMeans | app.py:250-254 | seven entries Monday..Sunday in that order, each holding the mean quantity of the rows on that weekday, or none |
| Aggregates.WeekdayMeanAt | app.py:251-254 | the grouped, reindexed value of a weekday is the mean quantity of its rows |
| Aggregates.SumWhereIsSumOfWhere | app.py:252 | a group's total is the total of the rows a mask on its key selects |
| Aggregates.Mean | app.py:252 | a group mean exists exactly when the group has a sum and a non-zero count, and then the mean times the count is the sum |
| Aggregates.MeanOnWeekdayAbsent | app.py:252-254 | a weekday has no value exactly when no row falls on it |
| Aggregates.MeanOnWeekdayTimesCount | app.py:252 | a weekday's value times its row count is its quantity total |
| Aggregates.DayPresent | app.py:251-252 | a day name is a group key exactly when some row falls on that weekday |
| Ranking.InsertByValue | app.py:192 | inserting into a descending list keeps it descending and adds exactly that entry |
| Ranking.SortDescending | app.py:192 | the result is non-increasing in value and a permutation of the aggregate |
| Ranking.Top | app.py:192 | non-increasing, min(n, #entries) long, a sub-multiset of the aggregate, and no entry left out is above any kept |
| Ranking.TopFirstIsMax | app.py:270 | the first entry of a non-empty top-n is an entry with the largest value |
| Ranking.HeadBoundsAll | app.py:270 | a descending selection that leaves none out above it starts with a maximum of all entries |
| Ranking.DescendingValuesUnique | app.py:192 | two descending permutations of the same entries agree on the value at every position |
| Ranking.RankingValuesDetermined | app.py:192 | any descending arrangement has the model's values, whatever its tie order |
| Ranking.TopRanksGroups | app.py:192 | the top n of a group-by lists distinct groups with their own totals, descending, min(n, #groups) long, with no group left out above a kept one |
| Ranking.TopKeysDistinct | app.py:192 | no key occurs twice in the top n of a group-by |
| Ranking.AscendingDistinct | app.py:175-178 | the keys of a group-by table are pairwise different |
| Ranking.CountsDistinctKeys | app.py:192 | entries drawn from a table with distinct keys have distinct keys |
| Ranking.TopEntriesAreGroups | app.py:192 | every entry of a top n is a group of the rows holding its own total |
| Ranking.TopLeavesNoneAbove | app.py:192 | no group left out of a top n has a larger total than a kept one |
| Ranking.RankingHeadIsMax | app.py:260 | the head of a ranking is a group with the largest total |
| Ranking.ProductsByQty | app.py:192 | min(10, #products) distinct products with their unit totals, non-increasing, none left out above one kept |
| Ranking.CategoriesByOrders | app.py:207 | every category once, with its order count, non-increasing |
| Ranking.FullTop | app.py:207 | keeping every entry is the full descending sort |
| Ranking.LoyalCustomers | app.py:222 | min(10, #customers) distinct customers with their spending, non-increasing, none left out above one kept |
| Ranking.TopRevenueProducts | app.py:269 | min(3, #products) distinct products with their revenue, non-increasing, none left out above one kept |
| Insights.IdxMax | app.py:258-264 | "Data tidak tersedia" for an empty table, else the key of an entry with the largest value and every earlier entry strictly smaller |
| Insights.FirstMax | app.py:258 | idxmax: a position holding the largest value, with every earlier position strictly smaller |
| Insights.FirstMaxKeyUnique | app.py:258 | at most one key is the first with the largest total |
| Insights.GroupIdxMax | app.py:258-264 | the idxmax of a group-by over a non-empty table is the first maximal key in ascending key order |
| Insights.FirstMaxOfGroups | app.py:258-264 | in the ascending group table, the first maximal entry holds the first maximal key |
| Insights.GroupsNonEmpty | app.py:258-264 | a group-by is empty exactly when the table is |
| Insights.BusiestMonth | app.py:258 | "Data tidak tersedia" for no rows, else the first month label with the largest quantity |
| Insights.TopProduct | app.py:259 | "Data tidak tersedia" for no rows, else the first product with the largest revenue |
| Insights.LoyalCustomer | app.py:260 | "Data tidak tersedia" for no rows, else a customer with the largest spending |
| Insights.TopProductByQty | app.py:264 | "Data tidak tersedia" for no rows, else the first product with the most units sold |
| Insights.Top3Products | app.py:269 | min(3, #products) distinct product names in non-increasing revenue, none left out above one listed |
| Insights.Top3NotEmpty | app.py:269 | a table with rows has between one and three top products |
| Insights.ResortedHeadIsMax | app.py:270 | sorting a ranking again and taking its head gives a key with the largest total |
| Insights.TopCategory | app.py:270 | "-" for no rows, else a category with the most orders |
| Insights.WeekdayValues | app.py:252-254 | the seven weekday values in Monday..Sunday order |
| Insights.FirstMaxPresent | app.py:272 | idxmax skipping missing values: none iff all missing, else the first position of the largest present value |
| Insights.AllWeekdaysMissing | app.py:271-273 | every weekday is missing exactly when there are no rows |
| Insights.BusiestWeekday | app.py:272 | none iff no rows, else the first weekday with the largest mean |
| Insights.BusiestDay | app.py:272 | "-" for no rows, else the name of the first weekday with the largest mean |
| Insights.BusiestDayAsWritten | app.py:272 | fails exactly when there are no rows and never yields "-"; otherwise it names the busiest weekday |
| Insights.EmptyViewFailsAsWritten | app.py:272 | for an empty view the pick as written fails, where "-" was intended |
| Insights.BusiestDayMean | app.py:273 | none iff no rows, else the largest weekday mean, which some weekday holds |
| Insights.PresentCountZero | app.py:271 | no present value is counted exactly when all are missing |
| Insights.MeanOfPresent | app.py:271 | the mean skipping missing values is none exactly when all are missing, and otherwise times the number of present values equals their sum |
| Insights.MeanOfPresentAtMost | app.py:271 | that mean is at most any upper bound of the present values |
| Insights.MeanOfPresentAtLeast | app.py:271 | that mean is at least any lower bound of the present values |
| Insights.DailyMean | app.py:271 | the mean of the weekday table is none exactly when there are no rows, and otherwise the sum of the present weekday means divided by their number |
| Insights.DailyMeanWithin | app.py:271 | the daily mean lies within any bounds on the weekday means |
| Insights.DailyMeanAtMostBusiest | app.py:271-273 | the daily mean never exceeds the busiest weekday's mean |
| Dashboard.FactsOf | app.py:258-273 | the insight numbers (sales, orders, average order, customers) are the summary cards of the same rows |
| Dashboard.FactsOfNoRows | app.py:258-273 | with no rows every pick is its placeholder ("Data tidak tersedia" or "-"), the daily and busiest-day means are missing, and every number is 0 |
| Dashboard.FactsOfSomeRows | app.py:258-273 | with rows the busiest day is a weekday name, the daily mean exists and is at most the busiest day's mean, and there are one to three top products |
| Dashboard.Run | app.py:121-273 | the table is sorted in place as a permutation; the view is the filter of the sorted table and is date-ordered; the cards and facts are those of the view |
| Dashboard.SummaryIgnoresTieOrder | app.py:122-169 | the summary cards do not depend on how the date sort ordered equal dates |
| Scenario.FullSelectionKeepsAll | app.py:136-148 | three sales on 1, 2 and 3 January 2024: the full date range with both categories and no customer keeps all three |
| Scenario.SalesNames | app.py:133 | those sales have two customers and two products |
| Scenario.SalesSummary | app.py:160-169 | their cards are revenue 550, 3 orders, 2 customers, average 550/3, 2 products |
| Scenario.ProductTotals | app.py:175 | ProductX earns 500 and ProductY 50 |
| Scenario.ProductYAfterProductX | app.py:175 | "ProductX" sorts before "ProductY" |
| Scenario.ProductXLeads | app.py:259 | ProductX is the first product with the largest revenue |
| Scenario.SalesTopProduct | app.py:259 | the top product is ProductX |
| Scenario.CustomerTotals | app.py:222 | CustomerA spends 250 and CustomerB 300 |
| Scenario.SalesLoyalCustomer | app.py:260 | the loyal customer is CustomerB |
| Scenario.SalesMonths | app.py:244 | every sale is labelled "2024-01" |
| Scenario.SalesBusiestMonth | app.py:258 | the busiest month is "2024-01" |

## Left out

- The Streamlit UI is not modelled: page routing, `st.session_state`, the business-info form, the guide toggles, widgets and layout.
- File reading (`pd.read_csv` / `pd.read_excel`) is not modelled; the table arrives as rows and its header as a list of names.
- Template file generation (the CSV and Excel downloads) is not modelled; only the template's header, the keys of its sample table, is checked against the column check.
- Every cell of a row is present: missing names, dates, quantities or totals, which pandas' `groupby`, `nunique`, `sum` and `mean` skip, are outside the model.
- `pd.to_datetime` parsing is not modelled: dates arrive as day numbers, so time-of-day and unparseable dates are outside the model.
- Plotly charts and number formatting (`:,.0f`, `.1f`) are presentation.
- The business-age line reads the wall clock.
- The AI recommendation and chatbot sections are placeholders with no logic.
- Transactions.SortByDate: the order among rows with equal dates is not specified, because pandas' default sort is not stable.
- Ranking.SortDescending: the order among rows with equal values is not specified, for the same reason.
- Insights.LoyalCustomer: names a customer with the largest spending but not which one among equals, because it comes from an unstable sort.
- Insights.TopCategory: the same as LoyalCustomer, for categories.
- Insights.BusiestDay: with no rows it returns the intended "-". As written the page raises there (see "## Findings"); `Insights.BusiestDayAsWritten` models that failure.
- Insights.BusiestDayMean: with no rows it returns none, the NaN that `max` gives over seven missing values; the fallback 0 is never reached. On the page as written this line is not reached for an empty view, because the busiest-day pick before it raises.
- Dashboard.FactsOfNoRows: states the facts of an empty view with the corrected busiest-day pick. On the page as written an empty view raises at the busiest-day pick, so these facts are the model's choice, not the page's output.
- Aggregates.OrdersByCategory: counts every row, which is `count()` on a `Jumlah` column without missing values; missing quantities are not modelled.
- Aggregates.WeekdayMeans: the weekday value is the mean quantity per transaction row on that weekday, as the code computes it, not per calendar day as the insight text words it.
- Money is modelled as unbounded integers and means as exact reals, whereas pandas uses 64-bit integers and floats; overflow and rounding are not modelled.

## Findings

| source | as written | input that shows it | evidently intended | confidence | as-written member | corrected member |
|---|---|---|---|---|---|---|
| app.py:272 | the `"-"` fallback is guarded by `df_day_avg.empty`, but the reindexed weekday table always has seven rows, so the guard never fires; for an empty view all seven means are missing, `idxmax` yields no row label and the lookup raises | an empty view: deselect every category, or pick a date range without sales | the busiest day is `"-"` when the view has no rows | not executed | Insights.BusiestDayAsWritten | Insights.BusiestDay |
