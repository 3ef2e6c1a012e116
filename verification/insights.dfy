/** The "Insight Summary" facts: arg-max picks over the aggregates, each with a
    fallback text when its aggregate is empty. */
module Insights {
  import opened Wrappers
  import opened Orders
  import opened Transactions
  import opened Calendar
  import opened Masks
  import opened Grouping
  import opened Metrics
  import opened Aggregates
  import opened Ranking

  /** The fallback shown when an aggregate has no entries. */
  const NoData := "Data tidak tersedia"

  /** `series.idxmax()`: the position of the first entry holding the largest value. */
  function FirstMax<K>(g: Groups<K>): (i: nat)
    requires g != []
    ensures i < |g|
    ensures forall j :: 0 <= j < |g| ==> g[j].1 <= g[i].1
    ensures forall j :: 0 <= j < i ==> g[j].1 < g[i].1
  {
    if |g| == 1 then 0
    else
      var k := FirstMax(g[1..]) + 1;
      if g[0].1 >= g[k].1 then 0 else k
  }

  /** `table.loc[table[col].idxmax(), key] if not table.empty else "Data tidak tersedia"`. */
  function IdxMax(g: Groups<string>): (k: string)
    ensures g == [] ==> k == NoData
    ensures g != [] ==> exists i :: 0 <= i < |g| && k == g[i].0
                                 && (forall j :: 0 <= j < |g| ==> g[j].1 <= g[i].1)
                                 && (forall j :: 0 <= j < i ==> g[j].1 < g[i].1)
  {
    if g == [] then NoData else g[FirstMax(g)].0
  }

  /** `k` is a key of the rows whose group total is the largest. */
  ghost predicate IsMaxKey(rows: seq<Row>, key: Row -> string, val: Row -> int, k: string) {
    && k in KeySet(rows, key)
    && forall x :: x in rows ==> SumWhere(rows, key, val, key(x)) <= SumWhere(rows, key, val, k)
  }

  /** `k` is the first key, in ascending key order, whose group total is the largest. */
  ghost predicate IsFirstMaxKey(rows: seq<Row>, key: Row -> string, val: Row -> int, k: string) {
    && IsMaxKey(rows, key, val, k)
    && forall x :: x in rows && StrLess(key(x), k) ==> SumWhere(rows, key, val, key(x)) < SumWhere(rows, key, val, k)
  }

  /** At most one key is the first with the largest total. */
  lemma FirstMaxKeyUnique(rows: seq<Row>, key: Row -> string, val: Row -> int, k1: string, k2: string)
    requires IsFirstMaxKey(rows, key, val, k1) && IsFirstMaxKey(rows, key, val, k2)
    ensures k1 == k2
  {
    var x1 :| x1 in rows && key(x1) == k1;
    var x2 :| x2 in rows && key(x2) == k2;
    if k1 != k2 {
      StrLessConnected(k1, k2);
    }
  }

  /** The idxmax of a group-by over non-empty rows is its first maximal key. */
  lemma GroupIdxMax(rows: seq<Row>, key: Row -> string, val: Row -> int)
    requires StrictTotalOrder(StrLess)
    ensures rows != [] ==> IsFirstMaxKey(rows, key, val, IdxMax(GroupSum(rows, key, val, StrLess)))
  {
    if rows != [] {
      var g := GroupSum(rows, key, val, StrLess);
      GroupEntries(rows, key, val, StrLess);
      assert g != [] by { assert key(rows[0]) in KeysOf(g); }
      FirstMaxOfGroups(rows, key, val, g);
    }
  }

  /** In an ascending table of the groups of the rows, the first maximal entry holds
      the first maximal key. */
  lemma FirstMaxOfGroups(rows: seq<Row>, key: Row -> string, val: Row -> int, g: Groups<string>)
    requires Ascending(g, StrLess) && g != []
    requires forall i :: 0 <= i < |g| ==> g[i].0 in KeySet(rows, key) && g[i].1 == SumWhere(rows, key, val, g[i].0)
    requires forall r :: r in rows ==> key(r) in KeysOf(g)
    ensures IsFirstMaxKey(rows, key, val, g[FirstMax(g)].0)
  {
    var i := FirstMax(g);
    var k := g[i].0;
    assert k in KeySet(rows, key);
    forall x | x in rows
      ensures SumWhere(rows, key, val, key(x)) <= SumWhere(rows, key, val, k)
      ensures StrLess(key(x), k) ==> SumWhere(rows, key, val, key(x)) < SumWhere(rows, key, val, k)
    {
      var j :| 0 <= j < |g| && KeysOf(g)[j] == key(x);
      assert g[j].0 == key(x) && g[j].1 <= g[i].1;
      if i <= j {
        KeysNotBelow(g, i, j);
      }
    }
  }

  /** In an ascending table no later key is below an earlier one. */
  lemma KeysNotBelow(g: Groups<string>, i: nat, j: nat)
    requires Ascending(g, StrLess) && i <= j < |g|
    ensures !StrLess(g[j].0, g[i].0)
  {
    StrLessIrreflexive(g[i].0);
    if i < j && StrLess(g[j].0, g[i].0) {
      StrLessTransitive(g[i].0, g[j].0, g[i].0);
    }
  }

  /** Every row makes its key a group, so a non-empty table has a non-empty group-by. */
  lemma GroupsNonEmpty(rows: seq<Row>, key: Row -> string, val: Row -> int)
    requires StrictTotalOrder(StrLess)
    ensures GroupSum(rows, key, val, StrLess) == [] <==> rows == []
  {
    if rows != [] {
      GroupEntries(rows, key, val, StrLess);
      assert key(rows[0]) in KeysOf(GroupSum(rows, key, val, StrLess));
    }
  }

  /** `bulan_tertinggi`: the month label with the most units sold. */
  function BusiestMonth(rows: seq<Row>): (m: string)
    ensures rows == [] ==> m == NoData
    ensures rows != [] ==> IsFirstMaxKey(rows, MonthOf, QtyOf, m)
  {
    StrLessIsStrictTotal();
    GroupsNonEmpty(rows, MonthOf, QtyOf);
    GroupIdxMax(rows, MonthOf, QtyOf);
    IdxMax(QtyByMonth(rows))
  }

  /** `produk_terlaris`: the product with the most revenue. */
  function TopProduct(rows: seq<Row>): (p: string)
    ensures rows == [] ==> p == NoData
    ensures rows != [] ==> IsFirstMaxKey(rows, ProductOf, TotalOf, p)
  {
    StrLessIsStrictTotal();
    GroupsNonEmpty(rows, ProductOf, TotalOf);
    GroupIdxMax(rows, ProductOf, TotalOf);
    IdxMax(RevenueByProduct(rows))
  }

  /** `top_produk_jumlah`: the product with the most units sold. */
  function TopProductByQty(rows: seq<Row>): (p: string)
    ensures rows == [] ==> p == NoData
    ensures rows != [] ==> IsFirstMaxKey(rows, ProductOf, QtyOf, p)
  {
    StrLessIsStrictTotal();
    GroupsNonEmpty(rows, ProductOf, QtyOf);
    GroupIdxMax(rows, ProductOf, QtyOf);
    IdxMax(QtyByProduct(rows))
  }

  /** `pelanggan_loyal`: the head of the customer ranking, a customer with the
      largest spending (which one among equals is not promised). */
  function LoyalCustomer(rows: seq<Row>): (c: string)
    ensures rows == [] ==> c == NoData
    ensures rows != [] ==> IsMaxKey(rows, CustomerOf, TotalOf, c)
  {
    var loyal := LoyalCustomers(rows);
    if loyal == [] then
      NoData
    else
      RankingHeadIsMax(rows, CustomerOf, TotalOf, loyal);
      loyal[0].0
  }

  /** `top3_produk`: the names of the (at most) three products with the most revenue,
      largest first; no product left out has more revenue than one listed. */
  function Top3Products(rows: seq<Row>): (ps: seq<string>)
    ensures |ps| == Min(3, |KeySet(rows, ProductOf)|)
    ensures forall i :: 0 <= i < |ps| ==> ps[i] in KeySet(rows, ProductOf)
    ensures forall i, j :: 0 <= i < j < |ps| ==> ps[i] != ps[j]
    ensures forall i, j :: 0 <= i < j < |ps| ==>
              SumWhere(rows, ProductOf, TotalOf, ps[i]) >= SumWhere(rows, ProductOf, TotalOf, ps[j])
    ensures forall k, i :: k in KeySet(rows, ProductOf) && k !in ps && 0 <= i < |ps| ==>
              SumWhere(rows, ProductOf, TotalOf, k) <= SumWhere(rows, ProductOf, TotalOf, ps[i])
  {
    KeysOf(TopRevenueProducts(rows))
  }

  /** A table with rows has between one and three top products. */
  lemma Top3NotEmpty(rows: seq<Row>)
    requires rows != []
    ensures 1 <= |Top3Products(rows)| <= 3
  {
    assert ProductOf(rows[0]) in KeySet(rows, ProductOf);
  }

  /** `top_kategori`: the head of the category ranking sorted once more, a category
      with the most orders; "-" when there are none. */
  function TopCategory(rows: seq<Row>): (c: string)
    ensures rows == [] ==> c == "-"
    ensures rows != [] ==> IsMaxKey(rows, CategoryOf, One, c)
  {
    var rankCat := CategoriesByOrders(rows);
    if rankCat == [] then
      "-"
    else
      ResortedHeadIsMax(rows, CategoryOf, One, rankCat);
      Top(rankCat, 1)[0].0
  }

  /** Sorting a ranking once more and taking its head still gives a key with the
      largest total. */
  lemma ResortedHeadIsMax(rows: seq<Row>, key: Row -> string, val: Row -> int, r: Groups<string>)
    requires RanksGroups(rows, key, val, r) && r != []
    ensures |Top(r, 1)| == 1 && IsMaxKey(rows, key, val, Top(r, 1)[0].0)
  {
    var top := Top(r, 1);
    TopFirstIsMax(r, 1);
    var p :| 0 <= p < |r| && r[p] == top[0];
    RankingHeadIsMax(rows, key, val, r);
    assert r[0].1 <= r[p].1;
  }

  /** The weekday table's values in Monday..Sunday order. */
  function WeekdayValues(rows: seq<Row>): (vs: seq<Option<real>>)
    ensures |vs| == 7 && forall i :: 0 <= i < 7 ==> vs[i] == MeanOnWeekday(rows, i)
  {
    var t := WeekdayMeans(rows);
    seq(7, i requires 0 <= i < 7 => t[i].1)
  }

  /** `Series.idxmax()` skipping missing values: the first position with the largest
      present value, none when every value is missing. */
  function FirstMaxPresent(vs: seq<Option<real>>): (o: Option<nat>)
    ensures o.None? <==> forall j :: 0 <= j < |vs| ==> vs[j].None?
    ensures o.Some? ==> o.value < |vs| && vs[o.value].Some?
    ensures o.Some? ==> forall j :: 0 <= j < |vs| && vs[j].Some? ==> vs[j].value <= vs[o.value].value
    ensures o.Some? ==> forall j :: 0 <= j < o.value && vs[j].Some? ==> vs[j].value < vs[o.value].value
  {
    if vs == [] then None
    else
      var rest := FirstMaxPresent(vs[1..]);
      if rest.None? then (if vs[0].None? then None else Some(0))
      else if vs[0].Some? && vs[0].value >= vs[rest.value + 1].value then Some(0)
      else Some(rest.value + 1)
  }

  /** Weekday `i` has the largest mean of all weekdays with rows, and every earlier
      weekday with rows has a smaller one. */
  ghost predicate IsBusiestWeekday(rows: seq<Row>, i: nat) {
    && i < 7
    && MeanOnWeekday(rows, i).Some?
    && (forall j :: 0 <= j < 7 && MeanOnWeekday(rows, j).Some? ==>
          MeanOnWeekday(rows, j).value <= MeanOnWeekday(rows, i).value)
    && (forall j :: 0 <= j < i && MeanOnWeekday(rows, j).Some? ==>
          MeanOnWeekday(rows, j).value < MeanOnWeekday(rows, i).value)
  }

  /** Every weekday is missing exactly when there are no rows at all. */
  lemma AllWeekdaysMissing(rows: seq<Row>)
    ensures (forall i :: 0 <= i < 7 ==> MeanOnWeekday(rows, i).None?) <==> rows == []
  {
    forall i | 0 <= i < 7 ensures MeanOnWeekday(rows, i).None? <==> forall r :: r in rows ==> Weekday(r.date) != i {
      MeanOnWeekdayAbsent(rows, i);
    }
    if rows != [] {
      var w := Weekday(rows[0].date);
      assert rows[0] in rows;
      assert MeanOnWeekday(rows, w).Some?;
    }
  }

  /** The position of the busiest weekday in the table, if any weekday has rows. */
  function BusiestWeekday(rows: seq<Row>): (o: Option<nat>)
    ensures o.None? <==> rows == []
    ensures o.Some? ==> IsBusiestWeekday(rows, o.value)
  {
    AllWeekdaysMissing(rows);
    FirstMaxPresent(WeekdayValues(rows))
  }

  /** `hari_terbanyak` as intended: the name of the busiest weekday, or the fallback
      "-" when the view has no rows. */
  function BusiestDay(rows: seq<Row>): (d: string)
    ensures rows == [] ==> d == "-"
    ensures rows != [] ==> exists i :: 0 <= i < 7 && d == DayNames[i] && IsBusiestWeekday(rows, i)
  {
    match BusiestWeekday(rows)
    case None => "-"
    case Some(i) => DayNames[i]
  }

  /** `hari_terbanyak` as written: the guard tests whether the reindexed weekday table
      is empty, which it never is (it always has seven rows), and `idxmax` over a
      table whose every value is missing yields no row label, so the lookup raises.
      The fallback "-" is never produced, and a view without rows fails. */
  function BusiestDayAsWritten(rows: seq<Row>): (r: Result<string>)
    ensures r.Failure? <==> rows == []
    ensures r != Success("-")
    ensures r.Success? ==> r.value == BusiestDay(rows)
  {
    var table := WeekdayMeans(rows);
    var busiest := BusiestWeekday(rows);
    NoDayNamedDash();
    if |table| == 0 then Success("-")
    else
      match busiest
      case None => Failure("idxmax of an all-missing weekday table has no row label")
      case Some(i) => Success(DayNames[i])
  }

  /** An empty view, reached by deselecting every category or picking a range without
      sales, makes the insight section fail as written, where "-" was intended. */
  lemma EmptyViewFailsAsWritten()
    ensures BusiestDayAsWritten([]).Failure?
    ensures BusiestDay([]) == "-"
  {
  }

  /** `hari_tersibuk_value`: the largest weekday mean, skipping missing weekdays. */
  function BusiestDayMean(rows: seq<Row>): (v: Option<real>)
    ensures v.None? <==> rows == []
    ensures v.Some? ==> exists i :: 0 <= i < 7 && MeanOnWeekday(rows, i) == v
    ensures v.Some? ==> forall j :: 0 <= j < 7 && MeanOnWeekday(rows, j).Some? ==> MeanOnWeekday(rows, j).value <= v.value
  {
    match BusiestWeekday(rows)
    case None => None
    case Some(i) => WeekdayValues(rows)[i]
  }

  /** The total and the number of the present values. */
  function PresentSum(vs: seq<Option<real>>): real
  {
    if vs == [] then 0.0 else (if vs[0].Some? then vs[0].value else 0.0) + PresentSum(vs[1..])
  }

  function PresentCount(vs: seq<Option<real>>): nat
  {
    if vs == [] then 0 else (if vs[0].Some? then 1 else 0) + PresentCount(vs[1..])
  }

  lemma {:induction false} PresentCountZero(vs: seq<Option<real>>)
    ensures PresentCount(vs) == 0 <==> forall j :: 0 <= j < |vs| ==> vs[j].None?
  {
    if vs != [] {
      PresentCountZero(vs[1..]);
      assert forall j :: 1 <= j < |vs| ==> vs[j] == vs[1..][j - 1];
    }
  }

  /** Present values of at most `hi` add up to at most `hi` times their number. */
  lemma {:induction false} PresentSumAtMost(vs: seq<Option<real>>, hi: real)
    requires forall j :: 0 <= j < |vs| && vs[j].Some? ==> vs[j].value <= hi
    ensures PresentSum(vs) <= hi * PresentCount(vs) as real
  {
    if vs != [] {
      assert forall j :: 0 <= j < |vs[1..]| ==> vs[1..][j] == vs[j + 1];
      PresentSumAtMost(vs[1..], hi);
    }
  }

  /** Present values of at least `lo` add up to at least `lo` times their number. */
  lemma {:induction false} PresentSumAtLeast(vs: seq<Option<real>>, lo: real)
    requires forall j :: 0 <= j < |vs| && vs[j].Some? ==> lo <= vs[j].value
    ensures lo * PresentCount(vs) as real <= PresentSum(vs)
  {
    if vs != [] {
      assert forall j :: 0 <= j < |vs[1..]| ==> vs[1..][j] == vs[j + 1];
      PresentSumAtLeast(vs[1..], lo);
    }
  }

  /** `Series.mean()` skipping missing values: none when every value is missing. */
  function MeanOfPresent(vs: seq<Option<real>>): (m: Option<real>)
    ensures m.None? <==> forall j :: 0 <= j < |vs| ==> vs[j].None?
    ensures m.Some? ==> m.value * (PresentCount(vs) as real) == PresentSum(vs)
  {
    PresentCountZero(vs);
    if PresentCount(vs) == 0 then None
    else
      var n := PresentCount(vs) as real;
      assert (PresentSum(vs) / n) * n == PresentSum(vs);
      Some(PresentSum(vs) / n)
  }

  /** The mean of the present values is at most any bound on them. */
  lemma MeanOfPresentAtMost(vs: seq<Option<real>>, hi: real)
    requires forall j :: 0 <= j < |vs| && vs[j].Some? ==> vs[j].value <= hi
    ensures MeanOfPresent(vs).Some? ==> MeanOfPresent(vs).value <= hi
  {
    if MeanOfPresent(vs).Some? {
      PresentSumAtMost(vs, hi);
      QuotientAtMost(PresentSum(vs), PresentCount(vs) as real, hi);
    }
  }

  /** The mean of the present values is at least any bound under them. */
  lemma MeanOfPresentAtLeast(vs: seq<Option<real>>, lo: real)
    requires forall j :: 0 <= j < |vs| && vs[j].Some? ==> lo <= vs[j].value
    ensures MeanOfPresent(vs).Some? ==> lo <= MeanOfPresent(vs).value
  {
    if MeanOfPresent(vs).Some? {
      PresentSumAtLeast(vs, lo);
      QuotientAtLeast(PresentSum(vs), PresentCount(vs) as real, lo);
    }
  }

  lemma QuotientAtMost(s: real, n: real, hi: real)
    requires n > 0.0 && s <= hi * n
    ensures s / n <= hi
  {
    var q := s / n;
    assert q * n == s;
    if q > hi { assert q * n > hi * n; }
  }

  lemma QuotientAtLeast(s: real, n: real, lo: real)
    requires n > 0.0 && lo * n <= s
    ensures lo <= s / n
  {
    var q := s / n;
    assert q * n == s;
    if q < lo { assert q * n < lo * n; }
  }

  /** `transaksi_harian`: the mean of the weekday table, skipping missing weekdays:
      the sum of the means of the weekdays with rows over the number of those
      weekdays. With no rows every weekday is missing and so is the mean. */
  function DailyMean(rows: seq<Row>): (m: Option<real>)
    ensures m.None? <==> rows == []
    ensures m.Some? ==> PresentCount(WeekdayValues(rows)) > 0
    ensures m.Some? ==> m.value == PresentSum(WeekdayValues(rows)) / (PresentCount(WeekdayValues(rows)) as real)
  {
    AllWeekdaysMissing(rows);
    PresentCountZero(WeekdayValues(rows));
    MeanOfPresent(WeekdayValues(rows))
  }

  /** The daily mean lies between the smallest and the largest weekday mean: at most
      any upper bound of them and at least any lower bound. */
  lemma DailyMeanWithin(rows: seq<Row>, lo: real, hi: real)
    requires rows != []
    requires forall i :: 0 <= i < 7 && MeanOnWeekday(rows, i).Some? ==> lo <= MeanOnWeekday(rows, i).value <= hi
    ensures lo <= DailyMean(rows).value <= hi
  {
    var vs := WeekdayValues(rows);
    assert forall j :: 0 <= j < |vs| && vs[j].Some? ==> lo <= vs[j].value <= hi;
    MeanOfPresentAtMost(vs, hi);
    MeanOfPresentAtLeast(vs, lo);
  }

  /** The daily mean never exceeds the busiest weekday's mean. */
  lemma DailyMeanAtMostBusiest(rows: seq<Row>)
    ensures rows != [] ==> DailyMean(rows).value <= BusiestDayMean(rows).value
  {
    if rows != [] {
      MeanAtMostLargest(WeekdayValues(rows));
    }
  }

  /** The mean of the present values is at most the largest of them. */
  lemma MeanAtMostLargest(vs: seq<Option<real>>)
    requires FirstMaxPresent(vs).Some?
    ensures MeanOfPresent(vs).Some?
    ensures MeanOfPresent(vs).value <= vs[FirstMaxPresent(vs).value].value
  {
    MeanOfPresentAtMost(vs, vs[FirstMaxPresent(vs).value].value);
  }
}
