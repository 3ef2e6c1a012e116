/** The grouped tables behind the dashboard's charts, each computed from the
    filtered rows. */
module Aggregates {
  import opened Wrappers
  import opened Orders
  import opened Transactions
  import opened Calendar
  import opened Grouping
  import opened Metrics
  import opened Masks

  /** The `Bulan` column: the "YYYY-MM" label of the row's date. */
  function MonthOf(r: Row): string { MonthLabel(r.date) }

  /** The `Hari` column: the English day name of the row's date. */
  function DayOf(r: Row): string { DayName(r.date) }

  /** Revenue per product (`pie1`); the slices add up to the revenue. */
  function RevenueByProduct(rows: seq<Row>): (g: Groups<string>)
    ensures Ascending(g, StrLess)
    ensures Total(g) == Revenue(rows)
    ensures forall k :: Lookup(g, k) == if k in KeySet(rows, ProductOf) then Some(SumWhere(rows, ProductOf, TotalOf, k)) else None
  {
    StrLessIsStrictTotal();
    GroupSum(rows, ProductOf, TotalOf, StrLess)
  }

  /** Quantity per product (`pie2`, and `rank_qty` before ranking); the slices add
      up to the quantity sold. */
  function QtyByProduct(rows: seq<Row>): (g: Groups<string>)
    ensures Ascending(g, StrLess)
    ensures Total(g) == Sum(rows, QtyOf)
    ensures forall k :: Lookup(g, k) == if k in KeySet(rows, ProductOf) then Some(SumWhere(rows, ProductOf, QtyOf, k)) else None
  {
    StrLessIsStrictTotal();
    GroupSum(rows, ProductOf, QtyOf, StrLess)
  }

  /** A count per group is positive for every group that occurs. */
  lemma CountsPositive<K>(rows: seq<Row>, key: Row -> K)
    ensures forall k :: k in KeySet(rows, key) ==> SumWhere(rows, key, One, k) >= 1
  {
    forall k | k in KeySet(rows, key) ensures SumWhere(rows, key, One, k) >= 1 {
      CountPositive(rows, key, k);
    }
  }

  /** Orders per category (`groupby("Kategori")["Jumlah"].count()`): every category
      present has at least one order and the counts add up to the order count. */
  function OrdersByCategory(rows: seq<Row>): (g: Groups<string>)
    ensures Ascending(g, StrLess)
    ensures Total(g) == |rows|
    ensures forall i :: 0 <= i < |g| ==> g[i].1 >= 1
    ensures forall k :: Lookup(g, k) == if k in KeySet(rows, CategoryOf) then Some(SumWhere(rows, CategoryOf, One, k)) else None
  {
    StrLessIsStrictTotal();
    SumOfOnes(rows);
    GroupEntries(rows, CategoryOf, One, StrLess);
    CountsPositive(rows, CategoryOf);
    GroupSum(rows, CategoryOf, One, StrLess)
  }

  lemma {:induction false} SumOfOnes(rows: seq<Row>)
    ensures Sum(rows, One) == |rows|
    decreases |rows|
  {
    if rows != [] { SumOfOnes(rows[..|rows| - 1]); }
  }

  /** Spending per customer (the `loyal` ranking before sorting); adds up to the revenue. */
  function SpendByCustomer(rows: seq<Row>): (g: Groups<string>)
    ensures Ascending(g, StrLess)
    ensures Total(g) == Revenue(rows)
    ensures forall k :: Lookup(g, k) == if k in KeySet(rows, CustomerOf) then Some(SumWhere(rows, CustomerOf, TotalOf, k)) else None
  {
    StrLessIsStrictTotal();
    GroupSum(rows, CustomerOf, TotalOf, StrLess)
  }

  /** Quantity per date (`df_daily`), in date order. */
  function QtyByDate(rows: seq<Row>): (g: Groups<int>)
    ensures Ascending(g, IntLess)
    ensures Total(g) == Sum(rows, QtyOf)
    ensures forall k :: Lookup(g, k) == if k in KeySet(rows, DateOf) then Some(SumWhere(rows, DateOf, QtyOf, k)) else None
  {
    IntLessIsStrictTotal();
    GroupSum(rows, DateOf, QtyOf, IntLess)
  }

  /** Quantity per "YYYY-MM" month label (`monthly_order`), in label order. */
  function QtyByMonth(rows: seq<Row>): (g: Groups<string>)
    ensures Ascending(g, StrLess)
    ensures Total(g) == Sum(rows, QtyOf)
    ensures forall k :: Lookup(g, k) == if k in KeySet(rows, MonthOf) then Some(SumWhere(rows, MonthOf, QtyOf, k)) else None
  {
    StrLessIsStrictTotal();
    GroupSum(rows, MonthOf, QtyOf, StrLess)
  }

  /** A mean from a group's sum and count; a missing group has no mean (NaN). */
  function Mean(sum: Option<int>, count: Option<int>): (m: Option<real>)
    ensures m.Some? <==> sum.Some? && count.Some? && count.value != 0
    ensures m.Some? ==> m.value * (count.value as real) == sum.value as real
  {
    if sum.Some? && count.Some? && count.value != 0 then
      var q := sum.value as real / count.value as real;
      assert q * (count.value as real) == sum.value as real;
      Some(q)
    else None
  }

  function OnWeekday(i: nat): Row -> bool
  {
    (r: Row) => Weekday(r.date) == i
  }

  /** The reference definition of one weekday's value: the mean quantity over the
      rows falling on weekday `i` (0 = Monday), or no value when there are none. */
  ghost function MeanOnWeekday(rows: seq<Row>, i: nat): Option<real>
  {
    var onDay := Where(rows, OnWeekday(i));
    if onDay == [] then None else Some(Sum(onDay, QtyOf) as real / |onDay| as real)
  }

  /** `df_day_avg`: the weekday means reindexed to Monday..Sunday. All seven days
      are always present, each with the mean of its rows. */
  function WeekdayMeans(rows: seq<Row>): (t: seq<(string, Option<real>)>)
    ensures |t| == 7
    ensures forall i :: 0 <= i < 7 ==> t[i].0 == DayNames[i] && t[i].1 == MeanOnWeekday(rows, i)
  {
    StrLessIsStrictTotal();
    var sums := GroupSum(rows, DayOf, QtyOf, StrLess);
    var counts := GroupSum(rows, DayOf, One, StrLess);
    WeekdayMeansAgree(rows);
    seq(7, i requires 0 <= i < 7 => (DayNames[i], Mean(Lookup(sums, DayNames[i]), Lookup(counts, DayNames[i]))))
  }

  lemma WeekdayMeansAgree(rows: seq<Row>)
    requires StrictTotalOrder(StrLess)
    ensures forall i :: 0 <= i < 7 ==>
              Mean(Lookup(GroupSum(rows, DayOf, QtyOf, StrLess), DayNames[i]),
                   Lookup(GroupSum(rows, DayOf, One, StrLess), DayNames[i]))
              == MeanOnWeekday(rows, i)
  {
    forall i | 0 <= i < 7
      ensures Mean(Lookup(GroupSum(rows, DayOf, QtyOf, StrLess), DayNames[i]),
                   Lookup(GroupSum(rows, DayOf, One, StrLess), DayNames[i]))
              == MeanOnWeekday(rows, i)
    {
      WeekdayMeanAt(rows, i);
    }
  }

  /** The grouped-and-reindexed value of one weekday is the mean of its rows. */
  lemma WeekdayMeanAt(rows: seq<Row>, i: nat)
    requires i < 7 && StrictTotalOrder(StrLess)
    ensures Mean(Lookup(GroupSum(rows, DayOf, QtyOf, StrLess), DayNames[i]),
                 Lookup(GroupSum(rows, DayOf, One, StrLess), DayNames[i]))
            == MeanOnWeekday(rows, i)
  {
    var name := DayNames[i];
    var onDay := Where(rows, OnWeekday(i));
    DayNamesDistinct();
    forall r ensures OnWeekday(i)(r) == (DayOf(r) == name) {
    }
    SumWhereIsSumOfWhere(rows, DayOf, QtyOf, name, OnWeekday(i));
    SumWhereIsSumOfWhere(rows, DayOf, One, name, OnWeekday(i));
    SumOfOnes(onDay);
    DayPresent(rows, i);
    if onDay == [] {
      forall r | r in rows ensures Weekday(r.date) != i {
        assert multiset(onDay)[r] == 0;
      }
    } else {
      assert onDay[0] in multiset(onDay);
    }
  }

  /** A group's total is the total of the rows a mask on its key selects. */
  lemma {:induction false} SumWhereIsSumOfWhere<K>(rows: seq<Row>, key: Row -> K, val: Row -> int, k: K, p: Row -> bool)
    requires forall r :: p(r) == (key(r) == k)
    ensures SumWhere(rows, key, val, k) == Sum(Where(rows, p), val)
    decreases |rows|
  {
    if rows != [] {
      var init := rows[..|rows| - 1];
      SumWhereIsSumOfWhere(init, key, val, k, p);
      var w := Where(init, p);
      if p(rows[|rows| - 1]) {
        assert (w + [rows[|rows| - 1]])[..|w|] == w;
      }
    }
  }

  /** A weekday has no value exactly when no row falls on it. */
  lemma MeanOnWeekdayAbsent(rows: seq<Row>, i: nat)
    requires i < 7
    ensures MeanOnWeekday(rows, i).None? <==> forall r :: r in rows ==> Weekday(r.date) != i
  {
    var onDay := Where(rows, OnWeekday(i));
    if onDay == [] {
      forall r | r in rows ensures Weekday(r.date) != i {
        assert multiset(onDay)[r] == 0;
      }
    } else {
      assert onDay[0] in multiset(onDay);
      assert OnWeekday(i)(onDay[0]);
    }
  }

  /** A weekday's value times its row count is its quantity total. */
  lemma MeanOnWeekdayTimesCount(rows: seq<Row>, i: nat)
    requires MeanOnWeekday(rows, i).Some?
    ensures MeanOnWeekday(rows, i).value * (|Where(rows, OnWeekday(i))| as real)
            == Sum(Where(rows, OnWeekday(i)), QtyOf) as real
  {
    var onDay := Where(rows, OnWeekday(i));
    RealMean(Sum(onDay, QtyOf), |onDay|);
  }

  lemma RealMean(s: int, n: nat)
    requires n > 0
    ensures (s as real / n as real) * (n as real) == s as real
  {
  }

  /** A weekday's name is a group key exactly when some row falls on that weekday. */
  lemma DayPresent(rows: seq<Row>, i: nat)
    requires i < 7
    ensures DayNames[i] in KeySet(rows, DayOf) <==> exists r :: r in rows && Weekday(r.date) == i
  {
    DayNamesDistinct();
    if DayNames[i] in KeySet(rows, DayOf) {
      var r :| r in rows && DayOf(r) == DayNames[i];
      assert Weekday(r.date) == i;
    }
    if exists r :: r in rows && Weekday(r.date) == i {
      var r :| r in rows && Weekday(r.date) == i;
      assert DayOf(r) == DayNames[i];
    }
  }

  lemma DayNamesDistinct()
    ensures forall i, j :: 0 <= i < 7 && 0 <= j < 7 && i != j ==> DayNames[i] != DayNames[j]
  {
  }
}
