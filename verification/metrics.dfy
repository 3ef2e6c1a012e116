/** The five headline numbers shown above the charts and repeated in the insight
    text: revenue (Omset), order count, distinct customers, average order value
    and distinct products sold. */
module Metrics {
  import opened Transactions

  /** `filtered_df["Total"].sum()`. */
  function Revenue(rows: seq<Row>): int
  {
    Sum(rows, TotalOf)
  }

  /** The distinct values of a text column. */
  function Names(rows: seq<Row>, col: Row -> string): set<string>
  {
    set r | r in rows :: col(r)
  }

  /** `nunique()`: a non-empty table has at least one and at most one per row. */
  lemma {:induction false} NamesBounds(rows: seq<Row>, col: Row -> string)
    ensures |Names(rows, col)| <= |rows|
    ensures rows != [] ==> |Names(rows, col)| >= 1
    decreases |rows|
  {
    if rows != [] {
      var init, last := rows[..|rows| - 1], rows[|rows| - 1];
      assert rows == init + [last];
      assert Names(rows, col) == Names(init, col) + {col(last)};
      NamesBounds(init, col);
    }
  }

  lemma NamesPermutation(a: seq<Row>, b: seq<Row>, col: Row -> string)
    requires multiset(a) == multiset(b)
    ensures Names(a, col) == Names(b, col)
  {
    forall r | r in a ensures r in b { assert r in multiset(a); }
    forall r | r in b ensures r in a { assert r in multiset(b); }
  }

  /** The average order value: the mean of `Total`, and exactly 0 (not NaN) for
      an empty table. */
  function AverageOrderValue(rows: seq<Row>): (aov: real)
    ensures rows == [] ==> aov == 0.0
    ensures rows != [] ==> aov * (|rows| as real) == Revenue(rows) as real
  {
    if rows == [] then 0.0 else Revenue(rows) as real / |rows| as real
  }

  lemma {:induction false} SumWithin(rows: seq<Row>, lo: int, hi: int)
    requires forall r :: r in rows ==> lo <= r.total <= hi
    ensures lo * |rows| <= Revenue(rows) <= hi * |rows|
    decreases |rows|
  {
    if rows != [] {
      var init, last := rows[..|rows| - 1], rows[|rows| - 1];
      assert forall r :: r in init ==> r in rows;
      SumWithin(init, lo, hi);
      assert last in rows;
      assert Revenue(rows) == Revenue(init) + last.total;
      BoundsStep(Revenue(init), |init|, last.total, lo, hi);
    }
  }

  lemma BoundsStep(s: int, n: nat, v: int, lo: int, hi: int)
    requires lo * n <= s <= hi * n && lo <= v <= hi
    ensures lo * (n + 1) <= s + v <= hi * (n + 1)
  {
    assert lo * (n + 1) == lo * n + lo;
    assert hi * (n + 1) == hi * n + hi;
  }

  /** The average order value lies between the smallest and the largest `Total`. */
  lemma AverageWithin(rows: seq<Row>, lo: int, hi: int)
    requires rows != []
    requires forall r :: r in rows ==> lo <= r.total <= hi
    ensures lo as real <= AverageOrderValue(rows) <= hi as real
  {
    SumWithin(rows, lo, hi);
    var n := |rows| as real;
    var aov := AverageOrderValue(rows);
    assert aov * n == Revenue(rows) as real;
    assert lo as real * n <= aov * n;
    assert aov * n <= hi as real * n;
  }

  datatype Summary = Summary(revenue: int, orders: nat, customers: nat, averageOrder: real, products: nat)

  /** The summary row: revenue, order count, `nunique()` of customers and products,
      and the average order value. */
  function Summarize(rows: seq<Row>): (s: Summary)
    ensures s.revenue == Sum(rows, TotalOf) && s.orders == |rows|
    ensures s.customers == |set r | r in rows :: r.customer| && s.products == |set r | r in rows :: r.product|
    ensures s.averageOrder == AverageOrderValue(rows)
    ensures s.averageOrder * (s.orders as real) == s.revenue as real
    ensures s.customers <= s.orders && s.products <= s.orders
    ensures rows != [] ==> s.customers >= 1 && s.products >= 1
    ensures rows == [] ==> s == Summary(0, 0, 0, 0.0, 0)
  {
    NamesBounds(rows, CustomerOf);
    NamesBounds(rows, ProductOf);
    NamesOfColumns(rows);
    Summary(Revenue(rows), |rows|, |Names(rows, CustomerOf)|, AverageOrderValue(rows), |Names(rows, ProductOf)|)
  }

  lemma NamesOfColumns(rows: seq<Row>)
    ensures Names(rows, CustomerOf) == set r | r in rows :: r.customer
    ensures Names(rows, ProductOf) == set r | r in rows :: r.product
  {
  }

  /** The summary depends only on which rows were kept, not on their order. */
  lemma SummaryIgnoresOrder(a: seq<Row>, b: seq<Row>)
    requires multiset(a) == multiset(b)
    ensures Summarize(a) == Summarize(b)
  {
    assert |a| == |multiset(a)| == |b|;
    SumPermutation(a, b, TotalOf);
    NamesPermutation(a, b, CustomerOf);
    NamesPermutation(a, b, ProductOf);
  }
}
