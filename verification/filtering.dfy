/** The dashboard filter: an inclusive date range, a category selection and an
    optional customer selection, applied to the date-ordered table. */
module Filtering {
  import opened Transactions
  import opened Masks

  /** What the three filter widgets hold. The date widget yields zero, one or two
      dates while the user is still picking; only two endpoints filter. */
  datatype Selection = Selection(dateRange: seq<int>, categories: seq<string>, customers: seq<string>)

  /** Whether a row passes all three conditions for a range `start..end`
      (`Series.between` is inclusive at both ends). An empty customer selection
      means "all customers"; an empty category selection admits nothing. */
  predicate Admits(start: int, end: int, categories: seq<string>, customers: seq<string>, r: Row)
  {
    && start <= r.date <= end
    && r.category in categories
    && (customers == [] || r.customer in customers)
  }

  /** The first mask: `df["Tanggal"].between(start, end) & df["Kategori"].isin(categories)`. */
  function DateAndCategoryMask(start: int, end: int, categories: seq<string>): Row -> bool
  {
    (x: Row) => start <= x.date <= end && x.category in categories
  }

  /** The second mask: `filtered_df["Nama Customer"].isin(customers)`. */
  function CustomerMask(customers: seq<string>): Row -> bool
  {
    (x: Row) => x.customer in customers
  }

  function AdmitsMask(start: int, end: int, categories: seq<string>, customers: seq<string>): Row -> bool
  {
    (x: Row) => Admits(start, end, categories, customers, x)
  }

  /** The filtered table: date and category first, then customers if any are chosen;
      a selection that does not have exactly two dates leaves the table as it is.
      With two endpoints the two-stage filter is the single mask `Admits`. */
  function Apply(rows: seq<Row>, sel: Selection): (view: seq<Row>)
    ensures |sel.dateRange| != 2 ==> view == rows
    ensures |sel.dateRange| == 2 ==>
              view == Where(rows, AdmitsMask(sel.dateRange[0], sel.dateRange[1], sel.categories, sel.customers))
  {
    if |sel.dateRange| == 2 then
      var start, end, categories, customers := sel.dateRange[0], sel.dateRange[1], sel.categories, sel.customers;
      var byDateAndCategory := Where(rows, DateAndCategoryMask(start, end, categories));
      TwoStagesAreOneMask(rows, start, end, categories, customers);
      if customers != [] then Where(byDateAndCategory, CustomerMask(customers))
      else byDateAndCategory
    else rows
  }

  lemma TwoStagesAreOneMask(rows: seq<Row>, start: int, end: int, categories: seq<string>, customers: seq<string>)
    ensures customers != [] ==>
              Where(Where(rows, DateAndCategoryMask(start, end, categories)), CustomerMask(customers))
              == Where(rows, AdmitsMask(start, end, categories, customers))
    ensures customers == [] ==>
              Where(rows, DateAndCategoryMask(start, end, categories))
              == Where(rows, AdmitsMask(start, end, categories, customers))
  {
    var p := DateAndCategoryMask(start, end, categories);
    var admits := AdmitsMask(start, end, categories, customers);
    if customers != [] {
      var q := CustomerMask(customers);
      WhereWhere(rows, p, q);
      WhereExtensional(rows, x => p(x) && q(x), admits);
    } else {
      WhereExtensional(rows, p, admits);
    }
  }

  /** With two endpoints the result keeps exactly the admitted rows: every admitted
      occurrence, nothing else, in the original relative order. */
  lemma FilterKeepsExactly(rows: seq<Row>, sel: Selection)
    requires |sel.dateRange| == 2
    ensures IsSubsequence(Apply(rows, sel), rows)
    ensures forall x :: multiset(Apply(rows, sel))[x]
                     == if Admits(sel.dateRange[0], sel.dateRange[1], sel.categories, sel.customers, x)
                        then multiset(rows)[x] else 0
  {
  }

  /** A date selection without exactly two endpoints filters nothing at all. */
  lemma IncompleteRangeKeepsAll(rows: seq<Row>, sel: Selection)
    requires |sel.dateRange| != 2
    ensures Apply(rows, sel) == rows
  {
  }

  /** No customer selection is the same as selecting every customer of the table. */
  lemma NoCustomersMeansAll(rows: seq<Row>, sel: Selection)
    requires |sel.dateRange| == 2 && sel.customers == []
    ensures Apply(rows, sel) == Apply(rows, sel.(customers := CustomerNames(rows)))
  {
    var all := sel.(customers := CustomerNames(rows));
    WhereExtensional(rows,
      AdmitsMask(sel.dateRange[0], sel.dateRange[1], sel.categories, sel.customers),
      AdmitsMask(all.dateRange[0], all.dateRange[1], all.categories, all.customers));
  }

  /** Choosing customers only ever narrows the date-and-category result. */
  lemma CustomerSelectionNarrows(rows: seq<Row>, sel: Selection)
    requires |sel.dateRange| == 2
    ensures IsSubsequence(Apply(rows, sel), Apply(rows, sel.(customers := [])))
    ensures forall i :: 0 <= i < |Apply(rows, sel)| ==>
              sel.customers == [] || Apply(rows, sel)[i].customer in sel.customers
  {
    if sel.customers == [] {
      SubsequenceRefl(Apply(rows, sel));
    }
  }

  /** An empty category selection (the widget pre-selects all of them) admits nothing. */
  lemma NoCategoriesSelectNothing(rows: seq<Row>, sel: Selection)
    requires |sel.dateRange| == 2 && sel.categories == []
    ensures Apply(rows, sel) == []
  {
    WhereNone(rows, AdmitsMask(sel.dateRange[0], sel.dateRange[1], sel.categories, sel.customers));
  }

  /** A range whose start lies after its end admits nothing. */
  lemma ReversedRangeSelectsNothing(rows: seq<Row>, sel: Selection)
    requires |sel.dateRange| == 2 && sel.dateRange[0] > sel.dateRange[1]
    ensures Apply(rows, sel) == []
  {
    WhereNone(rows, AdmitsMask(sel.dateRange[0], sel.dateRange[1], sel.categories, sel.customers));
  }

  /** The distinct customer names in first-appearance order (`unique().tolist()`):
      each customer of the table once, and nothing else. */
  function CustomerNames(rows: seq<Row>): (names: seq<string>)
    ensures forall i, j :: 0 <= i < j < |names| ==> names[i] != names[j]
    ensures forall x :: x in rows ==> x.customer in names
    ensures forall n :: n in names ==> exists x :: x in rows && x.customer == n
    decreases |rows|
  {
    if rows == [] then []
    else
      var init, last := rows[..|rows| - 1], rows[|rows| - 1];
      assert rows == init + [last];
      var names := CustomerNames(init);
      if last.customer in names then names else names + [last.customer]
  }

  /** A mask keeps a date-ordered table in date order. */
  lemma {:induction false} WhereKeepsDateOrder(rows: seq<Row>, keep: Row -> bool)
    requires SortedByDate(rows)
    ensures SortedByDate(Where(rows, keep))
    decreases |rows|
  {
    if rows != [] {
      var init, last := rows[..|rows| - 1], rows[|rows| - 1];
      WhereKeepsDateOrder(init, keep);
      var w := Where(init, keep);
      forall x | x in w ensures x.date <= last.date {
        assert multiset(w)[x] > 0;
        assert x in multiset(init);
        var k :| 0 <= k < |init| && init[k] == x;
        assert rows[k] == x;
      }
      if keep(last) {
        var w' := w + [last];
        forall i, j | 0 <= i < j < |w'| ensures w'[i].date <= w'[j].date {
          if j == |w| { assert w'[i] in w; }
        }
      }
    }
  }

  /** Filtering the date-ordered table gives a date-ordered view. */
  lemma FilterKeepsDateOrder(rows: seq<Row>, sel: Selection)
    requires SortedByDate(rows)
    ensures SortedByDate(Apply(rows, sel))
  {
    if |sel.dateRange| == 2 {
      var p := DateAndCategoryMask(sel.dateRange[0], sel.dateRange[1], sel.categories);
      WhereKeepsDateOrder(rows, p);
      WhereKeepsDateOrder(Where(rows, p), CustomerMask(sel.customers));
    }
  }

  /** Which rows the view holds depends only on which rows the table holds, not on
      their order (so not on how the date sort broke ties). */
  lemma FilterIgnoresOrder(a: seq<Row>, b: seq<Row>, sel: Selection)
    requires multiset(a) == multiset(b)
    ensures multiset(Apply(a, sel)) == multiset(Apply(b, sel))
  {
    if |sel.dateRange| == 2 {
      FilterKeepsExactly(a, sel);
      FilterKeepsExactly(b, sel);
    }
  }
}
