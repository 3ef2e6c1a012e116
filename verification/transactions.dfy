/** One row of the uploaded sales table and the preprocessing step that puts the
    table in date order. */
module Transactions {

  /** A transaction: `Tanggal` (as a day number, see Calendar), `Nama Customer`,
      `Nama Produk`, `Kategori`, `Jumlah` (quantity), `Harga` (unit price) and
      `Total`. Rupiah amounts are whole numbers. `Total` is taken as given, never
      recomputed from quantity and price. */
  datatype Row = Row(
    date: int,
    customer: string,
    product: string,
    category: string,
    qty: int,
    price: int,
    total: int)

  // Column accessors, passed to the generic mask, group-by and sum.
  function DateOf(r: Row): int { r.date }
  function CustomerOf(r: Row): string { r.customer }
  function ProductOf(r: Row): string { r.product }
  function CategoryOf(r: Row): string { r.category }
  function QtyOf(r: Row): int { r.qty }
  function TotalOf(r: Row): int { r.total }
  function One(r: Row): int { 1 }

  /** `rows[column].sum()`: the column total, 0 for no rows. */
  function Sum(rows: seq<Row>, val: Row -> int): int
  {
    if rows == [] then 0 else Sum(rows[..|rows| - 1], val) + val(rows[|rows| - 1])
  }

  lemma {:induction false} SumAppend(a: seq<Row>, b: seq<Row>, val: Row -> int)
    ensures Sum(a + b, val) == Sum(a, val) + Sum(b, val)
    decreases |b|
  {
    if b == [] {
      assert a + b == a;
    } else {
      var b' := b[..|b| - 1];
      assert (a + b)[..|a + b| - 1] == a + b';
      assert (a + b)[|a + b| - 1] == b[|b| - 1];
      SumAppend(a, b', val);
    }
  }

  /** Taking one row out of a table takes its value out of the total. */
  lemma SumRemove(b: seq<Row>, k: nat, val: Row -> int)
    requires k < |b|
    ensures Sum(b, val) == Sum(b[..k] + b[k + 1..], val) + val(b[k])
  {
    var x := b[k];
    assert b == b[..k] + ([x] + b[k + 1..]);
    SumAppend(b[..k], [x] + b[k + 1..], val);
    SumAppend([x], b[k + 1..], val);
    SumAppend(b[..k], b[k + 1..], val);
    assert Sum([x], val) == val(x) by { assert [x][..0] == []; }
  }

  /** A column total does not depend on the order of the rows. */
  lemma {:induction false} SumPermutation(a: seq<Row>, b: seq<Row>, val: Row -> int)
    requires multiset(a) == multiset(b)
    ensures Sum(a, val) == Sum(b, val)
    decreases |a|
  {
    if a == [] {
      assert |b| == |multiset(b)| == 0;
    } else {
      var x := a[|a| - 1];
      var a' := a[..|a| - 1];
      assert a == a' + [x];
      assert x in multiset(b);
      var k :| 0 <= k < |b| && b[k] == x;
      MultisetRemove(b, k);
      SumRemove(b, k, val);
      SumPermutation(a', b[..k] + b[k + 1..], val);
    }
  }

  ghost predicate SortedByDate(s: seq<Row>) {
    forall i, j :: 0 <= i < j < |s| ==> s[i].date <= s[j].date
  }

  /** `df.sort_values("Tanggal", inplace=True)`: the table becomes a permutation of
      itself in non-decreasing date order. Rows with equal dates may end up in any
      order (pandas' default sort is not stable), so nothing is promised about them. */
  method SortByDate(a: array<Row>)
    modifies a
    ensures SortedByDate(a[..])
    ensures multiset(a[..]) == old(multiset(a[..]))
  {
    for i := 0 to a.Length
      invariant forall p, q :: 0 <= p < q < i ==> a[p].date <= a[q].date
      invariant multiset(a[..]) == old(multiset(a[..]))
    {
      var j := i;
      while j > 0 && a[j - 1].date > a[j].date
        invariant 0 <= j <= i
        invariant forall p, q :: 0 <= p < q <= i && q != j ==> a[p].date <= a[q].date
        invariant multiset(a[..]) == old(multiset(a[..]))
      {
        SwapDown(a, j);
        j := j - 1;
      }
    }
  }

  /** Exchanges the rows at positions `j - 1` and `j`. */
  method SwapDown(a: array<Row>, j: int)
    requires 0 < j < a.Length
    modifies a
    ensures a[j - 1] == old(a[j]) && a[j] == old(a[j - 1])
    ensures forall m :: 0 <= m < a.Length && m != j - 1 && m != j ==> a[m] == old(a[m])
    ensures multiset(a[..]) == old(multiset(a[..]))
  {
    a[j - 1], a[j] := a[j], a[j - 1];
  }

  /** Removing the element at `k` removes one copy of it from the multiset. */
  lemma MultisetRemove<T>(b: seq<T>, k: nat)
    requires k < |b|
    ensures multiset(b[..k] + b[k + 1..]) == multiset(b) - multiset{b[k]}
  {
    assert b == b[..k] + [b[k]] + b[k + 1..];
  }

  /** Deleting a row keeps a table in date order. */
  lemma SortedRemove(b: seq<Row>, k: nat)
    requires k < |b| && SortedByDate(b)
    ensures SortedByDate(b[..k] + b[k + 1..])
  {
    var b' := b[..k] + b[k + 1..];
    forall i, j | 0 <= i < j < |b'| ensures b'[i].date <= b'[j].date {
      assert b'[i] == b[if i < k then i else i + 1];
      assert b'[j] == b[if j < k then j else j + 1];
    }
  }

  /** The last row of a date-ordered table has the latest date of all its rows. */
  lemma SortedLastIsLatest(a: seq<Row>, x: Row)
    requires a != [] && SortedByDate(a) && x in multiset(a)
    ensures x.date <= a[|a| - 1].date
  {
    var i :| 0 <= i < |a| && a[i] == x;
  }

  /** Removing a row whose date is the latest one shifts only rows of that same date,
      so every remaining position keeps its date. */
  lemma RemovedDates(b: seq<Row>, k: nat)
    requires SortedByDate(b) && k < |b| && b[k].date == b[|b| - 1].date
    ensures forall i :: 0 <= i < |b| - 1 ==> (b[..k] + b[k + 1..])[i].date == b[i].date
  {
    var b' := b[..k] + b[k + 1..];
    forall i | 0 <= i < |b| - 1 ensures b'[i].date == b[i].date {
      if i < k {
        assert b'[i] == b[i];
      } else {
        assert b'[i] == b[i + 1];
        assert b[k].date <= b[i].date <= b[i + 1].date <= b[|b| - 1].date;
      }
    }
  }

  lemma JoinDates(a: seq<Row>, b: seq<Row>, b': seq<Row>)
    requires |a| == |b| == |b'| + 1 && a[|a| - 1].date == b[|b| - 1].date
    requires forall i :: 0 <= i < |b'| ==> a[..|b'|][i].date == b'[i].date
    requires forall i :: 0 <= i < |b'| ==> b'[i].date == b[i].date
    ensures forall i :: 0 <= i < |a| ==> a[i].date == b[i].date
  {
    forall i | 0 <= i < |a| ensures a[i].date == b[i].date {
      if i < |b'| {
        assert a[..|b'|][i] == a[i];
      }
    }
  }

  /** Two date-ordered arrangements of the same rows agree on the date at every
      position: sorting determines the date column, only ties may differ. */
  lemma {:induction false} SortedDatesUnique(a: seq<Row>, b: seq<Row>)
    requires multiset(a) == multiset(b)
    requires SortedByDate(a) && SortedByDate(b)
    ensures |a| == |b|
    ensures forall i :: 0 <= i < |a| ==> a[i].date == b[i].date
    decreases |a|
  {
    assert |a| == |multiset(a)| == |b|;
    if a != [] {
      var n := |a| - 1;
      LastDatesAgree(a, b);
      assert a[n] in multiset(b);
      var k :| 0 <= k < |b| && b[k] == a[n];
      var b' := b[..k] + b[k + 1..];
      DropMatchingLast(a, b, k);
      SortedDatesUnique(a[..n], b');
      JoinDates(a, b, b');
    }
  }

  /** Two date-ordered arrangements of the same rows end on the same date. */
  lemma LastDatesAgree(a: seq<Row>, b: seq<Row>)
    requires multiset(a) == multiset(b) && |a| == |b| && a != []
    requires SortedByDate(a) && SortedByDate(b)
    ensures a[|a| - 1].date == b[|b| - 1].date
  {
    var n := |a| - 1;
    assert b[n] in multiset(a) && a[n] in multiset(b);
    SortedLastIsLatest(a, b[n]);
    SortedLastIsLatest(b, a[n]);
  }

  /** Dropping the last row of `a` and its copy at `k` in `b` leaves two date-ordered
      arrangements of the same rows, and `b` keeps the date of every position. */
  lemma DropMatchingLast(a: seq<Row>, b: seq<Row>, k: nat)
    requires multiset(a) == multiset(b) && |a| == |b| && a != []
    requires SortedByDate(a) && SortedByDate(b)
    requires k < |b| && b[k] == a[|a| - 1] && a[|a| - 1].date == b[|b| - 1].date
    ensures multiset(a[..|a| - 1]) == multiset(b[..k] + b[k + 1..])
    ensures SortedByDate(a[..|a| - 1]) && SortedByDate(b[..k] + b[k + 1..])
    ensures forall i :: 0 <= i < |b| - 1 ==> (b[..k] + b[k + 1..])[i].date == b[i].date
  {
    var n := |a| - 1;
    MultisetRemove(a, n);
    SortedRemove(a, n);
    assert a[..n] + a[n + 1..] == a[..n];
    MultisetRemove(b, k);
    SortedRemove(b, k);
    RemovedDates(b, k);
  }
}
