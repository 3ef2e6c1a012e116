/** `series.sort_values(ascending=False).head(n)`: the groups of an aggregate in
    non-increasing value order, cut to the first `n`. The sort is pandas' default,
    which is not stable, so nothing is promised about the order of equal values. */
module Ranking {
  import opened Orders
  import opened Transactions
  import opened Grouping
  import opened Aggregates

  ghost predicate NonIncreasing<K>(g: Groups<K>) {
    forall i, j :: 0 <= i < j < |g| ==> g[i].1 >= g[j].1
  }

  /** Puts entry `e` in front of the first entry whose value it is not below. */
  function InsertByValue<K(==)>(g: Groups<K>, e: (K, int)): (r: Groups<K>)
    requires NonIncreasing(g)
    ensures NonIncreasing(r)
    ensures multiset(r) == multiset(g) + multiset{e}
  {
    if g == [] || g[0].1 <= e.1 then
      ConsDescending(e, g);
      [e] + g
    else
      var rest := InsertByValue(g[1..], e);
      InsertBehindHead(g, e, rest);
      [g[0]] + rest
  }

  /** When `e` goes behind the head, the head stays in front of the rest. */
  lemma InsertBehindHead<K>(g: Groups<K>, e: (K, int), rest: Groups<K>)
    requires NonIncreasing(g) && g != [] && e.1 < g[0].1
    requires NonIncreasing(rest) && multiset(rest) == multiset(g[1..]) + multiset{e}
    ensures NonIncreasing([g[0]] + rest)
    ensures multiset([g[0]] + rest) == multiset(g) + multiset{e}
  {
    var tail := g[1..];
    assert g == [g[0]] + tail;
    assert multiset(rest) == multiset(tail + [e]);
    forall j | 0 <= j < |tail + [e]| ensures (tail + [e])[j].1 <= g[0].1 {
      if j < |tail| {
        assert (tail + [e])[j] == g[j + 1];
      }
    }
    BoundedEntries(rest, tail + [e], g[0].1);
    ConsDescending(g[0], rest);
  }

  /** An entry not below the head of a descending list can go in front of it. */
  lemma ConsDescending<K>(x: (K, int), g: Groups<K>)
    requires NonIncreasing(g) && (g == [] || g[0].1 <= x.1)
    ensures NonIncreasing([x] + g)
  {
    var r := [x] + g;
    forall i, j | 0 <= i < j < |r| ensures r[i].1 >= r[j].1 {
      assert r[j] == g[j - 1];
      if i > 0 {
        assert r[i] == g[i - 1];
      } else {
        assert g[0].1 >= g[j - 1].1;
      }
    }
  }

  /** Rearranging entries keeps every value under a common bound. */
  lemma BoundedEntries<K>(a: Groups<K>, b: Groups<K>, hi: int)
    requires multiset(a) == multiset(b)
    requires forall j :: 0 <= j < |b| ==> b[j].1 <= hi
    ensures forall j :: 0 <= j < |a| ==> a[j].1 <= hi
  {
    forall j | 0 <= j < |a| ensures a[j].1 <= hi {
      assert a[j] in multiset(b);
    }
  }

  /** `sort_values(ascending=False)`: the same entries, largest values first. */
  function SortDescending<K(==)>(g: Groups<K>): (r: Groups<K>)
    ensures NonIncreasing(r)
    ensures multiset(r) == multiset(g)
  {
    if g == [] then []
    else
      assert g == [g[0]] + g[1..];
      InsertByValue(SortDescending(g[1..]), g[0])
  }

  /** `sort_values(ascending=False).head(n)`: the first `min(n, |g|)` entries of the
      descending order. They are entries of `g`, and none left out is larger than any
      kept. */
  function Top<K(==)>(g: Groups<K>, n: nat): (r: Groups<K>)
    ensures NonIncreasing(r)
    ensures |r| == if n < |g| then n else |g|
    ensures multiset(r) <= multiset(g)
    ensures forall e, i :: e in multiset(g) - multiset(r) && 0 <= i < |r| ==> e.1 <= r[i].1
  {
    var s := SortDescending(g);
    SameSize(s, g);
    CutSorted(s, if n < |g| then n else |g|);
    s[..if n < |g| then n else |g|]
  }

  lemma SameSize<T>(a: seq<T>, b: seq<T>)
    requires multiset(a) == multiset(b)
    ensures |a| == |b|
  {
    assert |a| == |multiset(a)|;
    assert |b| == |multiset(b)|;
  }

  /** Cutting a descending list splits its entries into a kept part and a rest that
      is nowhere above the kept part. */
  lemma CutSorted<K>(s: Groups<K>, m: nat)
    requires NonIncreasing(s) && m <= |s|
    ensures NonIncreasing(s[..m])
    ensures multiset(s[..m]) <= multiset(s)
    ensures forall e, i :: e in multiset(s) - multiset(s[..m]) && 0 <= i < m ==> e.1 <= s[i].1
  {
    assert s == s[..m] + s[m..];
    assert multiset(s) - multiset(s[..m]) == multiset(s[m..]);
    forall e, i | e in multiset(s[m..]) && 0 <= i < m ensures e.1 <= s[i].1 {
      var j :| 0 <= j < |s[m..]| && s[m..][j] == e;
      assert s[m + j] == e;
    }
  }

  /** The first kept entry is the largest of all: any list cut to at least one entry
      starts with a maximum. */
  lemma TopFirstIsMax<K>(g: Groups<K>, n: nat)
    requires g != [] && n >= 1
    ensures Top(g, n)[0] in multiset(g)
    ensures forall j :: 0 <= j < |g| ==> g[j].1 <= Top(g, n)[0].1
  {
    var r := Top(g, n);
    HeadBoundsAll(g, r);
  }

  /** A descending selection of entries that leaves none out above it starts with a
      maximum of all the entries. */
  lemma HeadBoundsAll<K>(g: Groups<K>, r: Groups<K>)
    requires r != [] && NonIncreasing(r) && multiset(r) <= multiset(g)
    requires forall e, i :: e in multiset(g) - multiset(r) && 0 <= i < |r| ==> e.1 <= r[i].1
    ensures r[0] in multiset(g)
    ensures forall j :: 0 <= j < |g| ==> g[j].1 <= r[0].1
  {
    assert r[0] in multiset(r);
    forall j | 0 <= j < |g| ensures g[j].1 <= r[0].1 {
      var e := g[j];
      if e in r {
        var p :| 0 <= p < |r| && r[p] == e;
        assert r[0].1 >= r[p].1;
      } else {
        assert multiset(r)[e] == 0;
        assert e in multiset(g) - multiset(r);
      }
    }
  }

  /** Two descending arrangements of the same entries agree on the value at every
      position: whichever order the sort gives equal values, the value column of a
      ranking is the same. */
  lemma {:induction false} DescendingValuesUnique<K>(a: Groups<K>, b: Groups<K>)
    requires multiset(a) == multiset(b)
    requires NonIncreasing(a) && NonIncreasing(b)
    ensures |a| == |b|
    ensures forall i :: 0 <= i < |a| ==> a[i].1 == b[i].1
    decreases |a|
  {
    SameSize(a, b);
    if a != [] {
      var n := |a| - 1;
      LastsAgree(a, b);
      assert a[n] in multiset(b);
      var k :| 0 <= k < |b| && b[k] == a[n];
      var b' := b[..k] + b[k + 1..];
      DropMatchingLast(a, b, k);
      DescendingValuesUnique(a[..n], b');
      JoinValues(a, b, b');
    }
  }

  /** Two descending arrangements of the same entries end in the same value. */
  lemma LastsAgree<K>(a: Groups<K>, b: Groups<K>)
    requires multiset(a) == multiset(b) && |a| == |b| && a != []
    requires NonIncreasing(a) && NonIncreasing(b)
    ensures a[|a| - 1].1 == b[|b| - 1].1
  {
    var n := |a| - 1;
    assert b[n] in multiset(a) && a[n] in multiset(b);
    LastIsSmallest(a, b[n]);
    LastIsSmallest(b, a[n]);
  }

  /** Dropping the last entry of `a` and its copy at `k` in `b` leaves two
      descending arrangements of the same entries, and `b` loses no value below `k`. */
  lemma DropMatchingLast<K>(a: Groups<K>, b: Groups<K>, k: nat)
    requires multiset(a) == multiset(b) && |a| == |b| && a != []
    requires NonIncreasing(a) && NonIncreasing(b)
    requires k < |b| && b[k] == a[|a| - 1] && a[|a| - 1].1 == b[|b| - 1].1
    ensures multiset(a[..|a| - 1]) == multiset(b[..k] + b[k + 1..])
    ensures NonIncreasing(a[..|a| - 1]) && NonIncreasing(b[..k] + b[k + 1..])
    ensures forall i :: 0 <= i < |b| - 1 ==> (b[..k] + b[k + 1..])[i].1 == b[i].1
  {
    var n := |a| - 1;
    MultisetRemove(a, n);
    DescendingRemove(a, n);
    assert a[..n] + a[n + 1..] == a[..n];
    MultisetRemove(b, k);
    DescendingRemove(b, k);
    RemovedValues(b, k);
  }

  lemma JoinValues<K>(a: Groups<K>, b: Groups<K>, b': Groups<K>)
    requires |a| == |b| == |b'| + 1 && a[|a| - 1].1 == b[|b| - 1].1
    requires forall i :: 0 <= i < |b'| ==> a[..|b'|][i].1 == b'[i].1
    requires forall i :: 0 <= i < |b'| ==> b'[i].1 == b[i].1
    ensures forall i :: 0 <= i < |a| ==> a[i].1 == b[i].1
  {
    forall i | 0 <= i < |a| ensures a[i].1 == b[i].1 {
      if i < |b'| {
        assert a[..|b'|][i] == a[i];
      }
    }
  }

  /** Deleting an entry keeps a list descending. */
  lemma DescendingRemove<K>(b: Groups<K>, k: nat)
    requires k < |b| && NonIncreasing(b)
    ensures NonIncreasing(b[..k] + b[k + 1..])
  {
    var b' := b[..k] + b[k + 1..];
    forall i, j | 0 <= i < j < |b'| ensures b'[i].1 >= b'[j].1 {
      assert b'[i] == b[if i < k then i else i + 1];
      assert b'[j] == b[if j < k then j else j + 1];
    }
  }

  /** Removing an entry whose value is the smallest shifts only entries of that
      value, so every remaining position keeps its value. */
  lemma RemovedValues<K>(b: Groups<K>, k: nat)
    requires NonIncreasing(b) && k < |b| && b[k].1 == b[|b| - 1].1
    ensures forall i :: 0 <= i < |b| - 1 ==> (b[..k] + b[k + 1..])[i].1 == b[i].1
  {
    var b' := b[..k] + b[k + 1..];
    forall i | 0 <= i < |b| - 1 ensures b'[i].1 == b[i].1 {
      if i < k {
        assert b'[i] == b[i];
      } else {
        assert b'[i] == b[i + 1];
        assert b[k].1 >= b[i].1 >= b[i + 1].1 >= b[|b| - 1].1;
      }
    }
  }

  /** The last entry of a descending list has the smallest value of all. */
  lemma LastIsSmallest<K>(a: Groups<K>, x: (K, int))
    requires a != [] && NonIncreasing(a) && x in multiset(a)
    ensures a[|a| - 1].1 <= x.1
  {
    var i :| 0 <= i < |a| && a[i] == x;
  }

  /** Any descending arrangement of an aggregate has the values of the model's sort,
      so the value column of `Top` does not depend on the tie order. */
  lemma RankingValuesDetermined<K>(g: Groups<K>, r: Groups<K>)
    requires NonIncreasing(r) && multiset(r) == multiset(g)
    ensures |r| == |SortDescending(g)| == |g|
    ensures forall i :: 0 <= i < |r| ==> r[i].1 == SortDescending(g)[i].1
  {
    DescendingValuesUnique(r, SortDescending(g));
    SameSize(r, g);
  }

  /** `r` ranks the groups of `key` by their totals of `val`: non-increasing, every
      entry a different group holding its own total, and no group left out above
      any kept. */
  ghost predicate RanksGroups(rows: seq<Row>, key: Row -> string, val: Row -> int, r: Groups<string>) {
    && NonIncreasing(r)
    && DistinctKeys(r)
    && (forall i :: 0 <= i < |r| ==> r[i].0 in KeySet(rows, key) && r[i].1 == SumWhere(rows, key, val, r[i].0))
    && (forall k, i :: k in KeySet(rows, key) && k !in KeysOf(r) && 0 <= i < |r| ==> SumWhere(rows, key, val, k) <= r[i].1)
  }

  function Min(a: nat, b: nat): nat { if a < b then a else b }

  /** The top `n` of a group-by rank its groups and hold `min(n, #groups)` entries. */
  lemma TopRanksGroups(rows: seq<Row>, key: Row -> string, val: Row -> int, n: nat)
    requires StrictTotalOrder(StrLess)
    ensures RanksGroups(rows, key, val, Top(GroupSum(rows, key, val, StrLess), n))
    ensures |Top(GroupSum(rows, key, val, StrLess), n)| == Min(n, |KeySet(rows, key)|)
  {
    GroupCount(rows, key, val, StrLess);
    TopEntriesAreGroups(rows, key, val, n);
    TopLeavesNoneAbove(rows, key, val, n);
    TopKeysDistinct(GroupSum(rows, key, val, StrLess), n);
  }

  /** No key occurs twice in a top `n` of an ascending table. */
  lemma TopKeysDistinct(g: Groups<string>, n: nat)
    requires Ascending(g, StrLess)
    ensures DistinctKeys(Top(g, n))
  {
    AscendingDistinct(g);
    CountsDistinctKeys(Top(g, n), g);
  }

  /** Every key occurs at most once. */
  ghost predicate DistinctKeys<K>(g: Groups<K>) {
    forall i, j :: 0 <= i < j < |g| ==> g[i].0 != g[j].0
  }

  /** Strictly ascending keys are distinct. */
  lemma AscendingDistinct(g: Groups<string>)
    requires Ascending(g, StrLess)
    ensures DistinctKeys(g)
  {
    forall i, j | 0 <= i < j < |g| ensures g[i].0 != g[j].0 {
      StrLessIrreflexive(g[i].0);
    }
  }

  /** With distinct keys every entry occurs at most once. */
  lemma {:induction false} SingleCounts<K>(g: Groups<K>)
    requires DistinctKeys(g)
    ensures forall x :: multiset(g)[x] <= 1
  {
    if g != [] {
      var tail := g[1..];
      assert g == [g[0]] + tail;
      forall i, j | 0 <= i < j < |tail| ensures tail[i].0 != tail[j].0 {
        assert tail[i] == g[i + 1] && tail[j] == g[j + 1];
      }
      SingleCounts(tail);
      forall k | 0 <= k < |tail| ensures tail[k] != g[0] {
        assert tail[k] == g[k + 1];
      }
      assert multiset(tail)[g[0]] == 0;
    }
  }

  /** An entry at two positions is counted at least twice. */
  lemma TwiceCounted<T>(s: seq<T>, i: nat, j: nat)
    requires i < j < |s| && s[i] == s[j]
    ensures multiset(s)[s[i]] >= 2
  {
    assert s == s[..j] + [s[j]] + s[j + 1..];
    assert s[..j][i] == s[i];
  }

  /** Entries drawn from a table with distinct keys have distinct keys. */
  lemma CountsDistinctKeys<K>(r: Groups<K>, g: Groups<K>)
    requires DistinctKeys(g) && multiset(r) <= multiset(g)
    ensures DistinctKeys(r)
  {
    SingleCounts(g);
    forall i, j | 0 <= i < j < |r| ensures r[i].0 != r[j].0 {
      assert r[i] in multiset(r) && r[j] in multiset(r);
      var p :| 0 <= p < |g| && g[p] == r[i];
      var q :| 0 <= q < |g| && g[q] == r[j];
      if r[i].0 == r[j].0 {
        assert p == q;
        TwiceCounted(r, i, j);
      }
    }
  }

  /** Every entry of the top `n` is a group of the rows holding its own total. */
  lemma TopEntriesAreGroups(rows: seq<Row>, key: Row -> string, val: Row -> int, n: nat)
    requires StrictTotalOrder(StrLess)
    ensures var r := Top(GroupSum(rows, key, val, StrLess), n);
      forall i :: 0 <= i < |r| ==> r[i].0 in KeySet(rows, key) && r[i].1 == SumWhere(rows, key, val, r[i].0)
  {
    var g := GroupSum(rows, key, val, StrLess);
    var r := Top(g, n);
    GroupEntries(rows, key, val, StrLess);
    forall i | 0 <= i < |r| ensures r[i].0 in KeySet(rows, key) && r[i].1 == SumWhere(rows, key, val, r[i].0) {
      assert r[i] in multiset(r);
      var j :| 0 <= j < |g| && g[j] == r[i];
    }
  }

  /** No group left out of the top `n` has a larger total than a kept one. */
  lemma TopLeavesNoneAbove(rows: seq<Row>, key: Row -> string, val: Row -> int, n: nat)
    requires StrictTotalOrder(StrLess)
    ensures var r := Top(GroupSum(rows, key, val, StrLess), n);
      forall k, i :: k in KeySet(rows, key) && k !in KeysOf(r) && 0 <= i < |r| ==> SumWhere(rows, key, val, k) <= r[i].1
  {
    var g := GroupSum(rows, key, val, StrLess);
    var r := Top(g, n);
    forall k, i | k in KeySet(rows, key) && k !in KeysOf(r) && 0 <= i < |r|
      ensures SumWhere(rows, key, val, k) <= r[i].1
    {
      LookupPresent(g, k);
      var j :| 0 <= j < |g| && g[j] == (k, SumWhere(rows, key, val, k));
      assert g[j] in multiset(g) - multiset(r);
    }
  }

  /** The head of a ranking is a group with the largest total. */
  lemma RankingHeadIsMax(rows: seq<Row>, key: Row -> string, val: Row -> int, r: Groups<string>)
    requires RanksGroups(rows, key, val, r) && r != []
    ensures forall x :: x in rows ==> SumWhere(rows, key, val, key(x)) <= SumWhere(rows, key, val, r[0].0)
  {
    forall x | x in rows ensures SumWhere(rows, key, val, key(x)) <= SumWhere(rows, key, val, r[0].0) {
      assert key(x) in KeySet(rows, key);
      if key(x) in KeysOf(r) {
        var p :| 0 <= p < |r| && KeysOf(r)[p] == key(x);
      }
    }
  }

  /** `rank_qty`: the ten products with the most units sold. */
  function ProductsByQty(rows: seq<Row>): (r: Groups<string>)
    ensures RanksGroups(rows, ProductOf, QtyOf, r)
    ensures |r| == Min(10, |KeySet(rows, ProductOf)|)
  {
    StrLessIsStrictTotal();
    TopRanksGroups(rows, ProductOf, QtyOf, 10);
    Top(QtyByProduct(rows), 10)
  }

  /** `rank_cat`: every category, most orders first. */
  function CategoriesByOrders(rows: seq<Row>): (r: Groups<string>)
    ensures RanksGroups(rows, CategoryOf, One, r)
    ensures |r| == |KeySet(rows, CategoryOf)|
  {
    StrLessIsStrictTotal();
    var g := GroupSum(rows, CategoryOf, One, StrLess);
    FullTop(g);
    TopRanksGroups(rows, CategoryOf, One, |g|);
    GroupCount(rows, CategoryOf, One, StrLess);
    SortDescending(OrdersByCategory(rows))
  }

  /** Keeping every entry is sorting. */
  lemma FullTop<K>(g: Groups<K>)
    ensures Top(g, |g|) == SortDescending(g)
  {
    var s := SortDescending(g);
    SameSize(s, g);
    assert Top(g, |g|) == s[..|g|];
    assert s[..|s|] == s;
  }

  /** `loyal`: the ten customers who spent the most. */
  function LoyalCustomers(rows: seq<Row>): (r: Groups<string>)
    ensures RanksGroups(rows, CustomerOf, TotalOf, r)
    ensures |r| == Min(10, |KeySet(rows, CustomerOf)|)
  {
    StrLessIsStrictTotal();
    TopRanksGroups(rows, CustomerOf, TotalOf, 10);
    Top(SpendByCustomer(rows), 10)
  }

  /** `pie1.sort_values("Total", ascending=False).head(3)`: the three products with
      the most revenue. */
  function TopRevenueProducts(rows: seq<Row>): (r: Groups<string>)
    ensures RanksGroups(rows, ProductOf, TotalOf, r)
    ensures |r| == Min(3, |KeySet(rows, ProductOf)|)
  {
    StrLessIsStrictTotal();
    TopRanksGroups(rows, ProductOf, TotalOf, 3);
    Top(RevenueByProduct(rows), 3)
  }
}
