/** `df.groupby(key)[column].sum()` and `.count()`: one entry per distinct key, in
    ascending key order, holding the column total over the rows with that key. The
    result is built by folding the rows, left to right, into an association list
    kept sorted by key. */
module Grouping {
  import opened Wrappers
  import opened Orders
  import opened Transactions

  /** A grouped Series: (key, value) entries. */
  type Groups<K> = seq<(K, int)>

  function KeysOf<K>(g: Groups<K>): (ks: seq<K>)
    ensures |ks| == |g| && forall i :: 0 <= i < |g| ==> ks[i] == g[i].0
  {
    if g == [] then [] else [g[0].0] + KeysOf(g[1..])
  }

  ghost predicate Ascending<K>(g: Groups<K>, less: (K, K) -> bool) {
    forall i, j :: 0 <= i < j < |g| ==> less(g[i].0, g[j].0)
  }

  /** `series.get(k)`: the value of the first entry with key `k`. */
  function Lookup<K(==)>(g: Groups<K>, k: K): Option<int>
  {
    if g == [] then None else if g[0].0 == k then Some(g[0].1) else Lookup(g[1..], k)
  }

  /** The sum of all values. */
  function Total<K>(g: Groups<K>): int
  {
    if g == [] then 0 else g[0].1 + Total(g[1..])
  }

  /** The distinct keys of the rows. */
  ghost function KeySet<K>(rows: seq<Row>, key: Row -> K): set<K>
  {
    set r | r in rows :: key(r)
  }

  /** The reference definition of one group's value: the total of `val` over the
      rows whose key is `k`. */
  function SumWhere<K(==)>(rows: seq<Row>, key: Row -> K, val: Row -> int, k: K): int
  {
    if rows == [] then 0
    else SumWhere(rows[..|rows| - 1], key, val, k) + (if key(rows[|rows| - 1]) == k then val(rows[|rows| - 1]) else 0)
  }

  function AddTo(o: Option<int>, v: int): int
  {
    match o
    case None => v
    case Some(a) => a + v
  }

  /** Adds `v` to the entry for `k`, creating it in its place in key order if absent. */
  function Insert<K(==, !new)>(g: Groups<K>, k: K, v: int, less: (K, K) -> bool): (r: Groups<K>)
    requires StrictTotalOrder(less) && Ascending(g, less)
    ensures Ascending(r, less)
    ensures forall x :: x in KeysOf(r) <==> x == k || x in KeysOf(g)
    ensures forall x :: Lookup(r, x) == if x == k then Some(AddTo(Lookup(g, x), v)) else Lookup(g, x)
    ensures Total(r) == Total(g) + v
  {
    if g == [] then [(k, v)]
    else if g[0].0 == k then
      AddAtHead(g, k, v, less);
      [(k, g[0].1 + v)] + g[1..]
    else if less(k, g[0].0) then
      AddInFront(g, k, v, less);
      [(k, v)] + g
    else
      var rest := Insert(g[1..], k, v, less);
      AddBehindHead(g, k, v, less, rest);
      [g[0]] + rest
  }

  /** Adding to the first key updates that entry alone. */
  lemma AddAtHead<K(!new)>(g: Groups<K>, k: K, v: int, less: (K, K) -> bool)
    requires StrictTotalOrder(less) && Ascending(g, less) && g != [] && g[0].0 == k
    ensures var r := [(k, g[0].1 + v)] + g[1..];
      && Ascending(r, less)
      && (forall x :: x in KeysOf(r) <==> x == k || x in KeysOf(g))
      && (forall x :: Lookup(r, x) == if x == k then Some(AddTo(Lookup(g, x), v)) else Lookup(g, x))
      && Total(r) == Total(g) + v
  {
    var r := [(k, g[0].1 + v)] + g[1..];
    assert KeysOf(g) == [k] + KeysOf(g[1..]);
    assert r[1..] == g[1..];
    forall i, j | 0 <= i < j < |r| ensures less(r[i].0, r[j].0) {
      assert r[i].0 == g[i].0 && r[j].0 == g[j].0;
    }
  }

  /** A key below the first key goes in front as a new entry. */
  lemma AddInFront<K(!new)>(g: Groups<K>, k: K, v: int, less: (K, K) -> bool)
    requires StrictTotalOrder(less) && Ascending(g, less) && g != [] && less(k, g[0].0)
    ensures var r := [(k, v)] + g;
      && Ascending(r, less)
      && (forall x :: x in KeysOf(r) <==> x == k || x in KeysOf(g))
      && (forall x :: Lookup(r, x) == if x == k then Some(AddTo(Lookup(g, x), v)) else Lookup(g, x))
      && Total(r) == Total(g) + v
  {
    var r := [(k, v)] + g;
    assert forall j :: 0 <= j < |g| ==> less(k, g[j].0);
    AbsentBelow(g, k, less);
    assert r[1..] == g;
    forall i, j | 0 <= i < j < |r| ensures less(r[i].0, r[j].0) {
      assert r[j] == g[j - 1];
      if i > 0 {
        assert r[i] == g[i - 1];
      }
    }
  }

  /** A key above the first key goes into the rest; the first entry stays in front. */
  lemma AddBehindHead<K(!new)>(g: Groups<K>, k: K, v: int, less: (K, K) -> bool, rest: Groups<K>)
    requires StrictTotalOrder(less) && Ascending(g, less) && g != [] && g[0].0 != k && !less(k, g[0].0)
    requires Ascending(rest, less)
    requires forall x :: x in KeysOf(rest) <==> x == k || x in KeysOf(g[1..])
    requires forall x :: Lookup(rest, x) == if x == k then Some(AddTo(Lookup(g[1..], x), v)) else Lookup(g[1..], x)
    requires Total(rest) == Total(g[1..]) + v
    ensures var r := [g[0]] + rest;
      && Ascending(r, less)
      && (forall x :: x in KeysOf(r) <==> x == k || x in KeysOf(g))
      && (forall x :: Lookup(r, x) == if x == k then Some(AddTo(Lookup(g, x), v)) else Lookup(g, x))
      && Total(r) == Total(g) + v
  {
    var r := [g[0]] + rest;
    assert less(g[0].0, k);
    assert KeysOf(g) == [g[0].0] + KeysOf(g[1..]);
    assert KeysOf(r) == [g[0].0] + KeysOf(rest);
    assert r[1..] == rest;
    forall x | x in KeysOf(g[1..]) ensures less(g[0].0, x) {
      var j :| 0 <= j < |g[1..]| && KeysOf(g[1..])[j] == x;
      assert g[1..][j] == g[j + 1];
    }
    forall i, j | 0 <= i < j < |r| ensures less(r[i].0, r[j].0) {
      assert r[j] == rest[j - 1];
      if i > 0 {
        assert r[i] == rest[i - 1];
      } else {
        assert rest[j - 1].0 in KeysOf(rest);
      }
    }
  }

  /** Inserting adds an entry exactly when the key is new. */
  lemma {:induction false} InsertCount<K(!new)>(g: Groups<K>, k: K, v: int, less: (K, K) -> bool)
    requires StrictTotalOrder(less) && Ascending(g, less)
    ensures |Insert(g, k, v, less)| == if k in KeysOf(g) then |g| else |g| + 1
  {
    if g != [] {
      assert KeysOf(g) == [g[0].0] + KeysOf(g[1..]);
      if g[0].0 != k {
        if less(k, g[0].0) {
          assert forall j :: 0 <= j < |g| ==> less(k, g[j].0);
          AbsentBelow(g, k, less);
        } else {
          InsertCount(g[1..], k, v, less);
        }
      }
    }
  }

  /** A key below the first key of an ascending list is not in it. */
  lemma AbsentBelow<K(!new)>(g: Groups<K>, k: K, less: (K, K) -> bool)
    requires StrictTotalOrder(less) && Ascending(g, less)
    requires forall j :: 0 <= j < |g| ==> less(k, g[j].0)
    ensures Lookup(g, k) == None && k !in KeysOf(g)
  {
    LookupPresent(g, k);
  }

  /** Lookup finds exactly the keys of the list, at the value of their entry. */
  lemma {:induction false} LookupPresent<K>(g: Groups<K>, k: K)
    ensures Lookup(g, k).Some? <==> k in KeysOf(g)
    ensures Lookup(g, k).Some? ==> exists i :: 0 <= i < |g| && g[i] == (k, Lookup(g, k).value)
  {
    if g != [] {
      LookupPresent(g[1..], k);
      if g[0].0 != k && Lookup(g[1..], k).Some? {
        var i :| 0 <= i < |g[1..]| && g[1..][i] == (k, Lookup(g[1..], k).value);
        assert g[i + 1] == (k, Lookup(g, k).value);
      }
    }
  }

  /** In an ascending list the keys are distinct, so Lookup finds every entry. */
  lemma {:induction false} LookupAt<K(!new)>(g: Groups<K>, i: nat, less: (K, K) -> bool)
    requires StrictTotalOrder(less) && Ascending(g, less) && i < |g|
    ensures Lookup(g, g[i].0) == Some(g[i].1)
  {
    if i > 0 {
      assert less(g[0].0, g[i].0);
      LookupAt(g[1..], i - 1, less);
    }
  }

  /** A key that no row has sums to 0. */
  lemma {:induction false} SumWhereAbsent<K>(rows: seq<Row>, key: Row -> K, val: Row -> int, k: K)
    ensures k !in KeySet(rows, key) ==> SumWhere(rows, key, val, k) == 0
    decreases |rows|
  {
    if rows != [] && k !in KeySet(rows, key) {
      var init := rows[..|rows| - 1];
      assert rows[|rows| - 1] in rows;
      assert KeySet(init, key) <= KeySet(rows, key);
      SumWhereAbsent(init, key, val, k);
    }
  }

  /** `rows.groupby(key)[val].sum()`: ascending keys, one entry for each key that
      occurs and none other, each holding the total over its rows; the entries add
      up to the column total. */
  function GroupSum<K(==, !new)>(rows: seq<Row>, key: Row -> K, val: Row -> int, less: (K, K) -> bool): (g: Groups<K>)
    requires StrictTotalOrder(less)
    ensures Ascending(g, less)
    ensures forall k :: Lookup(g, k) == if k in KeySet(rows, key) then Some(SumWhere(rows, key, val, k)) else None
    ensures Total(g) == Sum(rows, val)
    decreases |rows|
  {
    if rows == [] then []
    else
      var init, last := rows[..|rows| - 1], rows[|rows| - 1];
      assert rows == init + [last];
      var g := GroupSum(init, key, val, less);
      FoldRow(init, last, key, val, less, g);
      Insert(g, key(last), val(last), less)
  }

  /** Folding one more row into the groups of the rows before it gives the groups
      of all of them. */
  lemma FoldRow<K(!new)>(init: seq<Row>, last: Row, key: Row -> K, val: Row -> int, less: (K, K) -> bool, g: Groups<K>)
    requires StrictTotalOrder(less) && Ascending(g, less)
    requires forall k :: Lookup(g, k) == if k in KeySet(init, key) then Some(SumWhere(init, key, val, k)) else None
    requires Total(g) == Sum(init, val)
    ensures var r := Insert(g, key(last), val(last), less);
      forall k :: Lookup(r, k) == if k in KeySet(init + [last], key) then Some(SumWhere(init + [last], key, val, k)) else None
    ensures Total(Insert(g, key(last), val(last), less)) == Sum(init + [last], val)
  {
    var rows := init + [last];
    var r := Insert(g, key(last), val(last), less);
    assert rows[..|rows| - 1] == init && rows[|rows| - 1] == last;
    assert KeySet(rows, key) == KeySet(init, key) + {key(last)};
    SumWhereAbsent(init, key, val, key(last));
    forall k ensures Lookup(r, k) == if k in KeySet(rows, key) then Some(SumWhere(rows, key, val, k)) else None {
      assert SumWhere(rows, key, val, k) == SumWhere(init, key, val, k) + (if key(last) == k then val(last) else 0);
    }
  }

  /** There are exactly as many groups as distinct keys. */
  lemma {:induction false} GroupCount<K(!new)>(rows: seq<Row>, key: Row -> K, val: Row -> int, less: (K, K) -> bool)
    requires StrictTotalOrder(less)
    ensures |GroupSum(rows, key, val, less)| == |KeySet(rows, key)|
    decreases |rows|
  {
    if rows != [] {
      var init, last := rows[..|rows| - 1], rows[|rows| - 1];
      assert rows == init + [last];
      assert KeySet(rows, key) == KeySet(init, key) + {key(last)};
      GroupCount(init, key, val, less);
      var g := GroupSum(init, key, val, less);
      LookupPresent(g, key(last));
      InsertCount(g, key(last), val(last), less);
    }
  }

  /** Entry by entry: each key occurs in the rows and carries its group's total,
      and every key of the rows has an entry. */
  lemma GroupEntries<K(!new)>(rows: seq<Row>, key: Row -> K, val: Row -> int, less: (K, K) -> bool)
    requires StrictTotalOrder(less)
    ensures forall i :: 0 <= i < |GroupSum(rows, key, val, less)| ==>
              var g := GroupSum(rows, key, val, less);
              g[i].0 in KeySet(rows, key) && g[i].1 == SumWhere(rows, key, val, g[i].0)
    ensures forall r :: r in rows ==> key(r) in KeysOf(GroupSum(rows, key, val, less))
  {
    var g := GroupSum(rows, key, val, less);
    forall i | 0 <= i < |g|
      ensures g[i].0 in KeySet(rows, key) && g[i].1 == SumWhere(rows, key, val, g[i].0)
    {
      LookupAt(g, i, less);
    }
    forall r | r in rows ensures key(r) in KeysOf(g) {
      assert key(r) in KeySet(rows, key);
      LookupPresent(g, key(r));
    }
  }

  /** A group holding a row counts at least that row. */
  lemma {:induction false} CountPositive<K>(rows: seq<Row>, key: Row -> K, k: K)
    requires k in KeySet(rows, key)
    ensures SumWhere(rows, key, One, k) >= 1
    decreases |rows|
  {
    var init, last := rows[..|rows| - 1], rows[|rows| - 1];
    assert rows == init + [last];
    if key(last) != k {
      assert k in KeySet(init, key);
      CountPositive(init, key, k);
    } else {
      SumWhereNonNegative(init, key, k);
    }
  }

  lemma {:induction false} SumWhereNonNegative<K>(rows: seq<Row>, key: Row -> K, k: K)
    ensures SumWhere(rows, key, One, k) >= 0
    decreases |rows|
  {
    if rows != [] { SumWhereNonNegative(rows[..|rows| - 1], key, k); }
  }
}
