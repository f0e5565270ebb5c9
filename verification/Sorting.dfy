/** Sorting by a lexicographic key of three integers, as the Rust `sort_by_key` calls do. */
module Sorting {
  datatype Key = Key(first: int, second: int, third: int)

  datatype Item<T> = Item(key: Key, value: T)

  predicate Less(x: Key, y: Key) {
    || x.first < y.first
    || (x.first == y.first && x.second < y.second)
    || (x.first == y.first && x.second == y.second && x.third < y.third)
  }

  /** Strictly increasing keys. */
  predicate Increasing<T>(items: seq<Item<T>>) {
    forall i, j :: 0 <= i < j < |items| ==> Less(items[i].key, items[j].key)
  }

  predicate Sorted<T>(items: seq<Item<T>>) {
    forall i, j :: 0 <= i < j < |items| ==> !Less(items[j].key, items[i].key)
  }

  predicate DistinctKeys<T>(items: seq<Item<T>>) {
    forall i, j :: 0 <= i < j < |items| ==> items[i].key != items[j].key
  }

  /** Insert after every item that does not come later: equal keys keep their order. */
  function Insert<T>(items: seq<Item<T>>, x: Item<T>): (r: seq<Item<T>>)
    requires Sorted(items)
    ensures Sorted(r) && multiset(r) == multiset(items) + multiset{x}
  {
    if items == [] || !Less(x.key, items[|items| - 1].key) then
      items + [x]
    else
      var last := items[|items| - 1];
      var rest := Insert(items[..|items| - 1], x);
      assert items == items[..|items| - 1] + [last];
      InsertedBefore(items[..|items| - 1], x, last, rest);
      rest + [last]
  }

  lemma InsertedBefore<T>(items: seq<Item<T>>, x: Item<T>, last: Item<T>, r: seq<Item<T>>)
    requires multiset(r) == multiset(items) + multiset{x} && Less(x.key, last.key)
    requires forall i :: 0 <= i < |items| ==> !Less(last.key, items[i].key)
    ensures forall i :: 0 <= i < |r| ==> !Less(last.key, r[i].key)
    ensures multiset(r + [last]) == multiset(items + [last]) + multiset{x}
  {
    forall i | 0 <= i < |r| ensures !Less(last.key, r[i].key) {
      assert r[i] in multiset(r);
      assert r[i] in multiset(items) || r[i] == x;
    }
  }

  /** A stable sort. */
  function Sort<T>(items: seq<Item<T>>): (r: seq<Item<T>>)
    ensures Sorted(r) && multiset(r) == multiset(items) && |r| == |items|
  {
    if items == [] then []
    else
      var n := |items| - 1;
      assert items == items[..n] + [items[n]];
      var r := Insert(Sort(items[..n]), items[n]);
      assert |multiset(r)| == |r| && |multiset(items)| == |items|;
      r
  }

  lemma SortIncreases<T>(items: seq<Item<T>>)
    requires DistinctKeys(items)
    ensures Increasing(Sort(items))
  {
    var r := Sort(items);
    forall i, j | 0 <= i < j < |r| ensures Less(r[i].key, r[j].key) {
      if r[i].key == r[j].key {
        TwoOfAKey(items, r, i, j);
        assert false;
      }
    }
  }

  /** Two places of one sequence with the same key are two places of any rearrangement of it. */
  lemma TwoOfAKey<T>(items: seq<Item<T>>, r: seq<Item<T>>, i: nat, j: nat)
    requires multiset(items) == multiset(r) && i < j < |r| && r[i].key == r[j].key
    ensures !DistinctKeys(items)
  {
    if r[i] == r[j] {
      TwoPlaces(r, i, j);
      TwicePlaced(items, r[i]);
    } else {
      assert r[i] in multiset(items) && r[j] in multiset(items);
      var k :| 0 <= k < |items| && items[k] == r[i];
      var l :| 0 <= l < |items| && items[l] == r[j];
      assert items[k].key == items[l].key;
    }
  }

  lemma TwoPlaces<T>(r: seq<Item<T>>, i: nat, j: nat)
    requires i < j < |r| && r[i] == r[j]
    ensures multiset(r)[r[i]] >= 2
  {
    assert r == r[..i] + [r[i]] + r[i + 1..j] + [r[j]] + r[j + 1..];
  }

  lemma {:induction false} TwicePlaced<T>(items: seq<Item<T>>, x: Item<T>)
    requires multiset(items)[x] >= 2
    ensures exists k, l :: 0 <= k < l < |items| && items[k] == x && items[l] == x
  {
    var n := |items| - 1;
    assert items == items[..n] + [items[n]];
    if items[n] == x {
      assert x in multiset(items[..n]);
      var k :| 0 <= k < n && items[..n][k] == x;
      assert items[k] == x && items[n] == x;
    } else {
      TwicePlaced(items[..n], x);
      var k, l :| 0 <= k < l < n && items[..n][k] == x && items[..n][l] == x;
      assert items[k] == x && items[l] == x;
    }
  }

  /** There is only one way to put the same items in strictly increasing order. */
  lemma {:induction false} IncreasingIsUnique<T>(a: seq<Item<T>>, b: seq<Item<T>>)
    requires Increasing(a) && Increasing(b) && multiset(a) == multiset(b)
    ensures a == b
    decreases |a|
  {
    SameLength(a, b);
    if a != [] {
      var n := |a| - 1;
      LastIsSame(a, b);
      WithoutLast(a);
      WithoutLast(b);
      IncreasingIsUnique(a[..n], b[..n]);
      assert a[..n] + [a[n]] == b[..n] + [b[n]];
    }
  }

  lemma SameLength<T>(a: seq<Item<T>>, b: seq<Item<T>>)
    requires multiset(a) == multiset(b)
    ensures |a| == |b|
  {
    assert |multiset(a)| == |a| && |multiset(b)| == |b|;
  }

  lemma WithoutLast<T>(a: seq<Item<T>>)
    requires a != []
    ensures a == a[..|a| - 1] + [a[|a| - 1]]
    ensures multiset(a[..|a| - 1]) == multiset(a) - multiset{a[|a| - 1]}
    ensures Increasing(a) ==> Increasing(a[..|a| - 1])
  {
    assert a == a[..|a| - 1] + [a[|a| - 1]];
  }

  lemma LastIsSame<T>(a: seq<Item<T>>, b: seq<Item<T>>)
    requires Increasing(a) && Increasing(b) && multiset(a) == multiset(b) && |a| == |b| > 0
    ensures a[|a| - 1] == b[|b| - 1]
  {
    var n := |a| - 1;
    assert a[n] in multiset(b) && b[n] in multiset(a);
    var i :| 0 <= i <= n && b[i] == a[n];
    var j :| 0 <= j <= n && a[j] == b[n];
  }
}
