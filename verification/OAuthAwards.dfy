/** Assigning priorities to all accounts: the loops over the groups, and why assigning again changes nothing. */
module OAuthAwards {
  import opened OAuthPriority
  import opened Sorting

  // ---------------------------------------------------------------- one group

  /** Who gets what, as a map; a later award for an account would replace an earlier one. */
  function TableOf(awards: seq<Award>): map<int, int> {
    if awards == [] then map[]
    else
      var n := |awards| - 1;
      TableOf(awards[..n])[awards[n].account := awards[n].value]
  }

  function Table(entries: seq<Entry>, ids: seq<int>): map<int, int> {
    TableOf(Awards(entries, ids))
  }

  predicate DistinctAwards(awards: seq<Award>) {
    forall i, j :: 0 <= i < j < |awards| ==> awards[i].account != awards[j].account
  }

  lemma {:induction false} LookUp(awards: seq<Award>, i: nat)
    requires DistinctAwards(awards) && i < |awards|
    ensures awards[i].account in TableOf(awards) && TableOf(awards)[awards[i].account] == awards[i].value
  {
    if i < |awards| - 1 {
      LookUp(awards[..|awards| - 1], i);
    }
  }

  lemma {:induction false} OnlyAwarded(awards: seq<Award>, account: int)
    requires account in TableOf(awards)
    ensures exists i :: 0 <= i < |awards| && awards[i].account == account && awards[i].value == TableOf(awards)[account]
  {
    var n := |awards| - 1;
    if awards[n].account != account {
      OnlyAwarded(awards[..n], account);
      var i :| 0 <= i < n && awards[..n][i].account == account && awards[..n][i].value == TableOf(awards[..n])[account];
      assert awards[i] == awards[..n][i];
    }
  }

  /** In one group every account gets one value, and different accounts different ones. */
  lemma AwardsAreDistinct(entries: seq<Entry>, ids: seq<int>)
    requires DistinctEntries(entries)
    ensures DistinctAwards(Awards(entries, ids))
    ensures Ladder(Values(entries, ids))
    ensures Increasing(Ordered(entries, ids))
  {
    ValuesAreALadder(entries, ids);
    KeysAreDistinct(entries, ids, Unset(entries));
    SortIncreases(Keyed(entries, ids, Unset(entries)));
    var items := Ordered(entries, ids);
    forall i, j | 0 <= i < j < |items| ensures items[i].value.account != items[j].value.account {
      ItemIsAnEntry(entries, ids, i);
      ItemIsAnEntry(entries, ids, j);
      assert items[i].key != items[j].key;
    }
  }

  /** Every account of the group gets an award. */
  lemma EveryoneIsAwarded(entries: seq<Entry>, ids: seq<int>, k: nat)
    requires DistinctEntries(entries) && k < |entries|
    ensures exists i :: 0 <= i < |entries| && Ordered(entries, ids)[i].value == entries[k]
    ensures entries[k].account in Table(entries, ids)
  {
    var keyed := Keyed(entries, ids, Unset(entries));
    assert keyed[k] in multiset(keyed);
    assert keyed[k] in multiset(Ordered(entries, ids));
    var i :| 0 <= i < |entries| && Ordered(entries, ids)[i] == keyed[k];
    AwardsAreDistinct(entries, ids);
    LookUp(Awards(entries, ids), i);
  }

  /**
   * What the awards mean: values grow along the order; when priorities differ that is the order of the
   * least priority and then of the first slot, and nobody falls below it; when they are all the same
   * it is the selected order.
   */
  lemma AwardsFollowTheOrder(entries: seq<Entry>, ids: seq<int>, i: nat, j: nat)
    requires DistinctEntries(entries) && i < j < |entries|
    ensures var a, b := Ordered(entries, ids)[i].value, Ordered(entries, ids)[j].value;
            && a in entries && b in entries
            && Awards(entries, ids)[i].account == a.account && Awards(entries, ids)[j].account == b.account
            && Awards(entries, ids)[i].value < Awards(entries, ids)[j].value
            && (if Unset(entries) then
                  || Position(ids, a.account) < Position(ids, b.account)
                  || (Position(ids, a.account) == Position(ids, b.account) && a.account < b.account)
                else
                  || a.priority < b.priority || (a.priority == b.priority && a.index < b.index))
  {
    AwardsAreDistinct(entries, ids);
    ItemIsAnEntry(entries, ids, i);
    ItemIsAnEntry(entries, ids, j);
  }

  // ---------------------------------------------------------------- the same group again

  function Repriced(entries: seq<Entry>, table: map<int, int>): (r: seq<Entry>)
    requires forall e :: e in entries ==> e.account in table
    ensures |r| == |entries|
  {
    seq(|entries|, i requires 0 <= i < |entries| => entries[i].(priority := table[entries[i].account]))
  }

  function RepricedItem(item: Item<Entry>, table: map<int, int>): Item<Entry> {
    ByPriority(if item.value.account in table then item.value.(priority := table[item.value.account]) else item.value)
  }

  function RepricedItems(items: seq<Item<Entry>>, table: map<int, int>): (r: seq<Item<Entry>>)
    ensures |r| == |items|
  {
    seq(|items|, i requires 0 <= i < |items| => RepricedItem(items[i], table))
  }

  /** Repricing commutes with rearranging. */
  lemma {:induction false} RepricingRearranged(a: seq<Item<Entry>>, b: seq<Item<Entry>>, table: map<int, int>)
    requires multiset(a) == multiset(b)
    ensures multiset(RepricedItems(a, table)) == multiset(RepricedItems(b, table))
    decreases |a|
  {
    assert |multiset(a)| == |a| && |multiset(b)| == |b|;
    if a != [] {
      var n := |a| - 1;
      assert a[n] in multiset(b);
      var k :| 0 <= k < |b| && b[k] == a[n];
      RepricedWithout(a, n, table);
      RepricedWithout(b, k, table);
      RepricingRearranged(a[..n] + a[n + 1..], b[..k] + b[k + 1..], table);
    }
  }

  lemma RepricedWithout(b: seq<Item<Entry>>, k: nat, table: map<int, int>)
    requires k < |b|
    ensures var rest := b[..k] + b[k + 1..];
            && multiset(rest) == multiset(b) - multiset{b[k]}
            && multiset(RepricedItems(b, table))
               == multiset(RepricedItems(rest, table)) + multiset{RepricedItem(b[k], table)}
  {
    var before, x, after := b[..k], b[k], b[k + 1..];
    assert b == before + [x] + after;
    RepricedParts(before, after, table);
    RepricedParts(before, [x], table);
    RepricedParts(before + [x], after, table);
    assert RepricedItems([x], table) == [RepricedItem(x, table)];
  }

  lemma RepricedParts(a: seq<Item<Entry>>, b: seq<Item<Entry>>, table: map<int, int>)
    ensures RepricedItems(a + b, table) == RepricedItems(a, table) + RepricedItems(b, table)
  {
  }

  /** After one assignment the group sorts the same way, now by the priorities assigned. */
  lemma SameOrderAgain(entries: seq<Entry>, ids: seq<int>, table: map<int, int>, again: seq<Entry>)
    requires DistinctEntries(entries) && table == Table(entries, ids)
    requires forall e :: e in entries ==> e.account in table
    requires again == Repriced(entries, table)
    ensures !Unset(again)
    ensures Ordered(again, ids) == RepricedItems(Ordered(entries, ids), table)
    ensures forall i :: 0 <= i < |entries| ==> Ordered(again, ids)[i].value.priority == Values(entries, ids)[i]
  {
    var items := Ordered(entries, ids);
    var repriced := RepricedItems(items, table);
    AwardsAreDistinct(entries, ids);
    forall i | 0 <= i < |items|
      ensures repriced[i].value.priority == Values(entries, ids)[i] && repriced[i] == ByPriority(repriced[i].value)
    {
      LookUp(Awards(entries, ids), i);
    }
    assert Increasing(repriced);
    RepricingRearranged(items, Keyed(entries, ids, Unset(entries)), table);
    assert forall k :: 0 <= k < |entries| ==> entries[k] in entries;
    assert RepricedItems(Keyed(entries, ids, Unset(entries)), table) == Keyed(again, ids, false);
    NotUnsetAgain(again, repriced, ids);
    KeysAreDistinct(again, ids, false) by { RepricedDistinct(entries, table, again, ids); }
    SortIncreases(Keyed(again, ids, false));
    IncreasingIsUnique(Sort(Keyed(again, ids, false)), repriced);
  }

  lemma RepricedDistinct(entries: seq<Entry>, table: map<int, int>, again: seq<Entry>, ids: seq<int>)
    requires DistinctEntries(entries) && table == Table(entries, ids)
    requires forall e :: e in entries ==> e.account in table
    requires again == Repriced(entries, table)
    ensures DistinctEntries(again)
  {
    forall k | 0 <= k < |again| ensures again[k].priority >= 1 {
      assert entries[k] in entries;
      OnlyAwarded(Awards(entries, ids), entries[k].account);
      ValuesAreALadder(entries, ids);
    }
  }

  lemma NotUnsetAgain(again: seq<Entry>, items: seq<Item<Entry>>, ids: seq<int>)
    requires Increasing(items) && multiset(items) == multiset(Keyed(again, ids, false))
    requires forall i, j :: 0 <= i < j < |items| ==> items[i].value.priority != items[j].value.priority
    ensures !Unset(again)
  {
    var keyed := Keyed(again, ids, false);
    assert |multiset(items)| == |items| && |multiset(keyed)| == |keyed|;
    if |again| > 1 {
      assert items[0] in multiset(keyed) && items[1] in multiset(keyed);
      var k :| 0 <= k < |keyed| && keyed[k] == items[0];
      var l :| 0 <= l < |keyed| && keyed[l] == items[1];
      assert again[k].priority != again[l].priority;
    }
  }

  /** Assigning priorities to a group that has them assigned gives the same ones. */
  lemma AwardsAgain(entries: seq<Entry>, ids: seq<int>)
    requires DistinctEntries(entries)
    ensures forall e :: e in entries ==> e.account in Table(entries, ids)
    ensures Awards(Repriced(entries, Table(entries, ids)), ids) == Awards(entries, ids)
  {
    forall e | e in entries ensures e.account in Table(entries, ids) {
      var k :| 0 <= k < |entries| && entries[k] == e;
      EveryoneIsAwarded(entries, ids, k);
    }
    var table := Table(entries, ids);
    var again := Repriced(entries, table);
    SameOrderAgain(entries, ids, table, again);
    ValuesAreALadder(entries, ids);
    LadderStays(Values(entries, ids), Clamped(Ordered(again, ids)));
    SameAccountsAgain(entries, ids, table, again);
  }

  lemma SameAccountsAgain(entries: seq<Entry>, ids: seq<int>, table: map<int, int>, again: seq<Entry>)
    requires |again| == |entries| && Values(again, ids) == Values(entries, ids)
    requires Ordered(again, ids) == RepricedItems(Ordered(entries, ids), table)
    ensures Awards(again, ids) == Awards(entries, ids)
  {
    var items := Ordered(entries, ids);
    assert forall i :: 0 <= i < |items| ==> RepricedItem(items[i], table).value.account == items[i].value.account;
  }
}
