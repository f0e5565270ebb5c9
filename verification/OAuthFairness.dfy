/**
 * What priorities an assignment gives, without saying how: of all the tables that serve every wish and keep the
 * order of the group, the least.
 */
module OAuthFairness {
  import opened OAuthSlots
  import opened OAuthPriority
  import opened OAuthAwards
  import opened OAuthSync
  import opened OAuthRange
  import opened Sorting

  // ---------------------------------------------------------------- the order of a group

  /** Several accounts, and all with the same priority: none was chosen. */
  predicate NobodyChose(entries: seq<Entry>) {
    && (exists e, f :: e in entries && f in entries && e.account != f.account)
    && (forall e, f :: e in entries && f in entries ==> e.priority == f.priority)
  }

  /** Up to the place where the first account stands in the selection, the other does not. */
  predicate SelectedBefore(ids: seq<int>, a: int, b: int) {
    exists k :: 0 <= k < |ids| && ids[k] == a && b !in ids[..k + 1]
  }

  /** The selected accounts in the order of the selection, then the others by number. */
  predicate GoesFirst(ids: seq<int>, a: int, b: int) {
    SelectedBefore(ids, a, b) || (a !in ids && b !in ids && a < b)
  }

  /** The selection decides if nobody chose, else the least priority and then the first slot. */
  predicate InFront(entries: seq<Entry>, ids: seq<int>, e: Entry, f: Entry) {
    if NobodyChose(entries) then GoesFirst(ids, e.account, f.account)
    else e.priority < f.priority || (e.priority == f.priority && e.index < f.index)
  }

  /** What an account asks for: what it has, up to 999; nothing if nobody chose. */
  function Wanted(entries: seq<Entry>, e: Entry): int {
    if NobodyChose(entries) then 1 else if e.priority > 999 then 999 else e.priority
  }

  /** Everyone gets what it asks for or more, and less than those behind it. */
  predicate Fair(entries: seq<Entry>, ids: seq<int>, table: map<int, int>) {
    && (forall e :: e in entries ==> e.account in table && table[e.account] >= Wanted(entries, e))
    && (forall e, f :: e in entries && f in entries && InFront(entries, ids, e, f) ==>
          e.account in table && f.account in table && table[e.account] < table[f.account])
  }

  // ---------------------------------------------------------------- the same order as the sort's

  lemma NobodyChoseIs(entries: seq<Entry>)
    requires DistinctEntries(entries)
    ensures NobodyChose(entries) <==> Unset(entries)
  {
    if NobodyChose(entries) {
      assert forall i :: 0 <= i < |entries| ==> entries[i] in entries;
    }
    if Unset(entries) {
      assert entries[0] in entries && entries[1] in entries && entries[0].account != entries[1].account;
    }
  }

  lemma {:induction false} RankIsFirst(ids: seq<int>, a: int, k: nat)
    requires k < |ids| && ids[k] == a
    ensures Rank(ids, a) <= k
  {
    if ids[0] != a {
      RankIsFirst(ids[1..], a, k - 1);
    }
  }

  lemma InPrefix(ids: seq<int>, b: int, n: nat)
    requires n <= |ids|
    ensures b in ids[..n] <==> b in ids && Rank(ids, b) < n
  {
    if b in ids[..n] {
      var j :| 0 <= j < n && ids[..n][j] == b;
      RankIsFirst(ids, b, j);
    }
    if b in ids && Rank(ids, b) < n {
      assert ids[..n][Rank(ids, b)] == b;
    }
  }

  lemma SelectedBeforeIs(ids: seq<int>, a: int, b: int)
    ensures SelectedBefore(ids, a, b) <==> a in ids && a != b && (b in ids ==> Rank(ids, a) < Rank(ids, b))
  {
    if k :| 0 <= k < |ids| && ids[k] == a && b !in ids[..k + 1] {
      RankIsFirst(ids, a, k);
      InPrefix(ids, a, k + 1);
      InPrefix(ids, b, k + 1);
    }
    if a in ids {
      InPrefix(ids, b, Rank(ids, a) + 1);
      assert a != b && (b in ids ==> Rank(ids, a) < Rank(ids, b)) ==> b !in ids[..Rank(ids, a) + 1];
    }
  }

  /** An array holds no more accounts than a machine word counts. */
  predicate Countable(ids: seq<int>) {
    |ids| <= USIZE_MAX
  }

  lemma GoesFirstIs(ids: seq<int>, a: int, b: int)
    requires Countable(ids)
    ensures GoesFirst(ids, a, b)
       <==> Position(ids, a) < Position(ids, b) || (Position(ids, a) == Position(ids, b) && a < b)
  {
    SelectedBeforeIs(ids, a, b);
  }

  lemma InFrontIs(entries: seq<Entry>, ids: seq<int>, e: Entry, f: Entry)
    requires DistinctEntries(entries) && Countable(ids)
    ensures InFront(entries, ids, e, f) <==> Before(e, f, ids, Unset(entries))
  {
    NobodyChoseIs(entries);
    GoesFirstIs(ids, e.account, f.account);
  }

  lemma WantedIs(entries: seq<Entry>, e: Entry)
    requires DistinctEntries(entries) && e in entries
    ensures Wanted(entries, e) == if Unset(entries) then 1 else Clamp(e.priority)
  {
    NobodyChoseIs(entries);
    var i :| 0 <= i < |entries| && entries[i] == e;
  }

  // ---------------------------------------------------------------- fair

  lemma ServedAt(entries: seq<Entry>, ids: seq<int>, i: nat)
    requires DistinctEntries(entries) && i < |entries|
    ensures Ordered(entries, ids)[i].value in entries
    ensures Values(entries, ids)[i] >= Wanted(entries, Ordered(entries, ids)[i].value)
  {
    ItemIsAnEntry(entries, ids, i);
    WantedIs(entries, Ordered(entries, ids)[i].value);
    SpacedServes(Clamped(Ordered(entries, ids)));
  }

  lemma TableIsFair(entries: seq<Entry>, ids: seq<int>)
    requires DistinctEntries(entries) && Countable(ids)
    ensures Fair(entries, ids, Table(entries, ids))
  {
    var table := Table(entries, ids);
    forall e | e in entries
      ensures e.account in table && table[e.account] >= Wanted(entries, e)
    {
      var i := PlaceOf(entries, ids, e);
      ServedAt(entries, ids, i);
    }
    forall e, f | e in entries && f in entries && InFront(entries, ids, e, f)
      ensures e.account in table && f.account in table && table[e.account] < table[f.account]
    {
      InFrontIs(entries, ids, e, f);
      TableFollowsTheOrder(entries, ids, e, f);
    }
  }

  // ---------------------------------------------------------------- and least

  /** What another table gives the accounts, in the order of the group. */
  function GivenBy(items: seq<Item<Entry>>, table: map<int, int>): (r: seq<int>)
    requires forall i :: 0 <= i < |items| ==> items[i].value.account in table
    ensures |r| == |items|
  {
    seq(|items|, i requires 0 <= i < |items| => table[items[i].value.account])
  }

  lemma InOrder(entries: seq<Entry>, ids: seq<int>, i: nat, j: nat)
    requires DistinctEntries(entries) && Countable(ids) && i < j < |entries|
    ensures InFront(entries, ids, Ordered(entries, ids)[i].value, Ordered(entries, ids)[j].value)
  {
    AwardsFollowTheOrder(entries, ids, i, j);
    InFrontIs(entries, ids, Ordered(entries, ids)[i].value, Ordered(entries, ids)[j].value);
  }

  lemma {:induction false} NoLessThanCounting(values: seq<int>, i: nat)
    requires i < |values| && forall k :: 0 <= k < |values| ==> values[k] >= 1
    requires forall k, l :: 0 <= k < l < |values| ==> values[k] < values[l]
    ensures values[i] >= i + 1
  {
    if i > 0 {
      NoLessThanCounting(values, i - 1);
      assert values[i - 1] < values[i];
    }
  }

  lemma FairServes(entries: seq<Entry>, ids: seq<int>, table: map<int, int>)
    requires DistinctEntries(entries) && Countable(ids) && Fair(entries, ids, table)
    ensures forall i :: 0 <= i < |entries| ==> Ordered(entries, ids)[i].value.account in table
    ensures forall i :: 0 <= i < |entries| ==>
              GivenBy(Ordered(entries, ids), table)[i]
              >= if Unset(entries) then 1 else Clamp(Ordered(entries, ids)[i].value.priority)
    ensures forall i, j :: 0 <= i < j < |entries| ==>
              GivenBy(Ordered(entries, ids), table)[i] < GivenBy(Ordered(entries, ids), table)[j]
  {
    var items := Ordered(entries, ids);
    forall i | 0 <= i < |entries|
      ensures items[i].value.account in table
      ensures table[items[i].value.account] >= if Unset(entries) then 1 else Clamp(items[i].value.priority)
    {
      ItemIsAnEntry(entries, ids, i);
      WantedIs(entries, items[i].value);
    }
    forall i, j | 0 <= i < j < |entries|
      ensures table[items[i].value.account] < table[items[j].value.account]
    {
      ItemIsAnEntry(entries, ids, i);
      ItemIsAnEntry(entries, ids, j);
      InOrder(entries, ids, i, j);
    }
  }

  lemma NoneIsLess(entries: seq<Entry>, ids: seq<int>, table: map<int, int>, i: nat)
    requires DistinctEntries(entries) && Countable(ids) && Fair(entries, ids, table) && i < |entries|
    ensures Ordered(entries, ids)[i].value.account in table
    ensures Values(entries, ids)[i] <= table[Ordered(entries, ids)[i].value.account]
  {
    var items := Ordered(entries, ids);
    FairServes(entries, ids, table);
    var others := GivenBy(items, table);
    if Unset(entries) {
      NoLessThanCounting(others, i);
    } else {
      assert Serves(others, Clamped(items));
      SpacedIsBelow(Clamped(items), others, i);
    }
  }

  lemma TableIsLeast(entries: seq<Entry>, ids: seq<int>, table: map<int, int>, e: Entry)
    requires DistinctEntries(entries) && Countable(ids) && Fair(entries, ids, table) && e in entries
    ensures e.account in Table(entries, ids) && Table(entries, ids)[e.account] <= table[e.account]
  {
    var i := PlaceOf(entries, ids, e);
    NoneIsLess(entries, ids, table, i);
  }

  // ---------------------------------------------------------------- through the configuration

  lemma GrantedIsTheTable(models: seq<Model>, ids: seq<int>, granted: map<int, int>, provider: string, e: Entry)
    requires OneProvider(models) && Chosen(models, ids, granted) && e in Entries(models, provider)
    ensures e.account in granted && e.account in Table(Entries(models, provider), ids)
    ensures granted[e.account] == Table(Entries(models, provider), ids)[e.account]
  {
    var wishes := Wishes(models, provider);
    GroupsAreMinimal(wishes);
    assert Minimal(e, wishes) && WishedBy(wishes[e.index], e.account);
    assert wishes[e.index] == WishOf(models[e.index], provider);
    AwardedByOwnProvider(models, ids, granted, models[e.index], provider);
  }

  /**
   * Exactly what an assignment gives the accounts of a provider: the least priorities that serve every wish and
   * keep the order of the group.
   */
  lemma PrioritiesAreFairAndLeast(models: seq<Model>, ids: seq<int>, granted: map<int, int>, provider: string)
    requires OneProvider(models) && Chosen(models, ids, granted) && Countable(ids)
    ensures Fair(Entries(models, provider), ids, granted)
    ensures forall other, e :: Fair(Entries(models, provider), ids, other) && e in Entries(models, provider) ==>
              granted[e.account] <= other[e.account]
  {
    var entries := Entries(models, provider);
    GroupsAreMinimal(Wishes(models, provider));
    TableIsFair(entries, ids);
    forall e | e in entries
      ensures e.account in granted && granted[e.account] == Table(entries, ids)[e.account]
    {
      GrantedIsTheTable(models, ids, granted, provider, e);
    }
    forall other, e | Fair(entries, ids, other) && e in entries
      ensures granted[e.account] <= other[e.account]
    {
      TableIsLeast(entries, ids, other, e);
    }
  }
}
