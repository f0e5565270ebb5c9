/** What a configuration's assigned priorities are: their order, and exactly when they stay within 1..=999. */
module OAuthRange {
  import opened Wrappers
  import opened OAuthSlots
  import opened OAuthPriority
  import opened OAuthAwards
  import opened OAuthSync
  import opened Sorting

  // ---------------------------------------------------------------- order

  /** Who goes first: by the selected order when nobody set a priority, else by least priority and first slot. */
  predicate Before(a: Entry, b: Entry, ids: seq<int>, unset: bool) {
    if unset then
      || Position(ids, a.account) < Position(ids, b.account)
      || (Position(ids, a.account) == Position(ids, b.account) && a.account < b.account)
    else
      || a.priority < b.priority
      || (a.priority == b.priority && a.index < b.index)
  }

  /** The least priority of an account's slots and the first of them are what its group says. */
  lemma MinimalIsTheEntry(wishes: seq<Option<Wish>>, e: Entry)
    requires Minimal(e, wishes)
    ensures e in Grouped(wishes)
  {
    var entries := Grouped(wishes);
    GroupsAreMinimal(wishes);
    var at := EntryOf(entries, e.account);
    assert at >= 0;
    var other := entries[at];
    assert other in entries && Minimal(other, wishes);
    assert WishedBy(wishes[e.index], e.account) && WishedBy(wishes[other.index], other.account);
    assert e == other;
  }

  /** Where an entry stands in the order, and what its account is given. */
  lemma PlaceOf(entries: seq<Entry>, ids: seq<int>, e: Entry) returns (i: nat)
    requires DistinctEntries(entries) && e in entries
    ensures i < |entries| && Ordered(entries, ids)[i].value == e
    ensures e.account in Table(entries, ids) && Table(entries, ids)[e.account] == Values(entries, ids)[i]
  {
    var k :| 0 <= k < |entries| && entries[k] == e;
    EveryoneIsAwarded(entries, ids, k);
    i :| 0 <= i < |entries| && Ordered(entries, ids)[i].value == e;
    AwardsAreDistinct(entries, ids);
    LookUp(Awards(entries, ids), i);
  }

  lemma TableFollowsTheOrder(entries: seq<Entry>, ids: seq<int>, e: Entry, f: Entry)
    requires DistinctEntries(entries) && e in entries && f in entries
    ensures e.account in Table(entries, ids) && f.account in Table(entries, ids)
    ensures Table(entries, ids)[e.account] < Table(entries, ids)[f.account] <==> Before(e, f, ids, Unset(entries))
  {
    var i := PlaceOf(entries, ids, e);
    var j := PlaceOf(entries, ids, f);
    if i < j {
      AwardsFollowTheOrder(entries, ids, i, j);
    } else if j < i {
      AwardsFollowTheOrder(entries, ids, j, i);
    }
  }

  /**
   * One slot ends up with less than another of its provider exactly when its account goes first: e and f
   * hold the least priority and the first slot of the two accounts.
   */
  lemma PrioritiesFollowTheOrder(models: seq<Model>, ids: seq<int>, granted: map<int, int>, provider: string,
                                 m: Model, n: Model, e: Entry, f: Entry)
    requires OneProvider(models) && Chosen(models, ids, granted) && m in models && n in models
    requires IsSlot(m) && PlatformKey(m.platform) == provider && IsSlot(n) && PlatformKey(n.platform) == provider
    requires Minimal(e, Wishes(models, provider)) && e.account == m.account
    requires Minimal(f, Wishes(models, provider)) && f.account == n.account
    ensures Assign(m, granted).priority < Assign(n, granted).priority
       <==> Before(e, f, ids, Unset(Entries(models, provider)))
  {
    MinimalIsTheEntry(Wishes(models, provider), e);
    MinimalIsTheEntry(Wishes(models, provider), f);
    GroupsAreMinimal(Wishes(models, provider));
    AwardedByOwnProvider(models, ids, granted, m, provider);
    AwardedByOwnProvider(models, ids, granted, n, provider);
    TableFollowsTheOrder(Entries(models, provider), ids, e, f);
  }

  // ---------------------------------------------------------------- counting wishes

  /** How many wish for a value or more. */
  function AtLeast(wishes: seq<int>, p: int): nat {
    if wishes == [] then 0
    else
      var n := |wishes| - 1;
      AtLeast(wishes[..n], p) + if wishes[n] >= p then 1 else 0
  }

  lemma {:induction false} ManyAtLeast(wishes: seq<int>, i: nat, p: int)
    requires Ascending(wishes) && i < |wishes| && wishes[i] >= p
    ensures AtLeast(wishes, p) >= |wishes| - i
  {
    if i < |wishes| - 1 {
      ManyAtLeast(wishes[..|wishes| - 1], i, p);
    }
  }

  lemma {:induction false} FewAtLeast(wishes: seq<int>, p: int)
    requires Ascending(wishes)
    ensures AtLeast(wishes, p) <= |wishes|
    ensures AtLeast(wishes, p) > 0 ==> wishes[|wishes| - AtLeast(wishes, p)] >= p
  {
    if wishes != [] {
      FewAtLeast(wishes[..|wishes| - 1], p);
    }
  }

  /** No value is wished for, or exceeded, by more accounts than there are values left. */
  predicate Uncrowded(wishes: seq<int>) {
    forall p :: 1 <= p <= TOP ==> AtLeast(wishes, p) <= TOP + 1 - p
  }

  lemma FitsIsUncrowded(wishes: seq<int>)
    requires Ascending(wishes) && forall i :: 0 <= i < |wishes| ==> 1 <= wishes[i] <= TOP
    ensures Fits(wishes, TOP) <==> Uncrowded(wishes)
  {
    if Uncrowded(wishes) {
      forall i | 0 <= i < |wishes| ensures wishes[i] + |wishes| - 1 - i <= TOP {
        ManyAtLeast(wishes, i, wishes[i]);
        assert AtLeast(wishes, wishes[i]) <= TOP + 1 - wishes[i];
      }
    }
    if Fits(wishes, TOP) {
      forall p | 1 <= p <= TOP ensures AtLeast(wishes, p) <= TOP + 1 - p {
        FewAtLeast(wishes, p);
      }
    }
  }

  // ---------------------------------------------------------------- sorting keeps the counts

  function Clamps(entries: seq<Entry>): (r: seq<int>)
    ensures |r| == |entries|
  {
    seq(|entries|, i requires 0 <= i < |entries| => Clamp(entries[i].priority))
  }

  lemma OneMoreCounted(items: seq<Item<Entry>>, x: Item<Entry>, p: int)
    ensures AtLeast(Clamped(items + [x]), p)
         == AtLeast(Clamped(items), p) + if Clamp(x.value.priority) >= p then 1 else 0
  {
    assert Clamped(items + [x])[..|items|] == Clamped(items);
  }

  lemma {:induction false} InsertedCounts(items: seq<Item<Entry>>, x: Item<Entry>, p: int)
    requires Sorted(items)
    ensures AtLeast(Clamped(Insert(items, x)), p) == AtLeast(Clamped(items + [x]), p)
  {
    if items != [] && Less(x.key, items[|items| - 1].key) {
      var last := items[|items| - 1];
      var rest := items[..|items| - 1];
      InsertedCounts(rest, x, p);
      assert items == rest + [last];
      OneMoreCounted(Insert(rest, x), last, p);
      OneMoreCounted(rest, x, p);
      OneMoreCounted(rest, last, p);
      OneMoreCounted(items, x, p);
    }
  }

  lemma {:induction false} SortedCounts(items: seq<Item<Entry>>, p: int)
    ensures AtLeast(Clamped(Sort(items)), p) == AtLeast(Clamped(items), p)
  {
    if items != [] {
      var rest, last := items[..|items| - 1], items[|items| - 1];
      assert items == rest + [last];
      SortedCounts(rest, p);
      InsertedCounts(Sort(rest), last, p);
      OneMoreCounted(Sort(rest), last, p);
      OneMoreCounted(rest, last, p);
    }
  }

  // ---------------------------------------------------------------- range

  /** The accounts of a provider leave room for each other below the top. */
  predicate Roomy(entries: seq<Entry>) {
    if Unset(entries) then |entries| <= TOP else Uncrowded(Clamps(entries))
  }

  predicate AllWithin(values: seq<int>) {
    forall v :: v in values ==> 1 <= v <= TOP
  }

  lemma ValuesWithin(entries: seq<Entry>, ids: seq<int>)
    requires DistinctEntries(entries)
    ensures AllWithin(Values(entries, ids)) <==> Roomy(entries)
  {
    if Unset(entries) {
      var n := |entries|;
      assert Counting(n)[n - 1] == n && Counting(n)[n - 1] in Counting(n);
    } else {
      var items := Ordered(entries, ids);
      WishesAscend(entries, ids);
      WithinTheTop(Clamped(items));
      FitsIsUncrowded(Clamped(items));
      SameCrowd(entries, ids);
    }
  }

  lemma SameCrowd(entries: seq<Entry>, ids: seq<int>)
    requires !Unset(entries)
    ensures Uncrowded(Clamped(Ordered(entries, ids))) <==> Uncrowded(Clamps(entries))
  {
    var keyed := Keyed(entries, ids, false);
    assert Clamped(keyed) == Clamps(entries);
    forall p ensures AtLeast(Clamped(Ordered(entries, ids)), p) == AtLeast(Clamps(entries), p) {
      SortedCounts(keyed, p);
    }
  }

  /** The provider's slots all have a priority within 1..=999. */
  predicate SlotsWithin(models: seq<Model>, provider: string) {
    forall m :: m in models && IsSlot(m) && PlatformKey(m.platform) == provider ==> 1 <= m.priority <= TOP
  }

  /** What a slot is given is one of its group's values. */
  lemma GivenFromTheGroup(models: seq<Model>, ids: seq<int>, granted: map<int, int>, provider: string, m: Model)
    requires OneProvider(models) && Chosen(models, ids, granted)
    requires m in models && IsSlot(m) && PlatformKey(m.platform) == provider
    ensures Assign(m, granted).priority in Values(Entries(models, provider), ids)
  {
    var entries := Entries(models, provider);
    AwardedByOwnProvider(models, ids, granted, m, provider);
    OnlyAwarded(Awards(entries, ids), m.account);
  }

  /** Every value of the group is some slot's. */
  lemma GivenToASlot(models: seq<Model>, ids: seq<int>, granted: map<int, int>, provider: string, i: nat)
    returns (k: nat)
    requires OneProvider(models) && Chosen(models, ids, granted)
    requires i < |Entries(models, provider)|
    ensures k < |models| && IsSlot(models[k]) && PlatformKey(models[k].platform) == provider
    ensures Assign(models[k], granted).priority == Values(Entries(models, provider), ids)[i]
  {
    var entries, wishes := Entries(models, provider), Wishes(models, provider);
    GroupsAreMinimal(wishes);
    ItemIsAnEntry(entries, ids, i);
    var e := Ordered(entries, ids)[i].value;
    assert Minimal(e, wishes);
    k := e.index;
    assert WishedBy(wishes[k], e.account) && wishes[k] == WishOf(models[k], provider);
    AwardedByOwnProvider(models, ids, granted, models[k], provider);
    AwardsAreDistinct(entries, ids);
    LookUp(Awards(entries, ids), i);
  }

  /**
   * After an assignment a provider's priorities are all within 1..=999 exactly when its accounts leave room:
   * at most 999 of them if nobody set a priority, else at most 1000 - p whose priority is p or more, for every p.
   */
  lemma PrioritiesWithinTheTop(models: seq<Model>, ids: seq<int>, granted: map<int, int>, provider: string)
    requires OneProvider(models) && Chosen(models, ids, granted)
    ensures SlotsWithin(AssignAll(models, granted), provider) <==> Roomy(Entries(models, provider))
  {
    var entries := Entries(models, provider);
    GroupsAreMinimal(Wishes(models, provider));
    ValuesWithin(entries, ids);
    if Roomy(entries) {
      SlotsFromValues(models, ids, granted, provider);
    }
    if SlotsWithin(AssignAll(models, granted), provider) {
      ValuesFromSlots(models, ids, granted, provider);
    }
  }

  lemma SlotsFromValues(models: seq<Model>, ids: seq<int>, granted: map<int, int>, provider: string)
    requires OneProvider(models) && Chosen(models, ids, granted) && AllWithin(Values(Entries(models, provider), ids))
    ensures SlotsWithin(AssignAll(models, granted), provider)
  {
    var after := AssignAll(models, granted);
    forall m | m in after && IsSlot(m) && PlatformKey(m.platform) == provider ensures 1 <= m.priority <= TOP {
      var k :| 0 <= k < |models| && m == Assign(models[k], granted);
      GivenFromTheGroup(models, ids, granted, provider, models[k]);
    }
  }

  lemma ValuesFromSlots(models: seq<Model>, ids: seq<int>, granted: map<int, int>, provider: string)
    requires OneProvider(models) && Chosen(models, ids, granted) && SlotsWithin(AssignAll(models, granted), provider)
    ensures AllWithin(Values(Entries(models, provider), ids))
  {
    var values, after := Values(Entries(models, provider), ids), AssignAll(models, granted);
    forall i | 0 <= i < |values| ensures 1 <= values[i] <= TOP {
      var k := GivenToASlot(models, ids, granted, provider, i);
      assert after[k] == Assign(models[k], granted) && after[k] in after;
    }
  }

  lemma AwardedWithin(models: seq<Model>, ids: seq<int>, provider: string, account: int, value: int)
    requires AwardedBy(models, ids, provider, account, value) && Roomy(Entries(models, provider))
    ensures 1 <= value <= TOP
  {
    var entries := Entries(models, provider);
    GroupsAreMinimal(Wishes(models, provider));
    ValuesWithin(entries, ids);
    OnlyAwarded(Awards(entries, ids), account);
    assert value in Values(entries, ids);
  }

  ghost predicate RoomEverywhere(models: seq<Model>) {
    forall provider :: Roomy(Entries(models, provider))
  }

  /** Also when accounts have several providers: where every group leaves room, every priority is within 1..=999. */
  lemma RoomForAll(models: seq<Model>, ids: seq<int>, granted: map<int, int>, account: int)
    requires Chosen(models, ids, granted) && RoomEverywhere(models) && account in granted
    ensures 1 <= granted[account] <= TOP
  {
    var provider :| AwardedBy(models, ids, provider, account, granted[account]);
    AwardedWithin(models, ids, provider, account, granted[account]);
  }

  // ---------------------------------------------------------------- when map order matters

  /** Whatever order the map of groups is walked in, the assignment is the same. */
  ghost predicate OrderIsIrrelevant(models: seq<Model>, ids: seq<int>) {
    forall f, g :: Chosen(models, ids, f) && Chosen(models, ids, g) ==> f == g
  }

  /** All providers of an account give it the same value. */
  ghost predicate ProvidersAgree(models: seq<Model>, ids: seq<int>) {
    forall a, p, q, v, w :: AwardedBy(models, ids, p, a, v) && AwardedBy(models, ids, q, a, w) ==> v == w
  }

  /** Exactly when the order is irrelevant: when all providers of an account give it the same value. */
  lemma OrderIsIrrelevantExactlyWhen(models: seq<Model>, ids: seq<int>)
    ensures OrderIsIrrelevant(models, ids) <==> ProvidersAgree(models, ids)
  {
    if ProvidersAgree(models, ids) {
      forall f, g | Chosen(models, ids, f) && Chosen(models, ids, g) ensures f == g {
        AgreedIsTheSame(models, ids, f, g);
      }
    }
    if OrderIsIrrelevant(models, ids) {
      forall a, p, q, v, w | AwardedBy(models, ids, p, a, v) && AwardedBy(models, ids, q, a, w) ensures v == w {
        TwoAwards(models, ids, a, p, q, v, w);
      }
    }
  }

  lemma TwoAwards(models: seq<Model>, ids: seq<int>, a: int, p: string, q: string, v: int, w: int)
    requires OrderIsIrrelevant(models, ids) && AwardedBy(models, ids, p, a, v) && AwardedBy(models, ids, q, a, w)
    ensures v == w
  {
    var f := SomeAssignment(models, ids);
    AwardIsPossible(models, ids, f, p, a, v);
    AwardIsPossible(models, ids, f, q, a, w);
    var first, second := f[a := v], f[a := w];
    assert Chosen(models, ids, first) && Chosen(models, ids, second);
    assert first[a] == v && second[a] == w;
  }

  lemma AgreedIsTheSame(models: seq<Model>, ids: seq<int>, f: map<int, int>, g: map<int, int>)
    requires ProvidersAgree(models, ids) && Chosen(models, ids, f) && Chosen(models, ids, g)
    ensures f == g
  {
    forall a ensures a in f.Keys <==> a in g.Keys {
      assert a in f <==> HasSlot(models, a);
      assert a in g <==> HasSlot(models, a);
    }
    assert f.Keys == g.Keys;
    forall a | a in f ensures f[a] == g[a] {
      var p :| AwardedBy(models, ids, p, a, f[a]);
      var q :| AwardedBy(models, ids, q, a, g[a]);
    }
  }

  /** There is an assignment: an account with a slot has a group that gives it something. */
  lemma SomeAward(models: seq<Model>, ids: seq<int>, account: int) returns (provider: string)
    requires HasSlot(models, account)
    ensures account in Table(Entries(models, provider), ids)
  {
    var j :| 0 <= j < |models| && IsSlot(models[j]) && models[j].account == account;
    provider := PlatformKey(models[j].platform);
    TableIsForSlots(models, ids, provider, account);
  }

  /** An assignment for the accounts seen so far, grown one model at a time. */
  lemma {:induction false} AwardsSoFar(models: seq<Model>, ids: seq<int>, n: nat) returns (f: map<int, int>)
    requires n <= |models|
    ensures forall a :: a in f <==> HasSlot(models[..n], a)
    ensures forall a :: a in f ==> exists provider :: AwardedBy(models, ids, provider, a, f[a])
  {
    if n == 0 {
      return map[];
    }
    f := AwardsSoFar(models, ids, n - 1);
    var m := models[n - 1];
    SlotsSoFar(models, n);
    if IsSlot(m) && m.account !in f {
      assert HasSlot(models, m.account);
      var provider := SomeAward(models, ids, m.account);
      var value := Table(Entries(models, provider), ids)[m.account];
      assert AwardedBy(models, ids, provider, m.account, value);
      f := f[m.account := value];
    }
  }

  lemma SlotsSoFar(models: seq<Model>, n: nat)
    requires 0 < n <= |models|
    ensures forall a :: HasSlot(models[..n], a)
                 <==> HasSlot(models[..n - 1], a) || (IsSlot(models[n - 1]) && models[n - 1].account == a)
  {
    forall a ensures HasSlot(models[..n], a)
                <==> HasSlot(models[..n - 1], a) || (IsSlot(models[n - 1]) && models[n - 1].account == a)
    {
      if HasSlot(models[..n - 1], a) {
        var j :| 0 <= j < n - 1 && IsSlot(models[..n - 1][j]) && models[..n - 1][j].account == a;
        assert models[..n][j] == models[..n - 1][j];
      }
      assert models[..n][n - 1] == models[n - 1];
    }
  }

  lemma SomeAssignment(models: seq<Model>, ids: seq<int>) returns (f: map<int, int>)
    ensures Chosen(models, ids, f)
  {
    f := AwardsSoFar(models, ids, |models|);
    assert models[..|models|] == models;
  }

  lemma AwardIsPossible(models: seq<Model>, ids: seq<int>, f: map<int, int>, provider: string, account: int, value: int)
    requires Chosen(models, ids, f) && AwardedBy(models, ids, provider, account, value)
    ensures Chosen(models, ids, f[account := value])
  {
    TableIsForSlots(models, ids, provider, account);
    assert HasSlot(models, account);
  }

  /** And the configuration shows the difference: two assignments give the same models only if they are the same. */
  lemma AssignmentsShow(models: seq<Model>, ids: seq<int>, f: map<int, int>, g: map<int, int>)
    requires Chosen(models, ids, f) && Chosen(models, ids, g) && AssignAll(models, f) == AssignAll(models, g)
    ensures f == g
  {
    forall a ensures (a in f <==> a in g) && (a in f ==> f[a] == g[a]) {
      if HasSlot(models, a) {
        var j :| 0 <= j < |models| && IsSlot(models[j]) && models[j].account == a;
        assert AssignAll(models, f)[j] == AssignAll(models, g)[j];
        assert Assign(models[j], f).priority == f[a] && Assign(models[j], g).priority == g[a];
      }
    }
    assert f.Keys == g.Keys;
  }

  // ---------------------------------------------------------------- an account of two providers

  /** One wish among two makes one entry. */
  lemma LoneEntry(wishes: seq<Option<Wish>>, k: nat, wish: Wish)
    requires |wishes| == 2 && k < 2 && wishes[k] == Some(wish) && wishes[1 - k].None?
    ensures Grouped(wishes) == [Entry(wish.account, Max(wish.priority, 1), k)]
  {
    OneMoreEntry(wishes, 0);
    OneMoreEntry(wishes, 1);
    assert wishes[..2] == wishes && wishes[..0] == [];
  }

  lemma OneMoreEntry(wishes: seq<Option<Wish>>, i: nat)
    requires i < |wishes|
    ensures Grouped(wishes[..i + 1])
         == if wishes[i].Some? then Entered(Grouped(wishes[..i]), wishes[i].value, i) else Grouped(wishes[..i])
  {
    assert wishes[..i + 1][..i] == wishes[..i];
  }

  lemma LoneValue(entry: Entry, ids: seq<int>)
    requires 1 <= entry.priority <= TOP
    ensures Values([entry], ids) == [entry.priority] && Ordered([entry], ids) == [ByPriority(entry)]
  {
    var keyed := Keyed([entry], ids, false);
    assert keyed == [ByPriority(entry)] && keyed[..0] == [];
    assert Sort(keyed) == [ByPriority(entry)];
    var wishes := Clamped(Ordered([entry], ids));
    assert wishes == [entry.priority] && wishes[..0] == [];
  }

  lemma LoneAward(entry: Entry, ids: seq<int>)
    requires 1 <= entry.priority <= TOP
    ensures Table([entry], ids) == map[entry.account := entry.priority]
  {
    LoneValue(entry, ids);
    var awards := Awards([entry], ids);
    assert awards == [Award(entry.account, entry.priority)];
    OneAward(awards[0]);
  }

  lemma OneAward(award: Award)
    ensures TableOf([award]) == map[award.account := award.value]
  {
    assert [award][..0] == [];
    assert TableOf([]) == map[];
  }

  lemma AloneInItsGroup(models: seq<Model>, ids: seq<int>, k: nat, provider: string, wish: Wish)
    requires |models| == 2 && k < 2
    requires WishOf(models[k], provider) == Some(wish) && WishOf(models[1 - k], provider).None?
    requires 1 <= wish.priority <= TOP
    ensures AwardedBy(models, ids, provider, wish.account, wish.priority)
  {
    LoneEntry(Wishes(models, provider), k, wish);
    LoneAward(Entry(wish.account, wish.priority, k), ids);
  }

  /**
   * The smallest case: an account with one slot of each of two providers may get the priority of either, so the
   * order of the map decides unless the two are the same.
   */
  lemma MapOrderDecides(m: Model, n: Model, ids: seq<int>, p: string, q: string)
    requires IsSlot(m) && IsSlot(n) && m.account == n.account
    requires PlatformKey(m.platform) == p && PlatformKey(n.platform) == q && p != q
    requires 1 <= m.priority <= TOP && 1 <= n.priority <= TOP
    ensures Chosen([m, n], ids, map[m.account := m.priority])
    ensures Chosen([m, n], ids, map[m.account := n.priority])
    ensures OrderIsIrrelevant([m, n], ids) ==> m.priority == n.priority
  {
    var models := [m, n];
    var a := m.account;
    AloneInItsGroup(models, ids, 0, p, Wish(a, m.priority));
    AloneInItsGroup(models, ids, 1, q, Wish(a, n.priority));
    OnlyAccount(models, a);
    OneAwardChosen(models, ids, a, p, m.priority);
    OneAwardChosen(models, ids, a, q, n.priority);
    if OrderIsIrrelevant(models, ids) {
      TwoAwards(models, ids, a, p, q, m.priority, n.priority);
    }
  }

  lemma OneAwardChosen(models: seq<Model>, ids: seq<int>, account: int, provider: string, value: int)
    requires (forall a :: HasSlot(models, a) <==> a == account) && AwardedBy(models, ids, provider, account, value)
    ensures Chosen(models, ids, map[account := value])
  {
  }

  lemma OnlyAccount(models: seq<Model>, account: int)
    requires |models| == 2 && IsSlot(models[0]) && models[0].account == account && models[1].account == account
    ensures forall a :: HasSlot(models, a) <==> a == account
  {
  }
}
