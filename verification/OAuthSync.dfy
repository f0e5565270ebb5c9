/**
 * The whole synchronisation: replicate slots, then assign priorities, on a configuration updated in
 * place; and why a second synchronisation changes nothing.
 */
module OAuthSync {
  import opened Wrappers
  import opened OAuthSlots
  import opened OAuthReplication
  import opened OAuthPriority
  import opened OAuthAwards
  import opened Sorting

  // ---------------------------------------------------------------- what an assignment is

  predicate HasSlot(models: seq<Model>, account: int) {
    exists j :: 0 <= j < |models| && IsSlot(models[j]) && models[j].account == account
  }

  /** The value one of the account's providers gives it. */
  predicate AwardedBy(models: seq<Model>, ids: seq<int>, provider: string, account: int, value: int) {
    var table := Table(Entries(models, provider), ids);
    account in table && table[account] == value
  }

  /**
   * One priority for every account with slots, given by one of its providers; when an account has
   * several, map order decides which.
   */
  ghost predicate Chosen(models: seq<Model>, ids: seq<int>, granted: map<int, int>) {
    && (forall a :: a in granted <==> HasSlot(models, a))
    && (forall a :: a in granted ==> exists provider :: AwardedBy(models, ids, provider, a, granted[a]))
  }

  function Assign(m: Model, granted: map<int, int>): Model {
    if m.source == "oauth" && m.account in granted then m.(priority := granted[m.account]) else m
  }

  function AssignAll(models: seq<Model>, granted: map<int, int>): (r: seq<Model>)
    ensures |r| == |models|
  {
    seq(|models|, i requires 0 <= i < |models| => Assign(models[i], granted))
  }

  function IdsOf(ids: Option<seq<int>>): seq<int> {
    if ids.Some? then ids.value else []
  }

  /** A possible result of one synchronisation. */
  ghost predicate Synced(models: seq<Model>, ids: Option<seq<int>>, result: seq<Model>) {
    exists additions, granted ::
      SyncedBy(models, ids, additions, granted, result)
  }

  ghost predicate SyncedBy(models: seq<Model>, ids: Option<seq<int>>, additions: seq<Model>, granted: map<int, int>,
                           result: seq<Model>)
  {
    && Completes(PoolOf(models, ids, []), additions)
    && Chosen(models + additions, IdsOf(ids), granted)
    && result == AssignAll(models + additions, granted)
  }

  // ---------------------------------------------------------------- the loops

  lemma EntriesStep(models: seq<Model>, i: nat, provider: string)
    requires i < |models|
    ensures Entries(models[..i + 1], provider)
         == if WishOf(models[i], provider).Some?
            then Entered(Entries(models[..i], provider), WishOf(models[i], provider).value, i)
            else Entries(models[..i], provider)
  {
    assert Wishes(models[..i + 1], provider)[..i] == Wishes(models[..i], provider);
  }

  ghost predicate GroupsOf(groups: map<string, seq<Entry>>, models: seq<Model>) {
    forall provider ::
      if provider in groups then groups[provider] == Entries(models, provider) != []
      else Entries(models, provider) == []
  }

  method Group(models: seq<Model>) returns (groups: map<string, seq<Entry>>)
    ensures GroupsOf(groups, models)
  {
    groups := map[];
    for i := 0 to |models|
      invariant GroupsOf(groups, models[..i])
    {
      var model := models[i];
      ghost var before := groups;
      if model.source == "oauth" && model.account > 0 {
        var provider := PlatformKey(model.platform);
        var entries := if provider in groups then groups[provider] else [];
        groups := groups[provider := Entered(entries, Wish(model.account, model.priority), i)];
      }
      GroupStep(before, groups, models, i);
    }
    assert models[..|models|] == models;
  }

  lemma GroupStep(before: map<string, seq<Entry>>, after: map<string, seq<Entry>>, models: seq<Model>, i: nat)
    requires i < |models| && GroupsOf(before, models[..i])
    requires after == if IsSlot(models[i]) then
                        var provider := PlatformKey(models[i].platform);
                        before[provider := Entered(if provider in before then before[provider] else [],
                                                   Wish(models[i].account, models[i].priority), i)]
                      else before
    ensures GroupsOf(after, models[..i + 1])
  {
    forall provider
      ensures if provider in after then after[provider] == Entries(models[..i + 1], provider) != []
              else Entries(models[..i + 1], provider) == []
    {
      EntriesStep(models, i, provider);
      assert if provider in before then before[provider] == Entries(models[..i], provider) != []
             else Entries(models[..i], provider) == [];
    }
  }

  method CountUp(n: nat) returns (values: seq<int>)
    ensures values == Counting(n)
  {
    values := [];
    for rank := 0 to n
      invariant values == Counting(rank)
    {
      values := values + [rank + 1];
    }
  }

  /** One group's priorities. */
  method AwardGroup(entries: seq<Entry>, ids: seq<int>) returns (table: map<int, int>)
    requires DistinctEntries(entries)
    ensures table == Table(entries, ids)
  {
    var items := Ordered(entries, ids);
    var values;
    if Unset(entries) {
      values := CountUp(|items|);
    } else {
      WishesAscend(entries, ids);
      values := SpaceOut(Clamped(items));
    }
    table := Tabulate(items, values, Awards(entries, ids));
  }

  method Tabulate(items: seq<Item<Entry>>, values: seq<int>, ghost awards: seq<Award>) returns (table: map<int, int>)
    requires |items| == |values| == |awards|
    requires forall i :: 0 <= i < |awards| ==> awards[i] == Award(items[i].value.account, values[i])
    ensures table == TableOf(awards)
  {
    table := map[];
    for i := 0 to |items|
      invariant table == TableOf(awards[..i])
    {
      assert awards[..i + 1][..i] == awards[..i];
      table := table[items[i].value.account := values[i]];
    }
    assert awards[..|items|] == awards;
  }

  lemma WishesAscend(entries: seq<Entry>, ids: seq<int>)
    requires DistinctEntries(entries) && !Unset(entries)
    ensures Ascending(Clamped(Ordered(entries, ids)))
    ensures forall w :: w in Clamped(Ordered(entries, ids)) ==> 1 <= w <= TOP
  {
    AwardsAreDistinct(entries, ids);
    var items := Ordered(entries, ids);
    forall i, j | 0 <= i < j < |items| ensures Clamped(items)[i] <= Clamped(items)[j] {
      ItemIsAnEntry(entries, ids, i);
      ItemIsAnEntry(entries, ids, j);
    }
  }

  /** All groups, in any order. */
  method AwardAll(groups: map<string, seq<Entry>>, ids: seq<int>) returns (granted: map<int, int>)
    requires forall provider :: provider in groups ==> DistinctEntries(groups[provider])
    ensures forall a :: a in granted <==> exists provider :: provider in groups && a in Table(groups[provider], ids)
    ensures forall a :: a in granted ==>
              exists provider :: provider in groups && a in Table(groups[provider], ids)
                                 && granted[a] == Table(groups[provider], ids)[a]
  {
    granted := map[];
    var rest := groups.Keys;
    while rest != {}
      invariant rest <= groups.Keys
      invariant forall a :: a in granted <==>
                  exists provider :: provider in groups.Keys - rest && a in Table(groups[provider], ids)
      invariant forall a :: a in granted ==>
                  exists provider :: provider in groups.Keys - rest && a in Table(groups[provider], ids)
                                     && granted[a] == Table(groups[provider], ids)[a]
      decreases rest
    {
      var provider :| provider in rest;
      var table := AwardGroup(groups[provider], ids);
      granted := granted + table;
      rest := rest - {provider};
    }
  }

  method Priorities(models: seq<Model>, ids: seq<int>) returns (granted: map<int, int>)
    ensures Chosen(models, ids, granted)
  {
    var groups := Group(models);
    forall provider | provider in groups ensures DistinctEntries(groups[provider]) {
      GroupsAreMinimal(Wishes(models, provider));
    }
    granted := AwardAll(groups, ids);
    ChosenFromGroups(models, ids, groups, granted);
  }

  method Update(models: seq<Model>, granted: map<int, int>) returns (updated: seq<Model>)
    ensures updated == AssignAll(models, granted)
  {
    updated := models;
    for i := 0 to |models|
      invariant |updated| == |models|
      invariant updated[..i] == AssignAll(models[..i], granted) && updated[i..] == models[i..]
    {
      assert updated[i] == models[i];
      if models[i].source == "oauth" && models[i].account in granted {
        updated := updated[i := models[i].(priority := granted[models[i].account])];
      }
    }
    assert models[..|models|] == models && updated[..|models|] == updated;
  }

  class RouterConfig {
    var oauthAccountIds: Option<seq<int>>
    var models: seq<Model>

    constructor (ids: Option<seq<int>>, slots: seq<Model>)
      ensures oauthAccountIds == ids && models == slots
    {
      oauthAccountIds, models := ids, slots;
    }

    method ReplicateSlots(extra: seq<(int, string)>)
      modifies this`models
      ensures old(models) <= models
      ensures Completes(PoolOf(old(models), oauthAccountIds, extra), models[|old(models)|..])
    {
      var additions := Additions(models, oauthAccountIds, extra);
      models := models + additions;
      assert models[|old(models)|..] == additions;
    }

    method AssignPriorities() returns (ghost granted: map<int, int>)
      modifies this`models
      ensures Chosen(old(models), IdsOf(oauthAccountIds), granted)
      ensures models == AssignAll(old(models), granted)
    {
      var chosen := Priorities(models, if oauthAccountIds.Some? then oauthAccountIds.value else []);
      granted := chosen;
      models := Update(models, chosen);
    }

    /** `sync_account_priorities_from_model_slots` */
    method Sync()
      modifies this`models
      ensures Synced(old(models), oauthAccountIds, models)
    {
      ReplicateSlots([]);
      ghost var additions := models[|old(models)|..];
      assert models == old(models) + additions;
      ghost var granted := AssignPriorities();
      assert SyncedBy(old(models), oauthAccountIds, additions, granted, models);
    }
  }

  lemma TableIsForSlots(models: seq<Model>, ids: seq<int>, provider: string, account: int)
    ensures account in Table(Entries(models, provider), ids)
       <==> exists j :: 0 <= j < |models| && IsSlot(models[j]) && models[j].account == account
                        && PlatformKey(models[j].platform) == provider
  {
    var entries := Entries(models, provider);
    var wishes := Wishes(models, provider);
    GroupsAreMinimal(wishes);
    if account in Table(entries, ids) {
      OnlyAwarded(Awards(entries, ids), account);
      var i :| 0 <= i < |entries| && Awards(entries, ids)[i].account == account;
      ItemIsAnEntry(entries, ids, i);
      var e := Ordered(entries, ids)[i].value;
      assert Minimal(e, wishes);
      assert WishedBy(wishes[e.index], account);
      assert wishes[e.index] == WishOf(models[e.index], provider);
    }
    if j :| 0 <= j < |models| && IsSlot(models[j]) && models[j].account == account
            && PlatformKey(models[j].platform) == provider {
      assert wishes[j] == WishOf(models[j], provider);
      EveryoneIsAwarded(entries, ids, EntryOf(entries, account));
    }
  }

  lemma ChosenFromGroups(models: seq<Model>, ids: seq<int>, groups: map<string, seq<Entry>>, granted: map<int, int>)
    requires GroupsOf(groups, models)
    requires forall a :: a in granted <==> exists provider :: provider in groups && a in Table(groups[provider], ids)
    requires forall a :: a in granted ==>
               exists provider :: provider in groups && a in Table(groups[provider], ids)
                                  && granted[a] == Table(groups[provider], ids)[a]
    ensures Chosen(models, ids, granted)
  {
    forall a ensures a in granted <==> HasSlot(models, a) {
      if a in granted {
        var provider :| provider in groups && a in Table(groups[provider], ids);
        TableIsForSlots(models, ids, provider, a);
      }
      if HasSlot(models, a) {
        var j :| 0 <= j < |models| && IsSlot(models[j]) && models[j].account == a;
        var provider := PlatformKey(models[j].platform);
        TableIsForSlots(models, ids, provider, a);
        assert Entries(models, provider) != [];
        assert provider in groups;
      }
    }
    forall a | a in granted ensures exists provider :: AwardedBy(models, ids, provider, a, granted[a]) {
      var provider :| provider in groups && a in Table(groups[provider], ids)
                      && granted[a] == Table(groups[provider], ids)[a];
      assert AwardedBy(models, ids, provider, a, granted[a]);
    }
  }

  // ---------------------------------------------------------------- one provider per account

  /** Every account's slots are of one provider. */
  predicate OneProvider(models: seq<Model>) {
    forall m, n :: m in models && n in models && IsSlot(m) && IsSlot(n) && m.account == n.account ==>
      PlatformKey(m.platform) == PlatformKey(n.platform)
  }

  /** Then map order does not matter: there is one possible assignment, by the slot's own provider. */
  lemma AwardedByOwnProvider(models: seq<Model>, ids: seq<int>, granted: map<int, int>, m: Model, provider: string)
    requires OneProvider(models) && Chosen(models, ids, granted)
    requires m in models && IsSlot(m) && PlatformKey(m.platform) == provider
    ensures m.account in granted && AwardedBy(models, ids, provider, m.account, granted[m.account])
  {
    assert HasSlot(models, m.account);
    var other :| AwardedBy(models, ids, other, m.account, granted[m.account]);
    TableIsForSlots(models, ids, other, m.account);
    var j :| 0 <= j < |models| && IsSlot(models[j]) && models[j].account == m.account
             && PlatformKey(models[j].platform) == other;
    assert models[j] in models;
  }

  lemma OnlyOneAssignment(models: seq<Model>, ids: seq<int>, first: map<int, int>, second: map<int, int>)
    requires OneProvider(models) && Chosen(models, ids, first) && Chosen(models, ids, second)
    ensures first == second
  {
    forall a | a in first ensures a in second && first[a] == second[a] {
      assert HasSlot(models, a);
      var j :| 0 <= j < |models| && IsSlot(models[j]) && models[j].account == a;
      var provider := PlatformKey(models[j].platform);
      AwardedByOwnProvider(models, ids, first, models[j], provider);
      AwardedByOwnProvider(models, ids, second, models[j], provider);
    }
    forall a ensures a in first.Keys <==> a in second.Keys {
      assert a in first <==> HasSlot(models, a);
      assert a in second <==> HasSlot(models, a);
    }
    assert first.Keys == second.Keys;
  }

  /** In one group's table different accounts have different values, none below 1. */
  lemma TableIsDistinct(entries: seq<Entry>, ids: seq<int>, a: int, b: int)
    requires DistinctEntries(entries) && a in Table(entries, ids) && b in Table(entries, ids)
    ensures Table(entries, ids)[a] >= 1
    ensures Table(entries, ids)[a] == Table(entries, ids)[b] <==> a == b
  {
    AwardsAreDistinct(entries, ids);
    OnlyAwarded(Awards(entries, ids), a);
    OnlyAwarded(Awards(entries, ids), b);
  }

  /** Different accounts of a provider get different priorities; the slots of one account share theirs. */
  lemma PrioritiesAreDistinct(models: seq<Model>, ids: seq<int>, granted: map<int, int>, m: Model, n: Model,
                              provider: string)
    requires OneProvider(models) && Chosen(models, ids, granted) && m in models && n in models
    requires IsSlot(m) && PlatformKey(m.platform) == provider && IsSlot(n) && PlatformKey(n.platform) == provider
    ensures Assign(m, granted).priority >= 1
    ensures Assign(m, granted).priority == Assign(n, granted).priority <==> m.account == n.account
  {
    AwardedByOwnProvider(models, ids, granted, m, provider);
    AwardedByOwnProvider(models, ids, granted, n, provider);
    GroupsAreMinimal(Wishes(models, provider));
    TableIsDistinct(Entries(models, provider), ids, m.account, n.account);
  }

  // ---------------------------------------------------------------- assigning twice

  lemma {:induction false} GroupedAgain(wishes: seq<Option<Wish>>, table: map<int, int>, again: seq<Option<Wish>>)
    requires |again| == |wishes|
    requires forall i :: 0 <= i < |wishes| ==>
               if wishes[i].None? then again[i].None?
               else
                 && wishes[i].value.account in table && table[wishes[i].value.account] >= 1
                 && again[i] == Some(Wish(wishes[i].value.account, table[wishes[i].value.account]))
    ensures forall e :: e in Grouped(wishes) ==> e.account in table
    ensures Grouped(again) == Repriced(Grouped(wishes), table)
  {
    if wishes != [] {
      var n := |wishes| - 1;
      GroupedAgain(wishes[..n], table, again[..n]);
      if wishes[n].Some? {
        EnteredAgain(Grouped(wishes[..n]), wishes[n].value, n, table);
      }
    }
  }

  lemma EnteredAgain(entries: seq<Entry>, w: Wish, index: nat, table: map<int, int>)
    requires forall e :: e in entries ==> e.account in table
    requires w.account in table && table[w.account] >= 1
    ensures forall e :: e in Entered(entries, w, index) ==> e.account in table
    ensures Entered(Repriced(entries, table), Wish(w.account, table[w.account]), index)
         == Repriced(Entered(entries, w, index), table)
  {
    SameEntry(entries, table, w.account);
  }

  lemma {:induction false} SameEntry(entries: seq<Entry>, table: map<int, int>, account: int)
    requires forall e :: e in entries ==> e.account in table
    ensures EntryOf(Repriced(entries, table), account) == EntryOf(entries, account)
  {
    if entries != [] {
      var n := |entries| - 1;
      assert forall e :: e in entries[..n] ==> e in entries;
      assert Repriced(entries, table)[..n] == Repriced(entries[..n], table);
      SameEntry(entries[..n], table, account);
    }
  }

  /** The wishes of a configuration whose priorities were assigned. */
  lemma WishesAgain(models: seq<Model>, ids: seq<int>, granted: map<int, int>, provider: string)
    requires OneProvider(models) && Chosen(models, ids, granted)
    ensures var entries := Entries(models, provider);
            && (forall e :: e in entries ==> e.account in Table(entries, ids))
            && Entries(AssignAll(models, granted), provider) == Repriced(entries, Table(entries, ids))
  {
    var wishes, again := Wishes(models, provider), Wishes(AssignAll(models, granted), provider);
    var table := Table(Entries(models, provider), ids);
    GroupsAreMinimal(wishes);
    forall i | 0 <= i < |wishes|
      ensures if wishes[i].None? then again[i].None?
              else
                && wishes[i].value.account in table && table[wishes[i].value.account] >= 1
                && again[i] == Some(Wish(wishes[i].value.account, table[wishes[i].value.account]))
    {
      assert again[i] == WishOf(Assign(models[i], granted), provider) && models[i] in models;
      if wishes[i].Some? {
        AwardedByOwnProvider(models, ids, granted, models[i], provider);
        TableIsDistinct(Entries(models, provider), ids, models[i].account, models[i].account);
      }
    }
    GroupedAgain(wishes, table, again);
  }

  /** Only priorities change: providers, accounts and models stay. */
  predicate SameButPriority(a: Model, b: Model) {
    b == a.(priority := b.priority)
  }

  /** Assigning priorities again assigns the same ones. */
  lemma AssigningAgain(models: seq<Model>, ids: seq<int>, granted: map<int, int>, again: map<int, int>)
    requires OneProvider(models) && Chosen(models, ids, granted)
    requires Chosen(AssignAll(models, granted), ids, again)
    ensures AssignAll(AssignAll(models, granted), again) == AssignAll(models, granted)
  {
    var after := AssignAll(models, granted);
    OneProviderAgain(models, granted);
    OnlyPositiveAccounts(after, ids, again);
    forall i | 0 <= i < |models| ensures Assign(after[i], again) == after[i] {
      assert after[i] == Assign(models[i], granted) && after[i] in after && models[i] in models;
      if IsSlot(models[i]) {
        var provider := PlatformKey(models[i].platform);
        AwardedByOwnProvider(models, ids, granted, models[i], provider);
        AwardedByOwnProvider(after, ids, again, after[i], provider);
        WishesAgain(models, ids, granted, provider);
        GroupsAreMinimal(Wishes(models, provider));
        AwardsAgain(Entries(models, provider), ids);
      }
    }
  }

  lemma OnlyPositiveAccounts(models: seq<Model>, ids: seq<int>, granted: map<int, int>)
    requires Chosen(models, ids, granted)
    ensures forall a :: a in granted ==> a > 0
  {
    forall a | a in granted ensures a > 0 {
      assert HasSlot(models, a);
    }
  }

  lemma OneProviderAgain(models: seq<Model>, granted: map<int, int>)
    requires OneProvider(models)
    ensures OneProvider(AssignAll(models, granted))
  {
    var after := AssignAll(models, granted);
    forall m, n | m in after && n in after && IsSlot(m) && IsSlot(n) && m.account == n.account
      ensures PlatformKey(m.platform) == PlatformKey(n.platform)
    {
      var i :| 0 <= i < |after| && after[i] == m;
      var j :| 0 <= j < |after| && after[j] == n;
      assert m == Assign(models[i], granted) && n == Assign(models[j], granted);
      assert models[i] in models && models[j] in models;
    }
  }
}
