/** Replicating selected slots within a provider: the loops, and why doing it once is enough. */
module OAuthReplication {
  import opened Wrappers
  import opened OAuthSlots

  // ---------------------------------------------------------------- what the maps hold

  predicate FaithfulTemplate(models: seq<Model>, selected: seq<int>, key: (string, string), t: Model) {
    t in models && IsSlot(t) && t.account in selected && key == (PlatformKey(t.platform), Canonical(t.model))
  }

  lemma {:induction false} TemplateIsFaithful(models: seq<Model>, selected: seq<int>, key: (string, string))
    requires key in Templates(models, selected)
    ensures FaithfulTemplate(models, selected, key, Templates(models, selected)[key])
  {
    var n := |models| - 1;
    var earlier := Templates(models[..n], selected);
    if key in earlier {
      TemplateIsFaithful(models[..n], selected, key);
      assert earlier[key] in models[..n];
      assert Templates(models, selected)[key] == earlier[key];
    } else {
      assert Templates(models, selected)[key] == models[n];
    }
  }

  lemma EverySelectedSlotHasATemplate(models: seq<Model>, selected: seq<int>, m: Model)
    requires m in models && IsSlot(m) && m.account in selected
    ensures (PlatformKey(m.platform), Canonical(m.model)) in Templates(models, selected)
  {
    HasTemplate(models, selected, m, (PlatformKey(m.platform), Canonical(m.model)));
  }

  lemma {:induction false} HasTemplate(models: seq<Model>, selected: seq<int>, m: Model, key: (string, string))
    requires m in models && IsSlot(m) && m.account in selected
    requires key == (PlatformKey(m.platform), Canonical(m.model))
    ensures key in Templates(models, selected)
  {
    var n := |models| - 1;
    if m in models[..n] {
      HasTemplate(models[..n], selected, m, key);
      StaysTemplate(Templates(models[..n], selected), models[n], selected, key);
    } else {
      LastOfAll(models, m);
      TakesTemplate(Templates(models[..n], selected), m, selected, key);
    }
  }

  lemma LastOfAll(models: seq<Model>, m: Model)
    requires m in models && m !in models[..|models| - 1]
    ensures m == models[|models| - 1]
  {
    assert models == models[..|models| - 1] + [models[|models| - 1]];
  }

  lemma TakesTemplate(earlier: map<(string, string), Model>, m: Model, selected: seq<int>, key: (string, string))
    requires IsSlot(m) && m.account in selected && key == (PlatformKey(m.platform), Canonical(m.model))
    ensures key in WithTemplate(earlier, m, selected)
  {
  }

  lemma StaysTemplate(earlier: map<(string, string), Model>, m: Model, selected: seq<int>, key: (string, string))
    requires key in earlier
    ensures key in WithTemplate(earlier, m, selected) && WithTemplate(earlier, m, selected)[key] == earlier[key]
  {
  }

  lemma {:induction false} SlotIsPresent(models: seq<Model>, m: Model)
    requires m in models && IsSlot(m)
    ensures PairOf(m) in Present(models)
  {
    var n := |models| - 1;
    if m in models[..n] {
      SlotIsPresent(models[..n], m);
    } else {
      assert m == models[n];
    }
  }

  lemma {:induction false} PresentHasASlot(models: seq<Model>, pair: (int, string)) returns (m: Model)
    requires pair in Present(models)
    ensures m in models && IsSlot(m) && PairOf(m) == pair
  {
    var n := |models| - 1;
    if pair in PairsOf(models[n]) {
      m := models[n];
    } else {
      m := PresentHasASlot(models[..n], pair);
    }
  }

  lemma PresentPairs(models: seq<Model>, pair: (int, string))
    ensures pair in Present(models) <==> exists m :: m in models && IsSlot(m) && PairOf(m) == pair
  {
    if pair in Present(models) {
      var m := PresentHasASlot(models, pair);
    }
    if m :| m in models && IsSlot(m) && PairOf(m) == pair {
      SlotIsPresent(models, m);
    }
  }

  // ---------------------------------------------------------------- one more slot

  predicate Consistent(p: Pool) {
    forall key :: key in p.templates ==>
      key == (PlatformKey(p.templates[key].platform), Canonical(p.templates[key].model))
  }

  /** A new slot is for the account and the canonical model asked for, with the same provider. */
  lemma NewSlotIsAsAsked(p: Pool, account: int, canonical: string)
    requires Consistent(p) && Offered(p, account, canonical)
    ensures var m := NewSlot(p, account, canonical);
            PairOf(m) == (account, canonical) && PlatformKey(m.platform) == PlatformKey(p.platforms[account])
  {
    var key := (PlatformKey(p.platforms[account]), canonical);
    assert key in p.templates;
  }

  lemma AddingKeepsProper(p: Pool, additions: seq<Model>, account: int, canonical: string)
    requires Consistent(p) && ProperSlots(p, additions) && NoPairTwice(additions)
    requires Missing(p, (account, canonical)) && !Covers(additions, (account, canonical))
    ensures var m := NewSlot(p, account, canonical);
            ProperSlots(p, additions + [m]) && NoPairTwice(additions + [m])
  {
    NewSlotIsAsAsked(p, account, canonical);
    var m := NewSlot(p, account, canonical);
    NewPair(additions, m);
    forall x | x in additions + [m] ensures Missing(p, PairOf(x)) && x == NewSlot(p, x.account, Canonical(x.model)) {
      assert x in additions || x == m;
    }
  }

  lemma NewPair(additions: seq<Model>, m: Model)
    requires NoPairTwice(additions) && !Covers(additions, PairOf(m))
    ensures NoPairTwice(additions + [m])
  {
    forall i | 0 <= i < |additions| ensures PairOf(additions[i]) != PairOf(m) {
      assert additions[i] in additions;
    }
  }

  /** The pairs present so far are those there were and those added. */
  ghost predicate Recorded(p: Pool, additions: seq<Model>, present: set<(int, string)>) {
    forall pair :: pair in present <==> pair in p.present || Covers(additions, pair)
  }

  ghost predicate CoveredFor(p: Pool, additions: seq<Model>, accounts: seq<int>) {
    forall pair :: Missing(p, pair) && pair.0 in accounts ==> Covers(additions, pair)
  }

  /** The account's models outside `rest` are there. */
  ghost predicate CoveredOutside(p: Pool, additions: seq<Model>, account: int, rest: set<(string, string)>)
    requires account in p.platforms
  {
    forall pair :: Missing(p, pair) && pair.0 == account && (PlatformKey(p.platforms[account]), pair.1) !in rest ==>
      Covers(additions, pair)
  }

  ghost predicate RankedBelow(selected: seq<int>, additions: seq<Model>, bound: nat) {
    && InSelectedOrder(selected, additions)
    && forall m :: m in additions ==> Rank(selected, m.account) < bound
  }

  ghost predicate Building(p: Pool, additions: seq<Model>, present: set<(int, string)>) {
    && ProperSlots(p, additions) && NoPairTwice(additions) && Recorded(p, additions, present)
  }

  lemma AddingRecords(p: Pool, additions: seq<Model>, present: set<(int, string)>, m: Model)
    requires Recorded(p, additions, present)
    ensures Recorded(p, additions + [m], present + {PairOf(m)})
    ensures forall pair :: Covers(additions, pair) ==> Covers(additions + [m], pair)
    ensures Covers(additions + [m], PairOf(m))
  {
    assert m in additions + [m];
    forall pair ensures Covers(additions + [m], pair) <==> Covers(additions, pair) || pair == PairOf(m) {
      if Covers(additions, pair) {
        var x :| x in additions && PairOf(x) == pair;
        assert x in additions + [m];
      }
    }
  }

  lemma AddingKeepsOrder(selected: seq<int>, additions: seq<Model>, m: Model, i: nat)
    requires i < |selected| && m.account == selected[i] && m.account !in selected[..i]
    requires RankedBelow(selected, additions, i + 1)
    ensures RankedBelow(selected, additions + [m], i + 1)
  {
    assert Rank(selected, m.account) == i;
    assert forall j :: 0 <= j < |additions| ==> additions[j] in additions;
  }

  // ---------------------------------------------------------------- the loops

  lemma OneMoreModel(models: seq<Model>, i: nat, selected: seq<int>)
    requires i < |models|
    ensures Templates(models[..i + 1], selected) == WithTemplate(Templates(models[..i], selected), models[i], selected)
    ensures Present(models[..i + 1]) == Present(models[..i]) + PairsOf(models[i])
  {
    assert models[..i + 1][..i] == models[..i];
  }

  method CollectTemplates(models: seq<Model>, selected: seq<int>)
    returns (templates: map<(string, string), Model>, present: set<(int, string)>)
    ensures templates == Templates(models, selected) && present == Present(models)
  {
    templates, present := map[], {};
    for i := 0 to |models|
      invariant templates == Templates(models[..i], selected) && present == Present(models[..i])
    {
      var model := models[i];
      OneMoreModel(models, i, selected);
      if model.source != "oauth" || model.account <= 0 {
        continue;
      }
      var canonical := Canonical(model.model);
      present := present + {(model.account, canonical)};
      if model.account !in selected {
        continue;
      }
      var key := (PlatformKey(model.platform), canonical);
      if key !in templates {
        templates := templates[key := model];
      }
    }
    assert models[..|models|] == models;
  }

  method CollectPlatforms(models: seq<Model>, selected: seq<int>, extra: seq<(int, string)>)
    returns (platforms: map<int, string>)
    ensures platforms == Platforms(models, NamedPlatforms(extra, selected))
  {
    platforms := map[];
    for i := 0 to |extra|
      invariant platforms == NamedPlatforms(extra[..i], selected)
    {
      assert extra[..i + 1][..i] == extra[..i];
      var (account, platform) := extra[i];
      if account > 0 && account in selected && account !in platforms {
        platforms := platforms[account := platform];
      }
    }
    assert extra[..|extra|] == extra;
    ghost var named := platforms;
    for i := 0 to |models|
      invariant platforms == Platforms(models[..i], named)
    {
      assert models[..i + 1][..i] == models[..i];
      var model := models[i];
      if model.source == "oauth" && model.account > 0 && model.account !in platforms {
        platforms := platforms[model.account := model.platform];
      }
    }
    assert models[..|models|] == models;
  }

  /** The slots the selected accounts lack, in an order only partly fixed. */
  method CollectAdditions(p: Pool) returns (additions: seq<Model>)
    requires Consistent(p)
    ensures Completes(p, additions)
  {
    additions := [];
    var present := p.present;
    for i := 0 to |p.selected|
      invariant Building(p, additions, present)
      invariant CoveredFor(p, additions, p.selected[..i])
      invariant RankedBelow(p.selected, additions, i)
    {
      var account := p.selected[i];
      assert p.selected[..i + 1] == p.selected[..i] + [account];
      if account in p.platforms {
        additions, present := AddFor(p, i, additions, present);
      }
    }
    assert p.selected[..|p.selected|] == p.selected;
  }

  /** One account's turn: whatever its provider offers and it lacks, in any order. */
  method AddFor(p: Pool, i: nat, before: seq<Model>, presentBefore: set<(int, string)>)
    returns (additions: seq<Model>, present: set<(int, string)>)
    requires Consistent(p) && i < |p.selected| && p.selected[i] in p.platforms
    requires Building(p, before, presentBefore) && CoveredFor(p, before, p.selected[..i])
    requires RankedBelow(p.selected, before, i)
    ensures Building(p, additions, present) && CoveredFor(p, additions, p.selected[..i] + [p.selected[i]])
    ensures RankedBelow(p.selected, additions, i + 1)
  {
    var account := p.selected[i];
    var provider := PlatformKey(p.platforms[account]);
    additions, present := before, presentBefore;
    var rest := p.templates.Keys;
    while rest != {}
      invariant rest <= p.templates.Keys
      invariant Building(p, additions, present) && CoveredFor(p, additions, p.selected[..i])
      invariant RankedBelow(p.selected, additions, i + 1)
      invariant CoveredOutside(p, additions, account, rest)
      decreases rest
    {
      var key :| key in rest;
      var (templateProvider, canonical) := key;
      if templateProvider == provider && (account, canonical) !in present {
        AddingKeepsProper(p, additions, account, canonical);
        NewSlotIsAsAsked(p, account, canonical);
        var m := NewSlot(p, account, canonical);
        AddingRecords(p, additions, present, m);
        AddingKeepsOrder(p.selected, additions, m, i);
        additions, present := additions + [m], present + {(account, canonical)};
      }
      OneLessKey(p, additions, account, rest, key);
      rest := rest - {key};
    }
  }

  lemma OneLessKey(p: Pool, additions: seq<Model>, account: int, rest: set<(string, string)>, key: (string, string))
    requires account in p.platforms && CoveredOutside(p, additions, account, rest)
    requires key.0 == PlatformKey(p.platforms[account]) && Missing(p, (account, key.1)) ==>
               Covers(additions, (account, key.1))
    ensures CoveredOutside(p, additions, account, rest - {key})
  {
    var provider := PlatformKey(p.platforms[account]);
    forall pair | Missing(p, pair) && pair.0 == account && (provider, pair.1) !in rest - {key}
      ensures Covers(additions, pair)
    {
      if (provider, pair.1) in rest {
        assert key == (provider, pair.1) && pair == (account, key.1);
      }
    }
  }

  lemma PoolIsConsistent(models: seq<Model>, ids: Option<seq<int>>, extra: seq<(int, string)>)
    ensures Consistent(PoolOf(models, ids, extra))
  {
    var selected := SelectedOf(ids);
    forall key | key in Templates(models, selected)
      ensures key == (PlatformKey(Templates(models, selected)[key].platform),
                      Canonical(Templates(models, selected)[key].model))
    {
      TemplateIsFaithful(models, selected, key);
    }
  }

  /** `replicate_oauth_slots_for_accounts`: the slots to add. */
  method Additions(models: seq<Model>, ids: Option<seq<int>>, extra: seq<(int, string)>)
    returns (additions: seq<Model>)
    ensures Completes(PoolOf(models, ids, extra), additions)
  {
    var selected := SelectedOf(ids);
    ghost var p := PoolOf(models, ids, extra);
    if selected == [] {
      return [];
    }
    var templates, present := CollectTemplates(models, selected);
    if templates == map[] {
      return [];
    }
    var platforms := CollectPlatforms(models, selected, extra);
    PoolIsConsistent(models, ids, extra);
    additions := CollectAdditions(Pool(selected, present, templates, platforms));
  }

  // ---------------------------------------------------------------- what replication achieves

  /** Some selected slot of the account's provider, as recorded, has the model. */
  predicate SharedWith(models: seq<Model>, p: Pool, account: int, m: Model)
  {
    && account in p.selected && account in p.platforms
    && m in models && IsSlot(m) && m.account in p.selected
    && PlatformKey(m.platform) == PlatformKey(p.platforms[account])
  }

  /** Closure: every selected account of a known provider ends up with every model its provider shares. */
  lemma EveryoneHasEveryModel(models: seq<Model>, ids: Option<seq<int>>, extra: seq<(int, string)>,
                              additions: seq<Model>, account: int, m: Model)
    requires var p := PoolOf(models, ids, extra); Completes(p, additions) && SharedWith(models, p, account, m)
    ensures (account, Canonical(m.model)) in Present(models + additions)
  {
    var p := PoolOf(models, ids, extra);
    var pair := (account, Canonical(m.model));
    EverySelectedSlotHasATemplate(models, p.selected, m);
    PresentPairs(models, pair);
    PresentPairs(models + additions, pair);
    if pair in p.present {
      var held :| held in models && IsSlot(held) && PairOf(held) == pair;
      assert held in models + additions;
    } else {
      assert Missing(p, pair) && Covers(additions, pair);
      var added :| added in additions && PairOf(added) == pair;
      NewSlotIsASlot(p, pair);
      assert added in models + additions;
    }
  }

  lemma NewSlotIsASlot(p: Pool, pair: (int, string))
    requires Missing(p, pair)
    ensures NewSlot(p, pair.0, pair.1).source == "oauth" && NewSlot(p, pair.0, pair.1).account == pair.0
  {
  }

  /** No pair of account and model is held twice that was not before. */
  lemma NothingNewlyTwice(models: seq<Model>, ids: Option<seq<int>>, extra: seq<(int, string)>, additions: seq<Model>)
    requires Completes(PoolOf(models, ids, extra), additions)
    ensures forall m, a :: m in models && IsSlot(m) && a in additions ==> PairOf(m) != PairOf(a)
    ensures NoPairTwice(additions)
  {
    forall m, a | m in models && IsSlot(m) && a in additions ensures PairOf(m) != PairOf(a) {
      PresentPairs(models, PairOf(m));
    }
  }
}
