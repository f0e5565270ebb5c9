/** A synchronised configuration is settled: synchronising it again changes nothing. */
module OAuthSettled {
  import opened Wrappers
  import opened OAuthSlots
  import opened OAuthReplication
  import opened OAuthSync

  predicate AllSameButPriority(models: seq<Model>, after: seq<Model>) {
    |models| == |after| && forall i :: 0 <= i < |models| ==> SameButPriority(models[i], after[i])
  }

  lemma AssigningChangesOnlyPriorities(models: seq<Model>, granted: map<int, int>)
    ensures AllSameButPriority(models, AssignAll(models, granted))
    ensures forall i :: 0 <= i < |models| && models[i].source != "oauth" ==> AssignAll(models, granted)[i] == models[i]
  {
  }

  lemma {:induction false} PlatformsIgnorePriority(models: seq<Model>, after: seq<Model>, named: map<int, string>)
    requires AllSameButPriority(models, after)
    ensures Platforms(after, named) == Platforms(models, named)
  {
    if models != [] {
      var n := |models| - 1;
      PlatformsIgnorePriority(models[..n], after[..n], named);
      assert SameButPriority(models[n], after[n]);
    }
  }

  /** New slots of accounts whose platform is known change no account's platform. */
  lemma {:induction false} PlatformsStay(models: seq<Model>, additions: seq<Model>, named: map<int, string>)
    requires forall m :: m in additions ==> m.account in Platforms(models, named)
    ensures Platforms(models + additions, named) == Platforms(models, named)
  {
    if additions == [] {
      assert models + additions == models;
    } else {
      var n := |additions| - 1;
      assert (models + additions)[..|models| + n] == models + additions[..n];
      assert additions[n] in additions;
      PlatformsStay(models, additions[..n], named);
    }
  }

  /** Every template of the completed configuration is for a model the pool already had. */
  lemma NoNewTemplates(models: seq<Model>, p: Pool, additions: seq<Model>, after: seq<Model>, key: (string, string))
    requires Consistent(p) && p.templates == Templates(models, p.selected)
    requires ProperSlots(p, additions) && AllSameButPriority(models + additions, after)
    requires key in Templates(after, p.selected)
    ensures key in p.templates
  {
    TemplateIsFaithful(after, p.selected, key);
    var t := Templates(after, p.selected)[key];
    var i :| 0 <= i < |after| && after[i] == t;
    assert SameButPriority((models + additions)[i], after[i]);
    var m := (models + additions)[i];
    if i < |models| {
      assert m in models;
      EverySelectedSlotHasATemplate(models, p.selected, m);
    } else {
      assert m == additions[i - |models|] && m in additions;
      NewSlotIsAsAsked(p, m.account, Canonical(m.model));
    }
  }

  lemma SlotAfter(all: seq<Model>, after: seq<Model>, i: nat, pair: (int, string))
    requires AllSameButPriority(all, after) && i < |all| && IsSlot(all[i]) && PairOf(all[i]) == pair
    ensures pair in Present(after)
  {
    PresentPairs(after, pair);
    assert SameButPriority(all[i], after[i]);
    assert after[i] in after && IsSlot(after[i]) && PairOf(after[i]) == pair;
  }

  lemma HeldBefore(models: seq<Model>, additions: seq<Model>, after: seq<Model>, pair: (int, string))
    requires AllSameButPriority(models + additions, after) && pair in Present(models)
    ensures pair in Present(after)
  {
    var i := PresentAt(models, pair);
    assert (models + additions)[i] == models[i];
    SlotAfter(models + additions, after, i, pair);
  }

  lemma HeldByAddition(models: seq<Model>, p: Pool, additions: seq<Model>, after: seq<Model>, m: Model)
    requires ProperSlots(p, additions) && forall a :: a in p.selected ==> a > 0
    requires AllSameButPriority(models + additions, after) && m in additions
    ensures PairOf(m) in Present(after)
  {
    var i :| 0 <= i < |additions| && additions[i] == m;
    AdditionIsASlot(p, additions, i);
    assert (models + additions)[|models| + i] == additions[i];
    SlotAfter(models + additions, after, |models| + i, PairOf(m));
  }

  lemma PresentAt(models: seq<Model>, pair: (int, string)) returns (i: nat)
    requires pair in Present(models)
    ensures i < |models| && IsSlot(models[i]) && PairOf(models[i]) == pair
  {
    PresentPairs(models, pair);
    i :| 0 <= i < |models| && IsSlot(models[i]) && PairOf(models[i]) == pair;
  }

  lemma AdditionIsASlot(p: Pool, additions: seq<Model>, i: nat)
    requires ProperSlots(p, additions) && i < |additions| && forall a :: a in p.selected ==> a > 0
    ensures IsSlot(additions[i])
  {
    assert additions[i] in additions;
    NewSlotIsASlot(p, PairOf(additions[i]));
  }

  /** Replicating again finds nothing missing, even after priorities changed. */
  lemma NothingMoreMissing(models: seq<Model>, ids: Option<seq<int>>, extra: seq<(int, string)>,
                           additions: seq<Model>, after: seq<Model>, pair: (int, string))
    requires Completes(PoolOf(models, ids, extra), additions) && AllSameButPriority(models + additions, after)
    ensures !Missing(PoolOf(after, ids, extra), pair)
  {
    var p, q := PoolOf(models, ids, extra), PoolOf(after, ids, extra);
    if Missing(q, pair) {
      var named := NamedPlatforms(extra, p.selected);
      PoolIsConsistent(models, ids, extra);
      forall m | m in additions ensures m.account in p.platforms {
        assert Missing(p, PairOf(m));
      }
      PlatformsStay(models, additions, named);
      PlatformsIgnorePriority(models + additions, after, named);
      NoNewTemplates(models, p, additions, after, (PlatformKey(p.platforms[pair.0]), pair.1));
      assert Offered(p, pair.0, pair.1);
      assert pair in p.present || Covers(additions, pair);
      if pair in p.present {
        HeldBefore(models, additions, after, pair);
      } else {
        var m :| m in additions && PairOf(m) == pair;
        HeldByAddition(models, p, additions, after, m);
      }
      assert false;
    }
  }

  /** So a second replication, from the same names, adds nothing. */
  lemma ReplicatingAgain(models: seq<Model>, ids: Option<seq<int>>, extra: seq<(int, string)>,
                         additions: seq<Model>, after: seq<Model>, more: seq<Model>)
    requires Completes(PoolOf(models, ids, extra), additions) && AllSameButPriority(models + additions, after)
    requires Completes(PoolOf(after, ids, extra), more)
    ensures more == []
  {
    if more != [] {
      assert more[0] in more;
      NothingMoreMissing(models, ids, extra, additions, after, PairOf(more[0]));
      assert false;
    }
  }

  /** Accounts without slots have no platform unless named, so additions follow each account's own provider. */
  lemma {:induction false} PlatformIsOwn(models: seq<Model>, account: int)
    requires account in Platforms(models, map[])
    ensures exists m :: && m in models && IsSlot(m) && m.account == account
                        && Platforms(models, map[])[account] == m.platform
  {
    var n := |models| - 1;
    if account in Platforms(models[..n], map[]) {
      PlatformIsOwn(models[..n], account);
      var m :| m in models[..n] && IsSlot(m) && m.account == account
               && Platforms(models[..n], map[])[account] == m.platform;
      assert m in models;
    } else {
      assert models[n] in models;
    }
  }

  lemma StillOneProvider(models: seq<Model>, ids: Option<seq<int>>, additions: seq<Model>)
    requires OneProvider(models) && Completes(PoolOf(models, ids, []), additions)
    ensures OneProvider(models + additions)
  {
    var p := PoolOf(models, ids, []);
    forall m | m in models + additions && IsSlot(m)
      ensures exists own :: own in models && IsSlot(own) && own.account == m.account
                            && PlatformKey(own.platform) == PlatformKey(m.platform)
    {
      if m !in models {
        assert m in additions && Missing(p, PairOf(m));
        PoolIsConsistent(models, ids, []);
        NewSlotIsAsAsked(p, m.account, Canonical(m.model));
        PlatformIsOwn(models, m.account);
      }
    }
  }

  /**
   * If each account is of one provider, synchronising twice is synchronising once, whatever order the
   * maps are walked in.
   */
  lemma SyncTwice(models: seq<Model>, ids: Option<seq<int>>, once: seq<Model>, twice: seq<Model>)
    requires OneProvider(models) && Synced(models, ids, once) && Synced(once, ids, twice)
    ensures twice == once
  {
    var additions, granted :| SyncedBy(models, ids, additions, granted, once);
    var more, again :| SyncedBy(once, ids, more, again, twice);
    var all := models + additions;
    AssigningChangesOnlyPriorities(all, granted);
    ReplicatingAgain(models, ids, [], additions, once, more);
    assert once + more == once;
    StillOneProvider(models, ids, additions);
    AssigningAgain(all, IdsOf(ids), granted, again);
  }

  lemma SamePairs(models: seq<Model>, additions: seq<Model>, after: seq<Model>, j: nat)
    requires |after| == |models| + |additions| && |models| <= j < |after|
    requires SameButPriority((models + additions)[j], after[j])
    ensures PairOf(after[j]) == PairOf(additions[j - |models|])
  {
  }

  /** Entries there before keep everything but the priority of OAuth entries; no pair is newly held twice. */
  lemma SyncKeepsWhatWasThere(models: seq<Model>, ids: Option<seq<int>>, after: seq<Model>, i: nat)
    requires Synced(models, ids, after) && i < |models|
    ensures |after| >= |models|
    ensures SameButPriority(models[i], after[i]) && (models[i].source != "oauth" ==> after[i] == models[i])
    ensures forall j :: |models| <= j < |after| ==>
              && PairOf(after[j]) !in Present(models)
              && forall k :: |models| <= k < j ==> PairOf(after[k]) != PairOf(after[j])
  {
    var additions, granted :| SyncedBy(models, ids, additions, granted, after);
    var all := models + additions;
    AssigningChangesOnlyPriorities(all, granted);
    assert all[i] == models[i];
    forall j | |models| <= j < |after|
      ensures PairOf(after[j]) !in Present(models)
              && forall k :: |models| <= k < j ==> PairOf(after[k]) != PairOf(after[j])
    {
      SamePairs(models, additions, after, j);
      forall k | |models| <= k < j ensures PairOf(after[k]) != PairOf(after[j]) {
        SamePairs(models, additions, after, k);
      }
      assert additions[j - |models|] in additions;
    }
  }

  /**
   * Closure: once synchronised, every selected account with a slot has every model that any selected
   * account of its provider has.
   */
  lemma SyncSharesModels(models: seq<Model>, ids: Option<seq<int>>, after: seq<Model>, m: Model, n: Model)
    requires OneProvider(models) && Synced(models, ids, after)
    requires m in after && IsSlot(m) && m.account in SelectedOf(ids)
    requires n in after && IsSlot(n) && n.account in SelectedOf(ids)
    requires PlatformKey(m.platform) == PlatformKey(n.platform)
    ensures (m.account, Canonical(n.model)) in Present(after)
  {
    var additions, granted :| SyncedBy(models, ids, additions, granted, after);
    var all := models + additions;
    AssigningChangesOnlyPriorities(all, granted);
    StillOneProvider(models, ids, additions);
    OneProviderAgain(all, granted);
    NothingMoreMissing(models, ids, [], additions, after, (m.account, Canonical(n.model)));
    HasPlatform(after, m);
    PlatformIsOwn(after, m.account);
    EverySelectedSlotHasATemplate(after, SelectedOf(ids), n);
  }

  lemma {:induction false} HasPlatform(models: seq<Model>, m: Model)
    requires m in models && IsSlot(m)
    ensures m.account in Platforms(models, map[])
  {
    var n := |models| - 1;
    if m in models[..n] {
      HasPlatform(models[..n], m);
    } else {
      assert m == models[n];
    }
  }
}
