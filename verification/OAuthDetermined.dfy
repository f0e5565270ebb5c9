/** One synchronisation has one result, up to the order of the slots each account gets. */
module OAuthDetermined {
  import opened Wrappers
  import opened OAuthSlots
  import opened OAuthReplication
  import opened OAuthPriority
  import opened OAuthSync
  import opened OAuthSettled

  // ---------------------------------------------------------------- the same slots

  lemma {:induction false} AtMostOnce(models: seq<Model>, m: Model)
    requires NoPairTwice(models)
    ensures multiset(models)[m] == if m in models then 1 else 0
  {
    if models != [] {
      var most, last := models[..|models| - 1], models[|models| - 1];
      assert models == most + [last];
      AtMostOnce(most, m);
      assert last !in most by {
        forall i | 0 <= i < |most| ensures most[i] != last {
          assert PairOf(models[i]) != PairOf(models[|models| - 1]);
        }
      }
    }
  }

  /** Slots without a repeated pair are a rearrangement of others when they are the same slots. */
  lemma SameSlots(a: seq<Model>, b: seq<Model>)
    requires NoPairTwice(a) && NoPairTwice(b) && forall m :: m in a <==> m in b
    ensures multiset(a) == multiset(b)
  {
    forall m ensures multiset(a)[m] == multiset(b)[m] {
      AtMostOnce(a, m);
      AtMostOnce(b, m);
    }
  }

  lemma SlotOfOther(p: Pool, a: seq<Model>, b: seq<Model>, m: Model)
    requires Completes(p, a) && Completes(p, b) && m in a
    ensures m in b
  {
    assert Missing(p, PairOf(m)) && Covers(b, PairOf(m));
    var n :| n in b && PairOf(n) == PairOf(m);
  }

  /** Whatever order the templates are walked in, the same slots are added. */
  lemma SameAdditions(p: Pool, a: seq<Model>, b: seq<Model>)
    requires Completes(p, a) && Completes(p, b)
    ensures (forall m :: m in a <==> m in b) && multiset(a) == multiset(b)
  {
    forall m ensures m in a <==> m in b {
      if m in a { SlotOfOther(p, a, b, m); }
      if m in b { SlotOfOther(p, b, a, m); }
    }
    SameSlots(a, b);
  }

  // ---------------------------------------------------------------- the same groups

  /** The accounts that some of the wishes are for. */
  function WishedFor(wishes: seq<Option<Wish>>): set<int> {
    if wishes == [] then {}
    else
      var last := wishes[|wishes| - 1];
      WishedFor(wishes[..|wishes| - 1]) + if last.Some? then {last.value.account} else {}
  }

  /** The entries of these accounts with the least priority there is. */
  function Lowered(entries: seq<Entry>, accounts: set<int>): (r: seq<Entry>)
    ensures |r| == |entries|
  {
    seq(|entries|, i requires 0 <= i < |entries| =>
      if entries[i].account in accounts then entries[i].(priority := 1) else entries[i])
  }

  /** Wishes for the least priority, by accounts that already have an entry, just lower it. */
  predicate JustLowers(entries: seq<Entry>, wish: Option<Wish>) {
    wish.Some? ==> wish.value.priority <= 1 && EntryOf(entries, wish.value.account) >= 0
  }

  lemma {:induction false} SameEntryLowered(entries: seq<Entry>, accounts: set<int>, account: int)
    ensures EntryOf(Lowered(entries, accounts), account) == EntryOf(entries, account)
  {
    if entries != [] {
      var n := |entries| - 1;
      assert Lowered(entries, accounts)[..n] == Lowered(entries[..n], accounts);
      SameEntryLowered(entries[..n], accounts, account);
    }
  }

  lemma OneMoreLowered(entries: seq<Entry>, accounts: set<int>, w: Wish, index: nat)
    requires DistinctEntries(entries) && JustLowers(entries, Some(w))
    requires forall i :: 0 <= i < |entries| ==> entries[i].index < index
    ensures Entered(Lowered(entries, accounts), w, index) == Lowered(entries, accounts + {w.account})
  {
    SameEntryLowered(entries, accounts, w.account);
    var at := EntryOf(entries, w.account);
    var after := Entered(Lowered(entries, accounts), w, index);
    forall i | 0 <= i < |entries| ensures after[i] == Lowered(entries, accounts + {w.account})[i] {
      assert i != at ==> entries[i].account != entries[at].account;
    }
  }

  lemma {:induction false} GroupedLowers(wishes: seq<Option<Wish>>, more: seq<Option<Wish>>)
    requires forall w :: w in more ==> JustLowers(Grouped(wishes), w)
    ensures Grouped(wishes + more) == Lowered(Grouped(wishes), WishedFor(more))
  {
    var entries := Grouped(wishes);
    if more == [] {
      assert wishes + more == wishes;
      assert Lowered(entries, {}) == entries;
    } else {
      var most, last := more[..|more| - 1], more[|more| - 1];
      assert last in more && forall w :: w in most ==> w in more;
      GroupedLowers(wishes, most);
      assert (wishes + more)[..|wishes + more| - 1] == wishes + most;
      assert (wishes + more)[|wishes + more| - 1] == last;
      GroupsAreMinimal(wishes);
      if last.Some? {
        forall i | 0 <= i < |entries| ensures entries[i].index < |wishes| + |most| {
          assert entries[i] in entries && Minimal(entries[i], wishes);
        }
        OneMoreLowered(entries, WishedFor(most), last.value, |wishes| + |most|);
      }
    }
  }

  predicate AnyWishedBy(wishes: seq<Option<Wish>>, account: int) {
    exists i :: 0 <= i < |wishes| && WishedBy(wishes[i], account)
  }

  lemma {:induction false} WishedForAre(wishes: seq<Option<Wish>>, account: int)
    ensures account in WishedFor(wishes) <==> AnyWishedBy(wishes, account)
  {
    if wishes != [] {
      var n := |wishes| - 1;
      WishedForAre(wishes[..n], account);
      assert forall i :: 0 <= i < n ==> wishes[..n][i] == wishes[i];
      if i :| 0 <= i < |wishes| && WishedBy(wishes[i], account) {
        assert i < n ==> WishedBy(wishes[..n][i], account);
      }
    }
  }

  /** What a new slot says about its account's priority. */
  lemma NewSlotJustLowers(models: seq<Model>, ids: Option<seq<int>>, additions: seq<Model>, m: Model, provider: string)
    requires OneProvider(models) && Completes(PoolOf(models, ids, []), additions) && m in additions
    ensures JustLowers(Entries(models, provider), WishOf(m, provider))
  {
    var p := PoolOf(models, ids, []);
    assert Missing(p, PairOf(m));
    PoolIsConsistent(models, ids, []);
    NewSlotIsAsAsked(p, m.account, Canonical(m.model));
    PlatformIsOwn(models, m.account);
    if WishOf(m, provider).Some? {
      var own :| own in models && IsSlot(own) && own.account == m.account && p.platforms[m.account] == own.platform;
      HasAnEntry(models, own, provider);
    }
  }

  lemma HasAnEntry(models: seq<Model>, own: Model, provider: string)
    requires own in models && IsSlot(own) && PlatformKey(own.platform) == provider
    ensures EntryOf(Entries(models, provider), own.account) >= 0
  {
    var j :| 0 <= j < |models| && models[j] == own;
    GroupsAreMinimal(Wishes(models, provider));
    assert Wishes(models, provider)[j] == WishOf(own, provider);
  }

  lemma AllJustLower(models: seq<Model>, ids: Option<seq<int>>, additions: seq<Model>, provider: string)
    requires OneProvider(models) && Completes(PoolOf(models, ids, []), additions)
    ensures forall w :: w in Wishes(additions, provider) ==> JustLowers(Entries(models, provider), w)
  {
    var more := Wishes(additions, provider);
    forall w | w in more ensures JustLowers(Entries(models, provider), w) {
      var i :| 0 <= i < |more| && more[i] == w;
      assert w == WishOf(additions[i], provider) && additions[i] in additions;
      NewSlotJustLowers(models, ids, additions, additions[i], provider);
    }
  }

  lemma WishesConcat(a: seq<Model>, b: seq<Model>, provider: string)
    ensures Wishes(a + b, provider) == Wishes(a, provider) + Wishes(b, provider)
  {
  }

  lemma EntriesAfter(models: seq<Model>, ids: Option<seq<int>>, additions: seq<Model>, provider: string)
    requires OneProvider(models) && Completes(PoolOf(models, ids, []), additions)
    ensures Entries(models + additions, provider)
         == Lowered(Entries(models, provider), WishedFor(Wishes(additions, provider)))
  {
    AllJustLower(models, ids, additions, provider);
    WishesConcat(models, additions, provider);
    GroupedLowers(Wishes(models, provider), Wishes(additions, provider));
  }

  lemma SameWishedFor(a: seq<Model>, b: seq<Model>, provider: string)
    requires forall m :: m in a <==> m in b
    ensures WishedFor(Wishes(a, provider)) == WishedFor(Wishes(b, provider))
  {
    var these, those := WishedFor(Wishes(a, provider)), WishedFor(Wishes(b, provider));
    forall account ensures account in these <==> account in those {
      WishedForAre(Wishes(a, provider), account);
      WishedForAre(Wishes(b, provider), account);
      WishedInOther(a, b, provider, account);
      WishedInOther(b, a, provider, account);
    }
  }

  lemma WishedInOther(a: seq<Model>, b: seq<Model>, provider: string, account: int)
    requires forall m :: m in a ==> m in b
    ensures AnyWishedBy(Wishes(a, provider), account) ==> AnyWishedBy(Wishes(b, provider), account)
  {
    if i :| 0 <= i < |a| && WishedBy(Wishes(a, provider)[i], account) {
      assert a[i] in a;
      var j :| 0 <= j < |b| && b[j] == a[i];
      assert Wishes(b, provider)[j] == Wishes(a, provider)[i];
    }
  }

  /** So every group of the completed configuration is the same. */
  lemma SameGroups(models: seq<Model>, ids: Option<seq<int>>, a: seq<Model>, b: seq<Model>, provider: string)
    requires OneProvider(models) && Completes(PoolOf(models, ids, []), a) && Completes(PoolOf(models, ids, []), b)
    ensures Entries(models + a, provider) == Entries(models + b, provider)
  {
    SameAdditions(PoolOf(models, ids, []), a, b);
    EntriesAfter(models, ids, a, provider);
    EntriesAfter(models, ids, b, provider);
    SameWishedFor(a, b, provider);
  }

  // ---------------------------------------------------------------- the same result

  lemma SameSlotHolders(models: seq<Model>, a: seq<Model>, b: seq<Model>, account: int)
    requires forall m :: m in a <==> m in b
    ensures HasSlot(models + a, account) ==> HasSlot(models + b, account)
  {
    if HasSlot(models + a, account) {
      var all := models + a;
      var j :| 0 <= j < |all| && IsSlot(all[j]) && all[j].account == account;
      assert all[j] in models || all[j] in a;
      assert all[j] in models + b;
      var k :| 0 <= k < |models + b| && (models + b)[k] == all[j];
    }
  }

  lemma AlsoChosen(models: seq<Model>, ids: Option<seq<int>>, a: seq<Model>, b: seq<Model>, granted: map<int, int>)
    requires OneProvider(models) && Completes(PoolOf(models, ids, []), a) && Completes(PoolOf(models, ids, []), b)
    requires Chosen(models + b, IdsOf(ids), granted)
    ensures Chosen(models + a, IdsOf(ids), granted)
  {
    SameAdditions(PoolOf(models, ids, []), a, b);
    forall account ensures account in granted <==> HasSlot(models + a, account) {
      SameSlotHolders(models, a, b, account);
      SameSlotHolders(models, b, a, account);
    }
    forall account | account in granted
      ensures exists provider :: AwardedBy(models + a, IdsOf(ids), provider, account, granted[account])
    {
      var provider :| AwardedBy(models + b, IdsOf(ids), provider, account, granted[account]);
      SameGroups(models, ids, a, b, provider);
      assert AwardedBy(models + a, IdsOf(ids), provider, account, granted[account]);
    }
  }

  lemma AssignedStay(a: seq<Model>, b: seq<Model>, granted: map<int, int>)
    requires NoPairTwice(a) && NoPairTwice(b) && forall m :: m in a <==> m in b
    ensures multiset(AssignAll(a, granted)) == multiset(AssignAll(b, granted))
  {
    forall m ensures m in AssignAll(a, granted) <==> m in AssignAll(b, granted) {
      AssignedInOther(a, b, granted, m);
      AssignedInOther(b, a, granted, m);
    }
    AssignedApart(a, granted);
    AssignedApart(b, granted);
    SameSlots(AssignAll(a, granted), AssignAll(b, granted));
  }

  lemma AssignedInOther(a: seq<Model>, b: seq<Model>, granted: map<int, int>, m: Model)
    requires forall x :: x in a ==> x in b
    ensures m in AssignAll(a, granted) ==> m in AssignAll(b, granted)
  {
    if m in AssignAll(a, granted) {
      var i :| 0 <= i < |a| && AssignAll(a, granted)[i] == m;
      assert a[i] in a;
      var j :| 0 <= j < |b| && b[j] == a[i];
      assert AssignAll(b, granted)[j] == m;
    }
  }

  lemma AssignedApart(a: seq<Model>, granted: map<int, int>)
    requires NoPairTwice(a)
    ensures NoPairTwice(AssignAll(a, granted))
  {
    forall i | 0 <= i < |a| ensures PairOf(AssignAll(a, granted)[i]) == PairOf(a[i]) {
      assert AssignAll(a, granted)[i] == Assign(a[i], granted);
    }
  }

  /**
   * If each account is of one provider, any two results of one synchronisation agree: the entries there before end
   * up the same, and the new slots are the same up to their order.
   */
  lemma SyncIsDetermined(models: seq<Model>, ids: Option<seq<int>>, first: seq<Model>, second: seq<Model>)
    requires OneProvider(models) && Synced(models, ids, first) && Synced(models, ids, second)
    ensures |models| <= |first| == |second|
    ensures first[..|models|] == second[..|models|]
    ensures multiset(first[|models|..]) == multiset(second[|models|..])
  {
    var a, f :| SyncedBy(models, ids, a, f, first);
    var b, g :| SyncedBy(models, ids, b, g, second);
    AlsoChosen(models, ids, a, b, g);
    StillOneProvider(models, ids, a);
    OnlyOneAssignment(models + a, IdsOf(ids), f, g);
    SameAdditions(PoolOf(models, ids, []), a, b);
    SameLength(a, b);
    AssignedStay(a, b, f);
    InTwoParts(models, a, f);
    InTwoParts(models, b, f);
  }

  lemma SameLength(a: seq<Model>, b: seq<Model>)
    requires multiset(a) == multiset(b)
    ensures |a| == |b|
  {
    assert |multiset(a)| == |a| && |multiset(b)| == |b|;
  }

  lemma InTwoParts(models: seq<Model>, a: seq<Model>, granted: map<int, int>)
    ensures var all := AssignAll(models + a, granted);
            all[..|models|] == AssignAll(models, granted) && all[|models|..] == AssignAll(a, granted)
  {
  }
}
