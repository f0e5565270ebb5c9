/**
 * What a new slot is: a copy of the first slot of its provider and model, for an account whose platform is the one
 * named for it or that of its first slot; and which names of platforms and models are taken as the same.
 */
module OAuthMeaning {
  import opened Wrappers
  import opened Text
  import opened Trimming
  import opened OAuthSlots
  import opened OAuthReplication
  import opened OAuthSync
  import opened OAuthSettled

  // ---------------------------------------------------------------- the slot copied

  predicate Matches(m: Model, selected: seq<int>, provider: string, canonical: string) {
    && m.source == "oauth" && m.account > 0 && m.account in selected
    && PlatformKey(m.platform) == provider && Canonical(m.model) == canonical
  }

  /** The first slot of a selected account for that provider and model. */
  predicate FirstMatch(models: seq<Model>, selected: seq<int>, provider: string, canonical: string, i: nat) {
    && i < |models| && Matches(models[i], selected, provider, canonical)
    && forall j :: 0 <= j < i ==> !Matches(models[j], selected, provider, canonical)
  }

  lemma {:induction false} TemplateIsFirst(models: seq<Model>, selected: seq<int>, provider: string, canonical: string)
    returns (i: nat)
    requires (provider, canonical) in Templates(models, selected)
    ensures FirstMatch(models, selected, provider, canonical, i)
    ensures Templates(models, selected)[(provider, canonical)] == models[i]
  {
    var n := |models| - 1;
    var earlier := Templates(models[..n], selected);
    if (provider, canonical) in earlier {
      i := TemplateIsFirst(models[..n], selected, provider, canonical);
      FirstStays(models, selected, provider, canonical, n, i);
      StaysTemplate(earlier, models[n], selected, (provider, canonical));
    } else {
      i := n;
      NoneMatches(models[..n], selected, provider, canonical);
      NewTemplate(earlier, models[n], selected, provider, canonical);
      FirstAtLast(models, selected, provider, canonical, n);
    }
  }

  lemma FirstStays(models: seq<Model>, selected: seq<int>, provider: string, canonical: string, n: nat, i: nat)
    requires n <= |models| && FirstMatch(models[..n], selected, provider, canonical, i)
    ensures FirstMatch(models, selected, provider, canonical, i)
  {
    forall j | 0 <= j < i ensures !Matches(models[j], selected, provider, canonical) {
      assert models[j] == models[..n][j];
    }
  }

  lemma FirstAtLast(models: seq<Model>, selected: seq<int>, provider: string, canonical: string, n: nat)
    requires n < |models| && Matches(models[n], selected, provider, canonical)
    requires NoMatch(models[..n], selected, provider, canonical)
    ensures FirstMatch(models, selected, provider, canonical, n)
  {
    forall j | 0 <= j < n ensures !Matches(models[j], selected, provider, canonical) {
      assert models[j] == models[..n][j];
    }
  }

  lemma NewTemplate(earlier: map<(string, string), Model>, m: Model, selected: seq<int>,
                    provider: string, canonical: string)
    requires (provider, canonical) !in earlier && (provider, canonical) in WithTemplate(earlier, m, selected)
    ensures WithTemplate(earlier, m, selected)[(provider, canonical)] == m
    ensures Matches(m, selected, provider, canonical)
  {
  }

  predicate NoMatch(models: seq<Model>, selected: seq<int>, provider: string, canonical: string) {
    forall j :: 0 <= j < |models| ==> !Matches(models[j], selected, provider, canonical)
  }

  lemma NoneMatches(models: seq<Model>, selected: seq<int>, provider: string, canonical: string)
    requires (provider, canonical) !in Templates(models, selected)
    ensures NoMatch(models, selected, provider, canonical)
  {
    forall j | 0 <= j < |models| && Matches(models[j], selected, provider, canonical)
      ensures false
    {
      EverySelectedSlotHasATemplate(models, selected, models[j]);
    }
  }

  // ---------------------------------------------------------------- the platform of an account

  predicate NamedFirst(extra: seq<(int, string)>, account: int, platform: string, i: nat) {
    && i < |extra| && extra[i] == (account, platform)
    && forall j :: 0 <= j < i ==> extra[j].0 != account
  }

  predicate HasSlotAt(models: seq<Model>, account: int, j: nat)
    requires j < |models|
  {
    models[j].source == "oauth" && models[j].account == account && account > 0
  }

  predicate SlotFirst(models: seq<Model>, account: int, platform: string, i: nat) {
    && i < |models| && HasSlotAt(models, account, i) && models[i].platform == platform
    && forall j :: 0 <= j < i ==> !HasSlotAt(models, account, j)
  }

  ghost predicate IsNamed(extra: seq<(int, string)>, selected: seq<int>, account: int, platform: string) {
    account > 0 && account in selected && exists i :: NamedFirst(extra, account, platform, i)
  }

  ghost predicate HasPlatform(models: seq<Model>, extra: seq<(int, string)>, selected: seq<int>, account: int,
                              platform: string)
  {
    || IsNamed(extra, selected, account, platform)
    || ((forall other :: !IsNamed(extra, selected, account, other))
        && exists i :: SlotFirst(models, account, platform, i))
  }

  predicate Holds(table: map<int, string>, account: int, platform: string) {
    account in table && table[account] == platform
  }

  lemma {:induction false} NamedIs(extra: seq<(int, string)>, selected: seq<int>, account: int, platform: string)
    ensures Holds(NamedPlatforms(extra, selected), account, platform) <==> IsNamed(extra, selected, account, platform)
  {
    if extra != [] {
      var n := |extra| - 1;
      NamedIs(extra[..n], selected, account, platform);
      NamedOneMore(extra, extra[..n], extra[n], account, platform);
      UnnamedSoFar(extra[..n], selected, account);
    }
  }

  lemma NamedOneMore(extra: seq<(int, string)>, earlier: seq<(int, string)>, last: (int, string), account: int,
                     platform: string)
    requires extra == earlier + [last]
    ensures (exists i :: NamedFirst(extra, account, platform, i))
       <==> (exists i :: NamedFirst(earlier, account, platform, i)) || NamedFirst(extra, account, platform, |earlier|)
  {
    assert forall j :: 0 <= j < |earlier| ==> earlier[j] == extra[j];
    if i :| NamedFirst(extra, account, platform, i) && i != |earlier| {
      assert NamedFirst(earlier, account, platform, i);
    }
    if i :| NamedFirst(earlier, account, platform, i) {
      assert NamedFirst(extra, account, platform, i);
    }
  }

  ghost predicate Mentioned(extra: seq<(int, string)>, account: int) {
    exists entry :: entry in extra && entry.0 == account
  }

  lemma MentionedOneMore(earlier: seq<(int, string)>, last: (int, string), account: int)
    ensures Mentioned(earlier + [last], account) <==> Mentioned(earlier, account) || last.0 == account
  {
    assert last in earlier + [last];
    if entry :| entry in earlier && entry.0 == account {
      assert entry in earlier + [last];
    }
  }

  /** An account is in the table if some entry names it and it may be named. */
  lemma {:induction false} UnnamedSoFar(extra: seq<(int, string)>, selected: seq<int>, account: int)
    ensures account in NamedPlatforms(extra, selected)
       <==> account > 0 && account in selected && Mentioned(extra, account)
  {
    if extra != [] {
      var n := |extra| - 1;
      UnnamedSoFar(extra[..n], selected, account);
      assert extra == extra[..n] + [extra[n]];
      MentionedOneMore(extra[..n], extra[n], account);
    }
  }

  lemma {:induction false} SlotPlatforms(models: seq<Model>, named: map<int, string>, account: int, platform: string)
    ensures Holds(Platforms(models, named), account, platform)
       <==> if account in named then named[account] == platform else exists i :: SlotFirst(models, account, platform, i)
  {
    if models != [] {
      var n := |models| - 1;
      SlotPlatforms(models[..n], named, account, platform);
      SlotOneMore(models, models[..n], models[n], account, platform);
      SlotFirstAtLast(models, models[..n], models[n], account, platform);
      SlotlessSoFar(models[..n], named, account);
    }
  }

  lemma SlotOneMore(models: seq<Model>, earlier: seq<Model>, last: Model, account: int, platform: string)
    requires models == earlier + [last]
    ensures (exists i :: SlotFirst(models, account, platform, i))
       <==> (exists i :: SlotFirst(earlier, account, platform, i)) || SlotFirst(models, account, platform, |earlier|)
  {
    assert forall j :: 0 <= j < |earlier| ==> earlier[j] == models[j];
    assert forall j :: 0 <= j < |earlier| ==> (HasSlotAt(earlier, account, j) <==> HasSlotAt(models, account, j));
    if i :| SlotFirst(models, account, platform, i) && i != |earlier| {
      assert SlotFirst(earlier, account, platform, i);
    }
    if i :| SlotFirst(earlier, account, platform, i) {
      assert SlotFirst(models, account, platform, i);
    }
  }

  ghost predicate SlotSomewhere(models: seq<Model>, account: int) {
    exists m :: m in models && IsSlot(m) && m.account == account
  }

  lemma SlotSomewhereOneMore(earlier: seq<Model>, last: Model, account: int)
    ensures SlotSomewhere(earlier + [last], account)
       <==> SlotSomewhere(earlier, account) || (IsSlot(last) && last.account == account)
  {
    assert last in earlier + [last];
    if m :| m in earlier && IsSlot(m) && m.account == account {
      assert m in earlier + [last];
    }
  }

  lemma {:induction false} SlotlessSoFar(models: seq<Model>, named: map<int, string>, account: int)
    ensures account in Platforms(models, named) <==> account in named || SlotSomewhere(models, account)
  {
    if models != [] {
      var n := |models| - 1;
      SlotlessSoFar(models[..n], named, account);
      assert models == models[..n] + [models[n]];
      SlotSomewhereOneMore(models[..n], models[n], account);
    }
  }

  lemma SlotFirstAtLast(models: seq<Model>, earlier: seq<Model>, last: Model, account: int, platform: string)
    requires models == earlier + [last]
    ensures SlotFirst(models, account, platform, |earlier|)
       <==> !SlotSomewhere(earlier, account) && IsSlot(last) && last.account == account && last.platform == platform
  {
    assert forall j :: 0 <= j < |earlier| ==> earlier[j] == models[j];
    if SlotFirst(models, account, platform, |earlier|) {
      forall m | m in earlier ensures !(IsSlot(m) && m.account == account) {
        var j :| 0 <= j < |earlier| && earlier[j] == m;
        assert !HasSlotAt(models, account, j);
      }
    }
    if !SlotSomewhere(earlier, account) {
      forall j | 0 <= j < |earlier| ensures !HasSlotAt(models, account, j) {
        assert earlier[j] in earlier;
      }
    }
  }

  /** Exactly which platform an account is taken to be on. */
  lemma PlatformIs(models: seq<Model>, extra: seq<(int, string)>, selected: seq<int>, account: int, platform: string)
    ensures Holds(Platforms(models, NamedPlatforms(extra, selected)), account, platform)
       <==> HasPlatform(models, extra, selected, account, platform)
  {
    var named := NamedPlatforms(extra, selected);
    SlotPlatforms(models, named, account, platform);
    NamedIs(extra, selected, account, platform);
    if account in named {
      NamedIs(extra, selected, account, named[account]);
    } else {
      forall other
        ensures !IsNamed(extra, selected, account, other)
      {
        NamedIs(extra, selected, account, other);
      }
    }
  }

  // ---------------------------------------------------------------- a new slot

  /** A slot made for the account after the model of another. */
  predicate IsCopy(m: Model, template: Model, account: int, platform: string) {
    && m.model == template.model && m.settings == template.settings
    && m.source == "oauth" && m.account == account && m.userSelected
    && m.own == Private("", "", "", "", 1)
    && m.platform == (if platform == "" then template.platform else platform)
    && m.baseUrl == (if Blank(template.baseUrl) then "Router OAuth / " + platform else template.baseUrl)
  }

  /** The slot is what replication makes it: a copy of the first of its kind, on the account's platform. */
  ghost predicate IsReplica(m: Model, models: seq<Model>, selected: seq<int>, extra: seq<(int, string)>) {
    exists i: nat, platform: string :: ReplicaOf(m, models, selected, extra, i, platform)
  }

  ghost predicate ReplicaOf(m: Model, models: seq<Model>, selected: seq<int>, extra: seq<(int, string)>,
                            i: nat, platform: string)
  {
    && m.account in selected
    && HasPlatform(models, extra, selected, m.account, platform)
    && FirstMatch(models, selected, PlatformKey(platform), Canonical(m.model), i)
    && IsCopy(m, models[i], m.account, platform)
  }

  /** Every slot replication adds. */
  lemma AdditionsAreReplicas(models: seq<Model>, ids: Option<seq<int>>, extra: seq<(int, string)>,
                             additions: seq<Model>, k: nat)
    requires Completes(PoolOf(models, ids, extra), additions) && k < |additions|
    ensures IsReplica(additions[k], models, SelectedOf(ids), extra) && additions[k].priority == 1
  {
    var p := PoolOf(models, ids, extra);
    var m := additions[k];
    var canonical := Canonical(m.model);
    assert m in additions && Missing(p, PairOf(m)) && m == NewSlot(p, m.account, canonical);
    var platform := p.platforms[m.account];
    PlatformIs(models, extra, p.selected, m.account, platform);
    var i := TemplateIsFirst(models, p.selected, PlatformKey(platform), canonical);
    NewSlotIsCopy(p, m.account, canonical, platform, models[i]);
    assert ReplicaOf(m, models, p.selected, extra, i, platform);
  }

  lemma NewSlotIsCopy(p: Pool, account: int, canonical: string, platform: string, template: Model)
    requires Offered(p, account, canonical) && platform == p.platforms[account]
    requires template == p.templates[(PlatformKey(platform), canonical)]
    ensures IsCopy(NewSlot(p, account, canonical), template, account, platform)
    ensures NewSlot(p, account, canonical).priority == 1
  {
    NothingLeft(template.baseUrl);
  }

  /** Every slot a synchronisation adds, whatever priority it then gave it. */
  lemma SyncAddsReplicas(models: seq<Model>, ids: Option<seq<int>>, after: seq<Model>, k: nat)
    requires Synced(models, ids, after) && |models| <= k < |after|
    ensures IsReplica(after[k], models, SelectedOf(ids), [])
  {
    var additions, granted :| SyncedBy(models, ids, additions, granted, after);
    SyncedAddsReplicas(models, ids, additions, granted, after, k);
  }

  lemma SyncedAddsReplicas(models: seq<Model>, ids: Option<seq<int>>, additions: seq<Model>, granted: map<int, int>,
                           after: seq<Model>, k: nat)
    requires SyncedBy(models, ids, additions, granted, after) && |models| <= k < |after|
    ensures IsReplica(after[k], models, SelectedOf(ids), [])
  {
    AssignedIs(models + additions, granted, after);
    ReplicasStay(models, ids, additions, after, k);
  }

  lemma ReplicasStay(models: seq<Model>, ids: Option<seq<int>>, additions: seq<Model>, after: seq<Model>, k: nat)
    requires Completes(PoolOf(models, ids, []), additions) && AllSameButPriority(models + additions, after)
    requires |models| <= k < |after|
    ensures IsReplica(after[k], models, SelectedOf(ids), [])
  {
    SameSlotAfter(models, additions, after, k);
    AdditionsAreReplicas(models, ids, [], additions, k - |models|);
    StaysReplica(additions[k - |models|], after[k], models, SelectedOf(ids), []);
  }

  lemma AssignedIs(all: seq<Model>, granted: map<int, int>, after: seq<Model>)
    requires after == AssignAll(all, granted)
    ensures AllSameButPriority(all, after)
  {
    AssigningChangesOnlyPriorities(all, granted);
  }

  lemma SameSlotAfter(models: seq<Model>, additions: seq<Model>, after: seq<Model>, k: nat)
    requires AllSameButPriority(models + additions, after) && |models| <= k < |after|
    ensures SameButPriority(additions[k - |models|], after[k])
  {
    assert (models + additions)[k] == additions[k - |models|];
  }

  lemma StaysReplica(m: Model, after: Model, models: seq<Model>, selected: seq<int>, extra: seq<(int, string)>)
    requires IsReplica(m, models, selected, extra) && SameButPriority(m, after)
    ensures IsReplica(after, models, selected, extra)
  {
    var i: nat, platform: string :| ReplicaOf(m, models, selected, extra, i, platform);
    assert ReplicaOf(after, models, selected, extra, i, platform) by {
      CopyStays(m, after, models[i], m.account, platform);
    }
  }

  lemma CopyStays(m: Model, after: Model, template: Model, account: int, platform: string)
    requires IsCopy(m, template, account, platform) && SameButPriority(m, after)
    ensures IsCopy(after, template, account, platform) && after.account == m.account && after.model == m.model
  {
  }

  // ---------------------------------------------------------------- the selected accounts

  /** The selected accounts are the positive ones of the list, in its order. */
  lemma SelectedInOrder(first: seq<int>, second: seq<int>)
    ensures SelectedOf(Some(first + second)) == SelectedOf(Some(first)) + SelectedOf(Some(second))
  {
    PositiveInOrder(first, second);
  }

  lemma SelectedAlone(id: int)
    ensures SelectedOf(Some([id])) == if id > 0 then [id] else []
  {
    assert [id][..0] == [] && PositiveOnly([]) == [];
  }

  lemma {:induction false} PositiveInOrder(first: seq<int>, second: seq<int>)
    ensures PositiveOnly(first + second) == PositiveOnly(first) + PositiveOnly(second)
  {
    if second == [] {
      assert first + second == first;
    } else {
      var n := |second| - 1;
      assert (first + second)[..|first| + n] == first + second[..n];
      PositiveInOrder(first, second[..n]);
    }
  }

  // ---------------------------------------------------------------- names of platforms

  /** The names of one provider. */
  const FAMILIES: seq<seq<string>> :=
    [["chatgpt", "openai"], ["claude", "anthropic"], ["grok", "xai", "x-ai"],
     ["gemini", "google", "google_one", "google-one"]]

  function Folded(platform: string): string {
    LowerAscii(Trim(platform))
  }

  predicate OneFamily(a: string, b: string) {
    a == b || exists i :: 0 <= i < |FAMILIES| && a in FAMILIES[i] && b in FAMILIES[i]
  }

  lemma FamilyKeys(value: string)
    ensures KeyOf(value) == "chatgpt" <==> value in FAMILIES[0]
    ensures KeyOf(value) == "claude" <==> value in FAMILIES[1]
    ensures KeyOf(value) == "grok" <==> value in FAMILIES[2]
    ensures KeyOf(value) == "gemini" <==> value in FAMILIES[3]
    ensures KeyOf(value) in ["chatgpt", "claude", "grok", "gemini"] || KeyOf(value) == value
  {
  }

  /** Exactly when two platforms are of one provider: the same name, or two names of it, case and space aside. */
  lemma SameProvider(a: string, b: string)
    ensures PlatformKey(a) == PlatformKey(b) <==> OneFamily(Folded(a), Folded(b))
  {
    FamilyKeys(Folded(a));
    FamilyKeys(Folded(b));
    SameKey(Folded(a), Folded(b), KeyOf(Folded(a)), KeyOf(Folded(b)));
  }

  /** Of a family exactly by its key. */
  predicate KeyFits(value: string, key: string) {
    && (key == "chatgpt" <==> value in FAMILIES[0])
    && (key == "claude" <==> value in FAMILIES[1])
    && (key == "grok" <==> value in FAMILIES[2])
    && (key == "gemini" <==> value in FAMILIES[3])
    && (key in ["chatgpt", "claude", "grok", "gemini"] || key == value)
  }

  lemma SameKey(a: string, b: string, x: string, y: string)
    requires KeyFits(a, x) && KeyFits(b, y)
    requires a == b ==> x == y
    ensures x == y <==> OneFamily(a, b)
  {
    assert |FAMILIES| == 4;
    Distinct();
  }

  lemma Distinct()
    ensures "chatgpt" != "claude" && "chatgpt" != "grok" && "chatgpt" != "gemini"
    ensures "claude" != "grok" && "claude" != "gemini" && "grok" != "gemini"
  {
    assert "chatgpt"[1] == 'h' && "claude"[1] == 'l' && "grok"[1] == 'r' && "gemini"[1] == 'e';
  }

  // ---------------------------------------------------------------- names of models

  /** A name as it stands: small letters, no path, no space around it. */
  predicate IsPlain(id: string) {
    Trimmed(id) && forall i :: 0 <= i < |id| ==> id[i] != '/' && !('A' <= id[i] <= 'Z')
  }

  /** Capitals do not matter. */
  lemma CanonicalIgnoresCase(id: string)
    ensures Canonical(LowerAscii(id)) == Canonical(id)
  {
    LowerTrimmed(id);
    LowerAsciiIsIdempotent(Trim(id));
  }

  /** Nor does a path in front. */
  lemma CanonicalIgnoresThePath(path: string, id: string)
    requires IsPlain(id)
    ensures Canonical(path + ['/'] + id) == Canonical(id)
  {
    PlainName(id);
    WithPath(path, id);
  }

  lemma PlainName(id: string)
    requires IsPlain(id)
    ensures Bare(id) == id
  {
    PlainId(id);
  }

  lemma WithPath(path: string, id: string)
    requires IsPlain(id)
    ensures Bare(path + ['/'] + id) == id
  {
    TrimmedPath(path, id);
    LoweredPath(TrimStart(path), id);
    AfterTheLast(LowerAscii(TrimStart(path)), id);
  }

  lemma TrimmedPath(path: string, id: string)
    requires IsPlain(id)
    ensures Trim(path + ['/'] + id) == TrimStart(path) + ['/'] + id
  {
    var before := StartParts(path);
    var kept := TrimStart(path) + ['/'] + id;
    assert path + ['/'] + id == before + kept + [];
    TrimOff(before, kept, []);
  }

  lemma LoweredPath(path: string, id: string)
    requires IsPlain(id)
    ensures LowerAscii(path + ['/'] + id) == LowerAscii(path) + ['/'] + id
  {
    LowerJoined(path, ['/'], id);
    assert LowerAscii(['/']) == ['/'] && LowerAscii(id) == id;
  }

  lemma {:induction false} AfterTheLast(front: string, id: string)
    requires '/' !in id
    ensures AfterLast(front + ['/'] + id, '/') == id
    decreases |id|
  {
    var s := front + ['/'] + id;
    if id != [] {
      var n := |id| - 1;
      assert s[|s| - 1] == id[n] && id[n] in id;
      assert s[..|s| - 1] == front + ['/'] + id[..n];
      AfterTheLast(front, id[..n]);
    }
  }

  /** The two brands name the same models, but for the one that the code renames under one of them only. */
  lemma TwinsAreOne(suffix: string)
    requires IsPlain("gpt-" + suffix)
    ensures Canonical("chatgpt-" + suffix) == Canonical("gpt-" + suffix) <==> suffix != "5.6"
    ensures suffix != "5.6" ==> Canonical("gpt-" + suffix) == "gpt-" + suffix
  {
    TwinIsPlain(suffix);
    PlainName("gpt-" + suffix);
    PlainName("chatgpt-" + suffix);
    BrandDropped(suffix);
    if suffix == "5.6" {
      OddOneOut();
    } else {
      BrandKept(suffix);
    }
  }

  /** The one. */
  lemma OddOneOut()
    ensures Named("gpt-5.6") == "gpt-5.6-sol" && Named("chatgpt-5.6") == "gpt-5.6"
    ensures "gpt-" + "5.6" == "gpt-5.6" && "chatgpt-" + "5.6" == "chatgpt-5.6" && "gpt-5.6" != "gpt-5.6-sol"
  {
    BrandDropped("5.6");
    assert "chatgpt-" + "5.6" == "chatgpt-5.6" && "gpt-" + "5.6" == "gpt-5.6";
    assert "gpt-5.6-sol"[0] == 'g';
    assert |"gpt-5.6"| == 7;
  }

  lemma BrandKept(suffix: string)
    requires suffix != "5.6"
    ensures Named("gpt-" + suffix) == "gpt-" + suffix
  {
    OneIsRenamed(suffix);
    OtherBrand(suffix);
  }

  lemma OtherBrand(suffix: string)
    ensures "gpt-" + suffix == "gpt-5.6" <==> suffix == "5.6"
    ensures !("chatgpt-" <= "gpt-" + suffix)
  {
    SamePrefix("gpt-", suffix, "5.6");
    assert "gpt-" + "5.6" == "gpt-5.6";
    assert ("gpt-" + suffix)[0] == 'g' && "chatgpt-"[0] == 'c';
  }

  lemma TwinIsPlain(suffix: string)
    requires IsPlain("gpt-" + suffix)
    ensures IsPlain("chatgpt-" + suffix)
  {
    var short: string, long: string := "gpt-", "chatgpt-";
    forall i | 0 <= i < |long + suffix| ensures (long + suffix)[i] != '/' && !('A' <= (long + suffix)[i] <= 'Z') {
      assert i >= 8 ==> (long + suffix)[i] == (short + suffix)[i - 4];
    }
  }

  lemma BrandDropped(suffix: string)
    ensures Named("chatgpt-" + suffix) == "gpt-" + suffix
  {
    assert ("chatgpt-" + suffix)[8..] == suffix;
  }
}
