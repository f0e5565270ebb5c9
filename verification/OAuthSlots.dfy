/**
 * Same-provider OAuth accounts share their selected models: every selected account gets a slot for
 * each model any selected account of its provider has. Map iteration order is left open.
 */
module OAuthSlots {
  import opened Wrappers
  import opened Text

  /** What a new slot copies from the slot it is modelled on. */
  datatype Settings = Settings(
    alias: string, aliasCustomized: Option<bool>, extra: string, multimodal: string,
    contextWindow: int, maxOutputTokens: int, autoCompactPercent: int,
    reasoningMode: string, reasoningLevels: seq<string>, defaultReasoningLevel: string,
    fastSupported: bool, fastMode: bool)

  /** What a new slot leaves at its default. */
  datatype Private = Private(apiKey: string, accessKeyId: string, secretAccessKey: string,
                             credentialName: string, weight: int)

  datatype Model = Model(
    model: string, baseUrl: string, priority: int, source: string,
    account: int, platform: string, userSelected: bool, settings: Settings, own: Private)

  const UNSET: Private := Private("", "", "", "", 1)

  /** What is left of a model id once space, case and path are gone. */
  function Bare(id: string): string {
    AfterLast(LowerAscii(Trim(id)), '/')
  }

  /** `canonical_route_model_id` */
  function Canonical(id: string): string {
    Named(Bare(id))
  }

  function Named(value: string): string {
    var named := if value == "gpt-5.6" then "gpt-5.6-sol" else value;
    if "chatgpt-" <= named then "gpt-" + named[8..] else named
  }

  /** `oauth_platform_key` */
  function PlatformKey(platform: string): string {
    KeyOf(LowerAscii(Trim(platform)))
  }

  function KeyOf(value: string): string {
    if value in {"openai", "chatgpt"} then "chatgpt"
    else if value in {"grok", "xai", "x-ai"} then "grok"
    else if value in {"anthropic", "claude"} then "claude"
    else if value in {"gemini", "google", "google_one", "google-one"} then "gemini"
    else if value == "antigravity" then "antigravity"
    else value
  }

  // ---------------------------------------------------------------- the slots there are

  predicate IsSlot(m: Model) {
    m.source == "oauth" && m.account > 0
  }

  /** The selected accounts, in order. */
  function SelectedOf(ids: Option<seq<int>>): seq<int> {
    if ids.None? then [] else PositiveOnly(ids.value)
  }

  function PositiveOnly(ids: seq<int>): (r: seq<int>)
    ensures forall a :: a in r <==> a in ids && a > 0
  {
    if ids == [] then []
    else
      var n := |ids| - 1;
      assert ids == ids[..n] + [ids[n]];
      PositiveOnly(ids[..n]) + if ids[n] > 0 then [ids[n]] else []
  }

  /** The account and the canonical model of a slot. */
  function PairOf(m: Model): (int, string) {
    (m.account, Canonical(m.model))
  }

  function Present(models: seq<Model>): set<(int, string)> {
    if models == [] then {}
    else
      var n := |models| - 1;
      Present(models[..n]) + PairsOf(models[n])
  }

  function PairsOf(m: Model): set<(int, string)> {
    if IsSlot(m) then {PairOf(m)} else {}
  }

  /** For each provider and canonical model, the first slot of a selected account. */
  function Templates(models: seq<Model>, selected: seq<int>): map<(string, string), Model> {
    if models == [] then map[]
    else
      var n := |models| - 1;
      WithTemplate(Templates(models[..n], selected), models[n], selected)
  }

  function WithTemplate(earlier: map<(string, string), Model>, m: Model, selected: seq<int>)
    : map<(string, string), Model>
  {
    var key := (PlatformKey(m.platform), Canonical(m.model));
    if IsSlot(m) && m.account in selected && key !in earlier then earlier[key := m] else earlier
  }

  /** Platforms named for selected accounts; the first name stands. */
  function NamedPlatforms(extra: seq<(int, string)>, selected: seq<int>): map<int, string> {
    if extra == [] then map[]
    else
      var n := |extra| - 1;
      var earlier := NamedPlatforms(extra[..n], selected);
      var (account, platform) := extra[n];
      if account > 0 && account in selected && account !in earlier then earlier[account := platform] else earlier
  }

  /** Each account's platform: as named, or else that of its first slot. */
  function Platforms(models: seq<Model>, named: map<int, string>): map<int, string> {
    if models == [] then named
    else
      var n := |models| - 1;
      var earlier := Platforms(models[..n], named);
      if IsSlot(models[n]) && models[n].account !in earlier then earlier[models[n].account := models[n].platform]
      else earlier
  }

  // ---------------------------------------------------------------- the slots there should be

  /** What replication works from. */
  datatype Pool = Pool(
    selected: seq<int>, present: set<(int, string)>,
    templates: map<(string, string), Model>, platforms: map<int, string>)

  function PoolOf(models: seq<Model>, ids: Option<seq<int>>, extra: seq<(int, string)>): Pool {
    var selected := SelectedOf(ids);
    Pool(selected, Present(models), Templates(models, selected), Platforms(models, NamedPlatforms(extra, selected)))
  }

  /** The account's provider has the model. */
  predicate Offered(p: Pool, account: int, canonical: string) {
    && account in p.selected && account in p.platforms
    && (PlatformKey(p.platforms[account]), canonical) in p.templates
  }

  predicate Missing(p: Pool, pair: (int, string)) {
    Offered(p, pair.0, pair.1) && pair !in p.present
  }

  /** The slot an account gets for a model it lacks. */
  function NewSlot(p: Pool, account: int, canonical: string): Model
    requires Offered(p, account, canonical)
  {
    var platform := p.platforms[account];
    var template := p.templates[(PlatformKey(platform), canonical)];
    Model(template.model,
          if Trim(template.baseUrl) == [] then "Router OAuth / " + platform else template.baseUrl,
          1, "oauth", account,
          if platform == [] then template.platform else platform,
          true, template.settings, UNSET)
  }

  predicate NoPairTwice(models: seq<Model>) {
    forall i, j :: 0 <= i < j < |models| ==> PairOf(models[i]) != PairOf(models[j])
  }

  /** Each slot is the one its account should get. */
  predicate ProperSlots(p: Pool, additions: seq<Model>) {
    forall m :: m in additions ==> Missing(p, PairOf(m)) && m == NewSlot(p, m.account, Canonical(m.model))
  }

  predicate Covers(additions: seq<Model>, pair: (int, string)) {
    exists m :: m in additions && PairOf(m) == pair
  }

  /** Exactly the missing slots, each once, account by account in the selected order. */
  ghost predicate Completes(p: Pool, additions: seq<Model>) {
    && ProperSlots(p, additions)
    && NoPairTwice(additions)
    && (forall pair :: Missing(p, pair) ==> Covers(additions, pair))
    && InSelectedOrder(p.selected, additions)
  }

  function Rank(selected: seq<int>, account: int): (r: nat)
    requires account in selected
    ensures r < |selected| && selected[r] == account && account !in selected[..r]
  {
    if selected[0] == account then 0 else 1 + Rank(selected[1..], account)
  }

  predicate InSelectedOrder(selected: seq<int>, additions: seq<Model>) {
    && (forall m :: m in additions ==> m.account in selected)
    && (forall i, j :: 0 <= i < j < |additions| ==>
          Rank(selected, additions[i].account) <= Rank(selected, additions[j].account))
  }

  // ---------------------------------------------------------------- model ids

  /** A bare id names itself, its unbranded form, or the full name of one model. */
  predicate NamesItself(bare: string) {
    bare != "gpt-5.6" && !("chatgpt-" <= bare)
  }

  /** The branded id that lands on one renamed in its turn. */
  const TWICE_RENAMED: string := "chatgpt-5.6"

  /**
   * Canonicalising twice is the same as once, except for the branded id that lands on one renamed in
   * its turn, and for ids with space after their last slash.
   */
  lemma CanonicalTwice(id: string)
    ensures Canonical(Canonical(id)) == Canonical(id)
       <==> Bare(id) != TWICE_RENAMED && (Bare(id) == "" || !IsWhitespace(Bare(id)[0]))
  {
    var bare := Bare(id);
    BareIsBare(id);
    if bare == "gpt-5.6" {
      RenamedTwice(bare);
    } else if "chatgpt-" <= bare {
      UnbrandedTwice(bare);
    } else {
      PlainTwice(bare);
    }
  }

  lemma PlainTwice(bare: string)
    requires forall c :: c in bare ==> c != '/' && !('A' <= c <= 'Z')
    requires bare != "" ==> !IsWhitespace(bare[|bare| - 1])
    requires NamesItself(bare)
    ensures Canonical(Named(bare)) == Named(bare) <==> bare == "" || !IsWhitespace(bare[0])
  {
    if bare != "" && IsWhitespace(bare[0]) {
      StartsWithoutSpace(bare);
    } else {
      PlainId(bare);
    }
  }

  lemma UnbrandedTwice(bare: string)
    requires forall c :: c in bare ==> c != '/' && !('A' <= c <= 'Z')
    requires "chatgpt-" <= bare && !IsWhitespace(bare[|bare| - 1])
    ensures Canonical(Named(bare)) == Named(bare) <==> bare != TWICE_RENAMED
  {
    Unbranded(bare, bare[8..]);
  }

  lemma RenamedTwice(bare: string)
    requires bare == "gpt-5.6"
    ensures Canonical(Named(bare)) == Named(bare) && !IsWhitespace(bare[0]) && bare != TWICE_RENAMED
  {
    PlainId("gpt-5.6-sol");
  }

  lemma Unbranded(bare: string, suffix: string)
    requires bare == "chatgpt-" + suffix
    requires forall c :: c in bare ==> c != '/' && !('A' <= c <= 'Z')
    requires !IsWhitespace(bare[|bare| - 1])
    ensures Bare("gpt-" + suffix) == "gpt-" + suffix
    ensures "gpt-" + suffix == "gpt-5.6" <==> bare == "chatgpt-5.6"
    ensures !("chatgpt-" <= "gpt-" + suffix)
  {
    var short: string := "gpt-";
    var named := short + suffix;
    forall c | c in named ensures c != '/' && !('A' <= c <= 'Z') {
      assert c in short || c in suffix;
      assert c in suffix ==> c in bare;
    }
    EndsPlain(bare, named, suffix);
    PlainId(named);
    OneIsRenamed(suffix);
  }

  lemma EndsPlain(bare: string, named: string, suffix: string)
    requires bare == "chatgpt-" + suffix && named == "gpt-" + suffix && !IsWhitespace(bare[|bare| - 1])
    ensures !IsWhitespace(named[0]) && !IsWhitespace(named[|named| - 1])
    ensures !("chatgpt-" <= named)
  {
    assert named[0] == 'g' && "chatgpt-"[0] == 'c';
    assert named[|named| - 1] == (if suffix == [] then '-' else suffix[|suffix| - 1]) == bare[|bare| - 1];
  }

  lemma OneIsRenamed(suffix: string)
    ensures "gpt-" + suffix == "gpt-5.6" <==> "chatgpt-" + suffix == "chatgpt-5.6"
  {
    SamePrefix("gpt-", suffix, "5.6");
    SamePrefix("chatgpt-", suffix, "5.6");
    assert "gpt-" + "5.6" == "gpt-5.6" && "chatgpt-" + "5.6" == "chatgpt-5.6";
  }

  lemma SamePrefix(prefix: string, a: string, b: string)
    ensures prefix + a == prefix + b <==> a == b
  {
    assert (prefix + a)[|prefix|..] == a && (prefix + b)[|prefix|..] == b;
  }

  /** The canonical form of an id without slashes does not start with space. */
  lemma StartsWithoutSpace(id: string)
    requires '/' !in id
    ensures Canonical(id) != "" ==> !IsWhitespace(Canonical(id)[0])
  {
    var trimmed := Trim(id);
    TrimAddsNothing(id, '/');
    assert '/' !in LowerAscii(trimmed);
    NoSeparator(LowerAscii(trimmed), '/');
    assert trimmed != "" ==> trimmed[0] == TrimStart(id)[0];
  }

  lemma TrimAddsNothing(s: string, c: char)
    requires c !in s
    ensures c !in Trim(s)
  {
    StartAddsNothing(s, c);
  }

  lemma {:induction false} StartAddsNothing(s: string, c: char)
    requires c !in s
    ensures c !in TrimStart(s)
  {
    if s != [] && IsWhitespace(s[0]) {
      StartAddsNothing(s[1..], c);
    }
  }

  /** A bare id holds no slash and no capital, and does not end in space. */
  lemma BareIsBare(id: string)
    ensures var bare := Bare(id);
            && (forall c :: c in bare ==> c != '/' && !('A' <= c <= 'Z'))
            && (bare != "" ==> !IsWhitespace(bare[|bare| - 1]))
  {
    var lower := LowerAscii(Trim(id));
    SuffixAfterLast(lower, '/');
  }

  lemma {:induction false} SuffixAfterLast(s: string, c: char)
    ensures var r := AfterLast(s, c);
            |r| <= |s| && r == s[|s| - |r|..]
  {
    if s != [] && s[|s| - 1] != c {
      SuffixAfterLast(s[..|s| - 1], c);
    }
  }

  /** Ids without capitals, slashes or space around them are their own bare form. */
  lemma PlainId(id: string)
    requires forall c :: c in id ==> c != '/' && !('A' <= c <= 'Z')
    requires id != "" ==> !IsWhitespace(id[0]) && !IsWhitespace(id[|id| - 1])
    ensures Bare(id) == id
  {
    assert Trim(id) == id;
    assert forall i :: 0 <= i < |id| ==> LowerAscii(id)[i] == id[i] by {
      assert forall i :: 0 <= i < |id| ==> id[i] in id;
    }
    assert LowerAscii(id) == id;
    NoSeparator(id, '/');
  }

  lemma {:induction false} NoSeparator(s: string, c: char)
    requires c !in s
    ensures AfterLast(s, c) == s
  {
    if s != [] {
      NoSeparator(s[..|s| - 1], c);
    }
  }
}
