/**
 * Distinct priorities for the OAuth accounts of a provider: in the selected order when nobody set any,
 * otherwise the set ones, moved up past each other.
 */
module OAuthPriority {
  import opened Wrappers
  import opened OAuthSlots
  import opened Sorting

  const TOP: int := 999
  const USIZE_MAX: int := 18446744073709551615

  /** An account of a provider: its least priority and its first slot. */
  datatype Entry = Entry(account: int, priority: int, index: nat)

  datatype Award = Award(account: int, value: int)

  function Max(a: int, b: int): int { if a < b then b else a }

  function Lesser(a: int, b: int): int { if a < b then a else b }

  function Clamp(priority: int): (r: int)
    ensures 1 <= r <= TOP
  {
    if priority < 1 then 1 else if priority > TOP then TOP else priority
  }

  // ---------------------------------------------------------------- grouping

  /** Where an account's entry stands, or -1. */
  function EntryOf(entries: seq<Entry>, account: int): (r: int)
    ensures -1 <= r < |entries|
    ensures r >= 0 ==> entries[r].account == account
    ensures r < 0 ==> forall e :: e in entries ==> e.account != account
  {
    if entries == [] then -1
    else if entries[|entries| - 1].account == account then |entries| - 1
    else
      var r := EntryOf(entries[..|entries| - 1], account);
      assert r < 0 ==> forall e :: e in entries ==> e in entries[..|entries| - 1] || e == entries[|entries| - 1];
      r
  }

  function Merged(e: Entry, priority: int, index: nat): Entry {
    e.(priority := Lesser(e.priority, Max(priority, 1)), index := if e.index < index then e.index else index)
  }

  /** What one slot says about its account. */
  datatype Wish = Wish(account: int, priority: int)

  function WishOf(m: Model, provider: string): Option<Wish> {
    if IsSlot(m) && PlatformKey(m.platform) == provider then Some(Wish(m.account, m.priority)) else None
  }

  /** The provider's slots, each in its place among the models. */
  function Wishes(models: seq<Model>, provider: string): (r: seq<Option<Wish>>)
    ensures |r| == |models|
  {
    seq(|models|, i requires 0 <= i < |models| => WishOf(models[i], provider))
  }

  function Entered(entries: seq<Entry>, w: Wish, index: nat): seq<Entry> {
    var at := EntryOf(entries, w.account);
    if at >= 0 then entries[at := Merged(entries[at], w.priority, index)]
    else entries + [Entry(w.account, Max(w.priority, 1), index)]
  }

  function Grouped(wishes: seq<Option<Wish>>): seq<Entry> {
    if wishes == [] then []
    else
      var n := |wishes| - 1;
      var earlier := Grouped(wishes[..n]);
      if wishes[n].Some? then Entered(earlier, wishes[n].value, n) else earlier
  }

  /** The accounts with slots of one provider. */
  function Entries(models: seq<Model>, provider: string): seq<Entry> {
    Grouped(Wishes(models, provider))
  }

  // ---------------------------------------------------------------- ranking

  predicate AllSame(entries: seq<Entry>) {
    forall i, j :: 0 <= i < j < |entries| ==> entries[i].priority == entries[j].priority
  }

  /** The position of an id, or a number past them all. */
  function Position(ids: seq<int>, id: int): int {
    if id in ids then Rank(ids, id) else USIZE_MAX
  }

  function ByOrder(e: Entry, ids: seq<int>): Item<Entry> {
    Item(Key(Position(ids, e.account), e.account, e.index), e)
  }

  function ByPriority(e: Entry): Item<Entry> {
    Item(Key(e.priority, e.index, 0), e)
  }

  function Keyed(entries: seq<Entry>, ids: seq<int>, byOrder: bool): (r: seq<Item<Entry>>)
    ensures |r| == |entries|
  {
    seq(|entries|, i requires 0 <= i < |entries| =>
      if byOrder then ByOrder(entries[i], ids) else ByPriority(entries[i]))
  }

  predicate Unset(entries: seq<Entry>) {
    AllSame(entries) && |entries| > 1
  }

  function Ordered(entries: seq<Entry>, ids: seq<int>): (r: seq<Item<Entry>>)
    ensures |r| == |entries|
  {
    Sort(Keyed(entries, ids, Unset(entries)))
  }

  function Clamped(items: seq<Item<Entry>>): (r: seq<int>)
    ensures |r| == |items|
  {
    seq(|items|, i requires 0 <= i < |items| => Clamp(items[i].value.priority))
  }

  /** The next free value after those given out. */
  function Next(values: seq<int>): int {
    if values == [] then 1 else values[|values| - 1] + 1
  }

  /** Each value as low as it can be without falling below its wish or meeting the one before. */
  function Spaced(wishes: seq<int>): (r: seq<int>)
    ensures |r| == |wishes|
  {
    if wishes == [] then []
    else
      var earlier := Spaced(wishes[..|wishes| - 1]);
      earlier + [Max(wishes[|wishes| - 1], Next(earlier))]
  }

  function Counting(n: nat): (r: seq<int>)
    ensures |r| == n
  {
    seq(n, i => i + 1)
  }

  function Values(entries: seq<Entry>, ids: seq<int>): (r: seq<int>)
    ensures |r| == |entries|
  {
    if Unset(entries) then Counting(|entries|) else Spaced(Clamped(Ordered(entries, ids)))
  }

  /** Who gets which priority. */
  function Awards(entries: seq<Entry>, ids: seq<int>): (r: seq<Award>)
    ensures |r| == |entries|
  {
    seq(|entries|, i requires 0 <= i < |entries| =>
      Award(Ordered(entries, ids)[i].value.account, Values(entries, ids)[i]))
  }

  // ---------------------------------------------------------------- the probing loop

  predicate Ascending(wishes: seq<int>) {
    forall i, j :: 0 <= i < j < |wishes| ==> wishes[i] <= wishes[j]
  }

  /** From the last wish up to the next free value nothing is free. */
  predicate Packed(used: set<int>, wishes: seq<int>, next: int) {
    && (forall u :: u in used ==> u < next)
    && (wishes != [] ==>
          && wishes[|wishes| - 1] < next
          && forall x :: wishes[|wishes| - 1] <= x < next ==> x in used)
  }

  /** One account's value: probe upwards from its wish, then fall back on the next free value. */
  method Probe(wish: int, used: set<int>, next: int) returns (value: int, nowUsed: set<int>)
    requires 1 <= wish <= TOP && 1 <= next
    requires forall u :: u in used ==> u < next
    requires wish < next ==> forall x :: wish <= x < next ==> x in used
    ensures value == Max(wish, next)
    ensures value in nowUsed && used <= nowUsed
    ensures forall u :: u in nowUsed ==> u <= value
  {
    value := wish;
    while value in used
      invariant wish <= value <= TOP
      invariant forall x :: wish <= x < value ==> x in used
      decreases TOP - value
    {
      value := Clamp(value + 1);
      if value == TOP && TOP in used {
        break;
      }
    }
    assert wish < value && value !in used ==> wish in used;
    assert wish <= next < value && value !in used ==> next in used;
    nowUsed := used + {value};
    if value < next && next !in nowUsed {
      value := next;
      nowUsed := nowUsed + {value};
    }
  }

  method SpaceOut(wishes: seq<int>) returns (values: seq<int>)
    requires Ascending(wishes) && forall w :: w in wishes ==> 1 <= w <= TOP
    ensures values == Spaced(wishes)
  {
    values := [];
    var next := 1;
    var used: set<int> := {};
    for i := 0 to |wishes|
      invariant values == Spaced(wishes[..i])
      invariant next == Next(values) && next >= 1
      invariant Packed(used, wishes[..i], next)
    {
      assert wishes[..i + 1][..i] == wishes[..i];
      assert i > 0 ==> wishes[..i][i - 1] <= wishes[i];
      assert wishes[i] in wishes;
      var value, nowUsed := Probe(wishes[i], used, next);
      values, used := values + [value], nowUsed;
      next := Max(next, value + 1);
    }
    assert wishes[..|wishes|] == wishes;
  }

  // ---------------------------------------------------------------- what the spacing achieves

  /** Values wished for or more, each above the one before. */
  predicate Serves(values: seq<int>, wishes: seq<int>) {
    && |values| == |wishes|
    && (forall i :: 0 <= i < |values| ==> values[i] >= wishes[i] && values[i] >= 1)
    && (forall i, j :: 0 <= i < j < |values| ==> values[i] < values[j])
  }

  lemma {:induction false} SpacedServes(wishes: seq<int>)
    ensures Serves(Spaced(wishes), wishes)
  {
    if wishes != [] {
      SpacedServes(wishes[..|wishes| - 1]);
    }
  }

  lemma {:induction false} SpacedIsBelow(wishes: seq<int>, others: seq<int>, i: nat)
    requires Serves(others, wishes) && i < |wishes|
    ensures Spaced(wishes)[i] <= others[i]
  {
    var n := |wishes| - 1;
    if i < n {
      SpacedIsBelow(wishes[..n], others[..n], i);
    } else if n > 0 {
      SpacedIsBelow(wishes[..n], others[..n], n - 1);
      assert others[n - 1] < others[n];
    }
  }

  /** The spacing serves every wish and is the least that does. */
  lemma SpacedIsLeast(wishes: seq<int>, others: seq<int>)
    ensures Serves(Spaced(wishes), wishes)
    ensures Serves(others, wishes) ==> forall i :: 0 <= i < |wishes| ==> Spaced(wishes)[i] <= others[i]
  {
    SpacedServes(wishes);
    if Serves(others, wishes) {
      forall i | 0 <= i < |wishes| ensures Spaced(wishes)[i] <= others[i] {
        SpacedIsBelow(wishes, others, i);
      }
    }
  }

  /** Wishes fit below a bound if each leaves room for those after it. */
  predicate Fits(wishes: seq<int>, bound: int) {
    forall i :: 0 <= i < |wishes| ==> wishes[i] + |wishes| - 1 - i <= bound
  }

  /** Everyone stays within 1..=999 exactly when every wish leaves room for the accounts after it. */
  lemma WithinTheTop(wishes: seq<int>)
    requires forall w :: w in wishes ==> 1 <= w <= TOP
    ensures (forall v :: v in Spaced(wishes) ==> 1 <= v <= TOP) <==> Fits(wishes, TOP)
  {
    SpacedServes(wishes);
    if wishes != [] {
      var values := Spaced(wishes);
      var n := |wishes| - 1;
      assert forall i :: 0 <= i < |wishes| ==> wishes[i] in wishes;
      LastIsLow(wishes, TOP);
      assert values[n] in values;
      assert forall i :: 0 <= i < n ==> values[i] < values[n];
    }
  }

  /** The last value is at most a bound exactly when every wish leaves room below it. */
  lemma {:induction false} LastIsLow(wishes: seq<int>, bound: int)
    requires wishes != [] && forall i :: 0 <= i < |wishes| ==> 1 <= wishes[i]
    ensures Spaced(wishes)[|wishes| - 1] <= bound <==> Fits(wishes, bound)
  {
    var n := |wishes| - 1;
    var earlier := wishes[..n];
    if n > 0 {
      LastIsLow(earlier, bound - 1);
      assert forall i :: 0 <= i < n ==> earlier[i] == wishes[i];
    }
  }

  // ---------------------------------------------------------------- groups

  predicate DistinctEntries(entries: seq<Entry>) {
    && (forall i, j :: 0 <= i < j < |entries| ==> entries[i].account != entries[j].account)
    && (forall i, j :: 0 <= i < j < |entries| ==> entries[i].index != entries[j].index)
    && (forall i :: 0 <= i < |entries| ==> entries[i].priority >= 1)
  }

  predicate WishedBy(wish: Option<Wish>, account: int) {
    wish.Some? && wish.value.account == account
  }

  /** The entry's priority is the least of its account's slots, and its index that of the first. */
  ghost predicate Minimal(e: Entry, wishes: seq<Option<Wish>>) {
    && e.index < |wishes| && WishedBy(wishes[e.index], e.account)
    && (exists j :: 0 <= j < |wishes| && WishedBy(wishes[j], e.account)
                    && e.priority == Max(wishes[j].value.priority, 1))
    && (forall j :: 0 <= j < |wishes| && WishedBy(wishes[j], e.account) ==>
          e.index <= j && e.priority <= Max(wishes[j].value.priority, 1))
  }

  lemma StaysMinimal(e: Entry, wishes: seq<Option<Wish>>, last: Option<Wish>)
    requires Minimal(e, wishes) && !WishedBy(last, e.account)
    ensures Minimal(e, wishes + [last])
  {
    var all := wishes + [last];
    var j :| 0 <= j < |wishes| && WishedBy(wishes[j], e.account) && e.priority == Max(wishes[j].value.priority, 1);
    assert all[j] == wishes[j] && all[e.index] == wishes[e.index];
  }

  lemma MergedIsMinimal(e: Entry, wishes: seq<Option<Wish>>, last: Wish)
    requires Minimal(e, wishes) && last.account == e.account
    ensures Minimal(Merged(e, last.priority, |wishes|), wishes + [Some(last)])
  {
    var all := wishes + [Some(last)];
    var merged := Merged(e, last.priority, |wishes|);
    var j :| 0 <= j < |wishes| && WishedBy(wishes[j], e.account) && e.priority == Max(wishes[j].value.priority, 1);
    var least := if merged.priority == e.priority then j else |wishes|;
    assert WishedBy(all[least], e.account) && merged.priority == Max(all[least].value.priority, 1);
    assert all[e.index] == wishes[e.index];
  }

  predicate Represented(entries: seq<Entry>, wishes: seq<Option<Wish>>) {
    forall j :: 0 <= j < |wishes| && wishes[j].Some? ==> EntryOf(entries, wishes[j].value.account) >= 0
  }

  lemma EnteredIsDistinct(entries: seq<Entry>, w: Wish, index: nat)
    requires DistinctEntries(entries) && forall i :: 0 <= i < |entries| ==> entries[i].index < index
    ensures DistinctEntries(Entered(entries, w, index))
  {
    var at := EntryOf(entries, w.account);
    if at < 0 {
      forall i | 0 <= i < |entries| ensures entries[i].account != w.account {
        assert entries[i] in entries;
      }
    }
  }

  lemma EnteredRepresents(entries: seq<Entry>, w: Wish, index: nat, account: int)
    requires EntryOf(entries, account) >= 0 || account == w.account
    ensures EntryOf(Entered(entries, w, index), account) >= 0
  {
    var at := EntryOf(entries, w.account);
    var after := Entered(entries, w, index);
    var k := if account == w.account then (if at >= 0 then at else |entries|) else EntryOf(entries, account);
    assert after[k].account == account && after[k] in after;
  }

  lemma OneMoreWish(wishes: seq<Option<Wish>>, last: Wish, earlier: seq<Entry>)
    requires DistinctEntries(earlier) && Represented(earlier, wishes)
    requires forall e :: e in earlier ==> Minimal(e, wishes)
    ensures forall e :: e in Entered(earlier, last, |wishes|) ==> Minimal(e, wishes + [Some(last)])
  {
    var at := EntryOf(earlier, last.account);
    var after := Entered(earlier, last, |wishes|);
    forall e | e in after ensures Minimal(e, wishes + [Some(last)]) {
      var i :| 0 <= i < |after| && after[i] == e;
      if at < 0 && i == |earlier| {
        assert forall j :: 0 <= j < |wishes| ==> !WishedBy(wishes[j], last.account);
        assert (wishes + [Some(last)])[|wishes|] == Some(last);
      } else if i == at {
        assert earlier[at] in earlier;
        MergedIsMinimal(earlier[at], wishes, last);
      } else {
        assert earlier[i] in earlier;
        StaysMinimal(e, wishes, Some(last));
      }
    }
  }

  lemma OneMoreGrouped(wishes: seq<Option<Wish>>, last: Wish, earlier: seq<Entry>)
    requires DistinctEntries(earlier) && Represented(earlier, wishes)
    requires forall e :: e in earlier ==> Minimal(e, wishes)
    ensures var entries := Entered(earlier, last, |wishes|);
            && DistinctEntries(entries)
            && (forall e :: e in entries ==> Minimal(e, wishes + [Some(last)]))
            && Represented(entries, wishes + [Some(last)])
  {
    var n := |wishes|;
    assert forall i :: 0 <= i < |earlier| ==> earlier[i] in earlier;
    EnteredIsDistinct(earlier, last, n);
    forall j | 0 <= j < n && wishes[j].Some? ensures EntryOf(Entered(earlier, last, n), wishes[j].value.account) >= 0 {
      EnteredRepresents(earlier, last, n, wishes[j].value.account);
    }
    EnteredRepresents(earlier, last, n, last.account);
    OneMoreWish(wishes, last, earlier);
  }

  /** Each group holds every account with a slot of the provider once, with its least priority and first slot. */
  lemma {:induction false} GroupsAreMinimal(wishes: seq<Option<Wish>>)
    ensures var entries := Grouped(wishes);
            && DistinctEntries(entries)
            && (forall e :: e in entries ==> Minimal(e, wishes))
            && Represented(entries, wishes)
  {
    if wishes != [] {
      var n := |wishes| - 1;
      var earlier := Grouped(wishes[..n]);
      assert wishes == wishes[..n] + [wishes[n]];
      GroupsAreMinimal(wishes[..n]);
      if wishes[n].Some? {
        OneMoreGrouped(wishes[..n], wishes[n].value, earlier);
      } else {
        forall e | e in earlier ensures Minimal(e, wishes) {
          StaysMinimal(e, wishes[..n], wishes[n]);
        }
      }
    }
  }

  // ---------------------------------------------------------------- what an award means

  lemma KeysAreDistinct(entries: seq<Entry>, ids: seq<int>, byOrder: bool)
    requires DistinctEntries(entries)
    ensures DistinctKeys(Keyed(entries, ids, byOrder))
  {
  }

  /** Sorted items are entries under their keys. */
  lemma ItemIsAnEntry(entries: seq<Entry>, ids: seq<int>, i: nat)
    requires i < |entries|
    ensures var item := Ordered(entries, ids)[i];
            && item.value in entries
            && item == if Unset(entries) then ByOrder(item.value, ids) else ByPriority(item.value)
  {
    var keyed := Keyed(entries, ids, Unset(entries));
    assert Ordered(entries, ids)[i] in multiset(keyed);
    var k :| 0 <= k < |keyed| && keyed[k] == Ordered(entries, ids)[i];
    assert keyed[k].value == entries[k];
  }

  /** Values given to sorted accounts: at least 1, growing, and at most the top unless right after the one before. */
  predicate Ladder(values: seq<int>) {
    && (forall i :: 0 <= i < |values| ==> values[i] >= 1)
    && (forall i, j :: 0 <= i < j < |values| ==> values[i] < values[j])
    && (forall i :: 0 <= i < |values| ==> values[i] <= TOP || (i > 0 && values[i] == values[i - 1] + 1))
  }

  lemma {:induction false} SpacedIsALadder(wishes: seq<int>)
    requires forall i :: 0 <= i < |wishes| ==> 1 <= wishes[i] <= TOP
    ensures Ladder(Spaced(wishes))
  {
    SpacedServes(wishes);
    if wishes != [] {
      SpacedIsALadder(wishes[..|wishes| - 1]);
    }
  }

  lemma LadderShortens(values: seq<int>)
    requires Ladder(values) && values != []
    ensures Ladder(values[..|values| - 1])
  {
    var shorter := values[..|values| - 1];
    forall i | 0 <= i < |shorter| ensures shorter[i] <= TOP || (i > 0 && shorter[i] == shorter[i - 1] + 1) {
      assert values[i] <= TOP || (i > 0 && values[i] == values[i - 1] + 1);
      assert shorter[i] == values[i] && (i > 0 ==> shorter[i - 1] == values[i - 1]);
    }
  }

  /** Priorities already spaced stay as they are. */
  lemma {:induction false} LadderStays(values: seq<int>, wishes: seq<int>)
    requires Ladder(values) && |wishes| == |values|
    requires forall i :: 0 <= i < |values| ==> wishes[i] == Clamp(values[i])
    ensures Spaced(wishes) == values
  {
    if values != [] {
      var n := |values| - 1;
      LadderShortens(values);
      LadderStays(values[..n], wishes[..n]);
      assert n > 0 ==> values[..n][n - 1] < values[n];
      assert values == values[..n] + [values[n]];
    }
  }

  lemma {:induction false} CountingIsALadder(n: nat)
    ensures Ladder(Counting(n))
  {
    var values := Counting(n);
    forall i | 0 <= i < n ensures values[i] <= TOP || (i > 0 && values[i] == values[i - 1] + 1) {
      assert values[i] == i + 1;
    }
  }

  lemma ValuesAreALadder(entries: seq<Entry>, ids: seq<int>)
    ensures Ladder(Values(entries, ids))
  {
    if Unset(entries) {
      CountingIsALadder(|entries|);
    } else {
      SpacedIsALadder(Clamped(Ordered(entries, ids)));
    }
  }
}
