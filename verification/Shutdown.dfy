/**
 * The order in which the desktop's processes are asked to close: deepest in the process tree first,
 * over a parent map that may contain cycles.
 */
module Shutdown {
  import opened Wrappers
  import opened Sorting

  datatype Process = Process(id: nat, parent: nat)

  /** Process id to parent id; of two entries with one id the later one stands. */
  function Parents(processes: seq<Process>): map<nat, nat> {
    if processes == [] then map[]
    else
      var n := |processes| - 1;
      Parents(processes[..n])[processes[n].id := processes[n].parent]
  }

  /** The parent, when it is one of the processes too. */
  function ParentOf(parents: map<nat, nat>, id: nat): Option<nat> {
    if id in parents && parents[id] in parents then Some(parents[id]) else None
  }

  /** `steps` parents up. */
  function Up(parents: map<nat, nat>, id: nat, steps: nat): Option<nat> {
    if steps == 0 then Some(id)
    else
      var below := Up(parents, id, steps - 1);
      if below.None? then None else ParentOf(parents, below.value)
  }

  /** Some way up the process meets itself. */
  ghost predicate OnCycle(parents: map<nat, nat>, id: nat) {
    exists k: nat :: k > 0 && Up(parents, id, k) == Some(id)
  }

  ghost predicate Ancestor(parents: map<nat, nat>, above: nat, id: nat) {
    exists k: nat :: k > 0 && Up(parents, id, k) == Some(above)
  }

  predicate DistinctUpTo(parents: map<nat, nat>, id: nat, n: nat) {
    forall i, j :: 0 <= i < j < n ==> Up(parents, id, i) != Up(parents, id, j)
  }

  /** Some earlier step stood on the same process. */
  predicate Revisits(parents: map<nat, nat>, id: nat, n: nat) {
    exists i :: 0 <= i < n && Up(parents, id, i) == Up(parents, id, n)
  }

  /** A walk up of `n` steps: as far as it goes without stepping from a process twice. */
  predicate IsWalk(parents: map<nat, nat>, id: nat, n: nat) {
    && Up(parents, id, n).Some?
    && DistinctUpTo(parents, id, n)
    && (Revisits(parents, id, n) || Up(parents, id, n + 1).None?)
  }

  // ---------------------------------------------------------------- the walk

  /** The steps taken from `id` with `seen` already visited. */
  function DepthFrom(parents: map<nat, nat>, id: nat, seen: set<nat>): nat
    decreases parents.Keys - seen
  {
    if id in seen || ParentOf(parents, id).None? then 0
    else
      assert id in parents.Keys - seen && id !in parents.Keys - (seen + {id});
      1 + DepthFrom(parents, parents[id], seen + {id})
  }

  function Depth(parents: map<nat, nat>, id: nat): nat {
    DepthFrom(parents, id, {})
  }

  method WalkUp(parents: map<nat, nat>, id: nat) returns (depth: nat)
    ensures depth == Depth(parents, id)
  {
    depth := 0;
    var current := id;
    var seen: set<nat> := {};
    while current !in seen
      invariant depth + DepthFrom(parents, current, seen) == Depth(parents, id)
      decreases parents.Keys - seen, current !in seen
    {
      var before := seen;
      seen := seen + {current};
      if current !in parents {
        break;
      }
      var parent := parents[current];
      if parent !in parents {
        break;
      }
      assert current in parents.Keys - before && current !in parents.Keys - seen;
      depth := depth + 1;
      current := parent;
    }
  }

  // ---------------------------------------------------------------- the order

  /** Deeper first, then by id. */
  function Planned(depth: nat, id: nat): Item<nat> {
    Item(Key(-(depth as int), id, 0), id)
  }

  function Plan(parents: map<nat, nat>, processes: seq<Process>): (r: seq<Item<nat>>)
    ensures |r| == |processes|
  {
    if processes == [] then []
    else
      var n := |processes| - 1;
      Plan(parents, processes[..n])
        + [Planned(Depth(parents, processes[n].id), processes[n].id)]
  }

  function ValuesOf(items: seq<Item<nat>>): (r: seq<nat>)
    ensures |r| == |items|
  {
    seq(|items|, i requires 0 <= i < |items| => items[i].value)
  }

  function ShutdownOrder(processes: seq<Process>): seq<nat> {
    ValuesOf(Sort(Plan(Parents(processes), processes)))
  }

  /** `shutdown_process_ids` */
  method ShutdownProcessIds(processes: seq<Process>) returns (ids: seq<nat>)
    ensures ids == ShutdownOrder(processes)
  {
    var parents: map<nat, nat> := map[];
    for i := 0 to |processes|
      invariant parents == Parents(processes[..i])
    {
      parents := parents[processes[i].id := processes[i].parent];
      assert processes[..i + 1][..i] == processes[..i];
    }
    assert processes[..|processes|] == processes;
    var planned: seq<Item<nat>> := [];
    for i := 0 to |processes|
      invariant planned == Plan(parents, processes[..i])
    {
      var depth := WalkUp(parents, processes[i].id);
      planned := planned + [Planned(depth, processes[i].id)];
      assert processes[..i + 1][..i] == processes[..i];
    }
    ids := ValuesOf(Sort(planned));
  }

  // ---------------------------------------------------------------- what the depth means

  /** One parent up, then `steps` more. */
  lemma {:induction false} UpFromParent(parents: map<nat, nat>, id: nat, steps: nat)
    requires ParentOf(parents, id).Some?
    ensures Up(parents, id, steps + 1) == Up(parents, parents[id], steps)
  {
    if steps == 0 {
      assert Up(parents, id, 1) == ParentOf(parents, id) by { assert Up(parents, id, 0) == Some(id); }
    } else {
      UpFromParent(parents, id, steps - 1);
    }
  }

  lemma {:induction false} UpGoesOn(parents: map<nat, nat>, id: nat, steps: nat, more: nat)
    ensures Up(parents, id, steps).None? ==> Up(parents, id, steps + more).None?
    ensures Up(parents, id, steps).Some? ==>
              Up(parents, id, steps + more) == Up(parents, Up(parents, id, steps).value, more)
  {
    if more > 0 {
      UpGoesOn(parents, id, steps, more - 1);
      assert steps + more - 1 == steps + (more - 1);
    }
  }

  ghost predicate MetBy(parents: map<nat, nat>, id: nat, n: nat, x: nat) {
    exists i :: 0 <= i < n && Up(parents, id, i) == Some(x)
  }

  /** The processes met in the first `n` steps. */
  ghost predicate Met(parents: map<nat, nat>, id: nat, n: nat, seen: set<nat>) {
    forall x :: x in seen <==> MetBy(parents, id, n, x)
  }

  lemma {:induction false} WalkFrom(parents: map<nat, nat>, id: nat, n: nat, current: nat, seen: set<nat>)
    requires Up(parents, id, n) == Some(current) && DistinctUpTo(parents, id, n) && Met(parents, id, n, seen)
    ensures IsWalk(parents, id, n + DepthFrom(parents, current, seen))
    decreases parents.Keys - seen
  {
    var steps := DepthFrom(parents, current, seen);
    if current in seen || ParentOf(parents, current).None? {
      assert steps == 0 && n + steps == n;
      WalkEnds(parents, id, n, current, seen);
    } else {
      assert current in parents.Keys - seen && current !in parents.Keys - (seen + {current});
      MeetsNew(parents, id, n, seen);
      assert Up(parents, id, n + 1) == ParentOf(parents, current) == Some(parents[current]);
      var rest := DepthFrom(parents, parents[current], seen + {current});
      assert steps == 1 + rest && n + steps == n + 1 + rest;
      WalkFrom(parents, id, n + 1, parents[current], seen + {current});
    }
  }

  lemma WalkEnds(parents: map<nat, nat>, id: nat, n: nat, current: nat, seen: set<nat>)
    requires Up(parents, id, n) == Some(current) && DistinctUpTo(parents, id, n) && Met(parents, id, n, seen)
    requires current in seen || ParentOf(parents, current).None?
    ensures IsWalk(parents, id, n)
  {
    assert current in seen ==> Revisits(parents, id, n);
    assert Up(parents, id, n + 1) == ParentOf(parents, current);
  }

  lemma MetOneMore(parents: map<nat, nat>, id: nat, n: nat, x: nat)
    ensures MetBy(parents, id, n + 1, x) <==> MetBy(parents, id, n, x) || Up(parents, id, n) == Some(x)
  {
    if MetBy(parents, id, n, x) {
      var i :| 0 <= i < n && Up(parents, id, i) == Some(x);
      assert i < n + 1;
    }
  }

  lemma MeetsNew(parents: map<nat, nat>, id: nat, n: nat, seen: set<nat>)
    requires Up(parents, id, n).Some? && DistinctUpTo(parents, id, n) && Met(parents, id, n, seen)
    requires Up(parents, id, n).value !in seen
    ensures DistinctUpTo(parents, id, n + 1) && Met(parents, id, n + 1, seen + {Up(parents, id, n).value})
  {
    var x := Up(parents, id, n).value;
    forall i: nat | i < n ensures Up(parents, id, i) != Some(x) {
      assert Up(parents, id, i) == Some(x) ==> MetBy(parents, id, n, x);
    }
    forall y ensures y in seen + {x} <==> MetBy(parents, id, n + 1, y) {
      MetOneMore(parents, id, n, y);
    }
  }

  /** There is one walk from every process, and the depth is its length. */
  lemma DepthIsTheWalk(parents: map<nat, nat>, id: nat, n: nat)
    ensures IsWalk(parents, id, n) <==> n == Depth(parents, id)
  {
    WalkFrom(parents, id, 0, id, {});
    var d := Depth(parents, id);
    if IsWalk(parents, id, n) && n != d {
      if n < d {
        OneWalk(parents, id, n, d);
      } else {
        OneWalk(parents, id, d, n);
      }
    }
  }

  lemma OneWalk(parents: map<nat, nat>, id: nat, m: nat, n: nat)
    requires m < n && IsWalk(parents, id, n)
    ensures !IsWalk(parents, id, m)
  {
    UpGoesOn(parents, id, m + 1, n - m - 1);
    assert Up(parents, id, m + 1).Some? && !Revisits(parents, id, m);
  }

  /** Off every cycle a process is one deeper than its parent; on a cycle it is exactly as deep. */
  lemma DeeperThanParent(parents: map<nat, nat>, id: nat)
    requires ParentOf(parents, id).Some?
    ensures Depth(parents, id) == Depth(parents, parents[id]) + if OnCycle(parents, id) then 0 else 1
  {
    var parent := parents[id];
    if OnCycle(parents, id) {
      var c := Period(parents, id);
      CycleIsAWalk(parents, id, c);
      NextOnCycle(parents, id, c);
      CycleIsAWalk(parents, parent, c);
      DepthIsTheWalk(parents, id, c);
      DepthIsTheWalk(parents, parent, c);
    } else {
      var m := Depth(parents, parent);
      DepthIsTheWalk(parents, parent, m);
      WalkFromBelow(parents, id, m);
      DepthIsTheWalk(parents, id, m + 1);
    }
  }

  lemma WalkFromBelow(parents: map<nat, nat>, id: nat, m: nat)
    requires ParentOf(parents, id).Some? && !OnCycle(parents, id) && IsWalk(parents, parents[id], m)
    ensures IsWalk(parents, id, m + 1)
  {
    forall k: nat ensures Up(parents, id, k + 1) == Up(parents, parents[id], k) {
      UpFromParent(parents, id, k);
    }
    forall i, j | 0 <= i < j < m + 1 ensures Up(parents, id, i) != Up(parents, id, j) {
      assert Up(parents, id, j) == Up(parents, parents[id], j - 1);
      if i > 0 {
        assert Up(parents, id, i) == Up(parents, parents[id], i - 1);
      }
    }
    if Revisits(parents, parents[id], m) {
      var i :| 0 <= i < m && Up(parents, parents[id], i) == Up(parents, parents[id], m);
      assert Up(parents, id, i + 1) == Up(parents, id, m + 1);
    }
  }

  /** The least number of steps after which a process on a cycle meets itself. */
  predicate IsPeriod(parents: map<nat, nat>, id: nat, c: nat) {
    c > 0 && Up(parents, id, c) == Some(id) && forall k :: 0 < k < c ==> Up(parents, id, k) != Some(id)
  }

  lemma Period(parents: map<nat, nat>, id: nat) returns (c: nat)
    requires OnCycle(parents, id)
    ensures IsPeriod(parents, id, c)
  {
    var k: nat :| k > 0 && Up(parents, id, k) == Some(id);
    c := 1;
    while Up(parents, id, c) != Some(id)
      invariant 0 < c <= k && forall j :: 0 < j < c ==> Up(parents, id, j) != Some(id)
      decreases k - c
    {
      c := c + 1;
    }
  }

  lemma CycleIsAWalk(parents: map<nat, nat>, id: nat, c: nat)
    requires IsPeriod(parents, id, c)
    ensures IsWalk(parents, id, c)
  {
    assert Up(parents, id, 0) == Some(id);
    forall i, j | 0 <= i < j < c ensures Up(parents, id, i) != Up(parents, id, j) {
      if Up(parents, id, i) == Up(parents, id, j) {
        UpGoesOn(parents, id, i, c - j);
        UpGoesOn(parents, id, j, c - j);
        assert false;
      }
    }
  }

  lemma NextOnCycle(parents: map<nat, nat>, id: nat, c: nat)
    requires IsPeriod(parents, id, c) && ParentOf(parents, id).Some?
    ensures IsPeriod(parents, parents[id], c)
  {
    var parent := parents[id];
    UpFromParent(parents, id, c);
    UpFromParent(parents, id, c - 1);
    assert Up(parents, parent, c - 1) == Some(id);
    forall k | 0 < k < c ensures Up(parents, parent, k) != Some(parent) {
      var rest: nat := c - 1 - k;
      UpGoesOn(parents, parent, k, rest);
      UpFromParent(parents, id, rest);
    }
  }

  // ---------------------------------------------------------------- what the order means

  predicate DistinctIds(processes: seq<Process>) {
    forall i, j :: 0 <= i < j < |processes| ==> processes[i].id != processes[j].id
  }

  function Ids(processes: seq<Process>): (r: seq<nat>)
    ensures |r| == |processes|
  {
    seq(|processes|, i requires 0 <= i < |processes| => processes[i].id)
  }

  lemma {:induction false} PlanIs(parents: map<nat, nat>, processes: seq<Process>, i: nat)
    requires i < |processes|
    ensures Plan(parents, processes)[i] == Planned(Depth(parents, processes[i].id), processes[i].id)
  {
    if i < |processes| - 1 {
      PlanIs(parents, processes[..|processes| - 1], i);
    }
  }

  /** Every process is asked to close once. */
  lemma EveryProcessOnce(processes: seq<Process>)
    ensures multiset(ShutdownOrder(processes)) == multiset(Ids(processes))
  {
    var plan := Plan(Parents(processes), processes);
    SameValues(Sort(plan), plan);
    forall i | 0 <= i < |processes| ensures ValuesOf(plan)[i] == Ids(processes)[i] {
      PlanIs(Parents(processes), processes, i);
    }
    assert ValuesOf(plan) == Ids(processes);
  }

  lemma {:induction false} SameValues(a: seq<Item<nat>>, b: seq<Item<nat>>)
    requires multiset(a) == multiset(b)
    ensures multiset(ValuesOf(a)) == multiset(ValuesOf(b))
    decreases |a|
  {
    assert |multiset(a)| == |a| && |multiset(b)| == |b|;
    if a != [] {
      var n := |a| - 1;
      assert a[n] in multiset(b);
      var k :| 0 <= k < |b| && b[k] == a[n];
      OneLess(a, n);
      OneLess(b, k);
      SameValues(a[..n] + a[n + 1..], b[..k] + b[k + 1..]);
    }
  }

  lemma OneLess(b: seq<Item<nat>>, k: nat)
    requires k < |b|
    ensures var rest := b[..k] + b[k + 1..];
            && multiset(rest) == multiset(b) - multiset{b[k]}
            && multiset(ValuesOf(b)) == multiset(ValuesOf(rest)) + multiset{b[k].value}
  {
    var before, after := b[..k], b[k + 1..];
    assert b == before + [b[k]] + after;
    assert ValuesOf(before + after) == ValuesOf(before) + ValuesOf(after);
    assert ValuesOf(b) == ValuesOf(before) + [b[k].value] + ValuesOf(after);
  }

  /** Where two processes stand is decided by depth, then by id. */
  lemma OrderedByDepth(processes: seq<Process>, i: nat, j: nat)
    requires DistinctIds(processes) && i < |processes| && j < |processes| && i != j
    ensures |ShutdownOrder(processes)| == |processes|
    ensures var ids := ShutdownOrder(processes);
            var parents := Parents(processes);
            && ids[i] != ids[j]
            && (i < j <==> Depth(parents, ids[i]) > Depth(parents, ids[j])
                           || (Depth(parents, ids[i]) == Depth(parents, ids[j]) && ids[i] < ids[j]))
  {
    var parents := Parents(processes);
    var plan := Plan(parents, processes);
    var sorted := Sort(plan);
    forall k, l | 0 <= k < l < |plan| ensures plan[k].key != plan[l].key {
      PlanIs(parents, processes, k);
      PlanIs(parents, processes, l);
    }
    SortIncreases(plan);
    PlannedItem(parents, processes, sorted, i);
    PlannedItem(parents, processes, sorted, j);
  }

  lemma PlannedItem(parents: map<nat, nat>, processes: seq<Process>, sorted: seq<Item<nat>>, i: nat)
    requires multiset(sorted) == multiset(Plan(parents, processes)) && i < |sorted|
    ensures sorted[i] == Planned(Depth(parents, sorted[i].value), sorted[i].value)
  {
    var plan := Plan(parents, processes);
    assert sorted[i] in multiset(plan);
    var k :| 0 <= k < |plan| && plan[k] == sorted[i];
    PlanIs(parents, processes, k);
  }

  /** A process is asked to close before its parent if and only if it is on no cycle or has the smaller id. */
  lemma BeforeTheParent(processes: seq<Process>, i: nat, j: nat)
    requires DistinctIds(processes) && i < |processes| && j < |processes| && i != j
    requires |ShutdownOrder(processes)| == |processes|
    requires ParentOf(Parents(processes), ShutdownOrder(processes)[i]) == Some(ShutdownOrder(processes)[j])
    ensures var ids := ShutdownOrder(processes);
            i < j <==> !OnCycle(Parents(processes), ids[i]) || ids[i] < ids[j]
  {
    OrderedByDepth(processes, i, j);
    DeeperThanParent(Parents(processes), ShutdownOrder(processes)[i]);
  }

  lemma {:induction false} NoDeeperAbove(parents: map<nat, nat>, id: nat, steps: nat)
    requires Up(parents, id, steps).Some?
    ensures Depth(parents, Up(parents, id, steps).value) <= Depth(parents, id)
  {
    if steps > 0 {
      NoDeeperAbove(parents, id, steps - 1);
      DeeperThanParent(parents, Up(parents, id, steps - 1).value);
    }
  }

  /** A process on no cycle is asked to close before every process above it. */
  lemma BeforeEveryAncestor(processes: seq<Process>, i: nat, j: nat)
    requires DistinctIds(processes) && i < |processes| && j < |processes|
    requires |ShutdownOrder(processes)| == |processes|
    requires !OnCycle(Parents(processes), ShutdownOrder(processes)[i])
    requires Ancestor(Parents(processes), ShutdownOrder(processes)[j], ShutdownOrder(processes)[i])
    ensures i < j
  {
    var parents := Parents(processes);
    var ids := ShutdownOrder(processes);
    var k: nat :| k > 0 && Up(parents, ids[i], k) == Some(ids[j]);
    UpGoesOn(parents, ids[i], 1, k - 1);
    assert Up(parents, ids[i], 0) == Some(ids[i]);
    assert ParentOf(parents, ids[i]).Some?;
    UpFromParent(parents, ids[i], k - 1);
    NoDeeperAbove(parents, parents[ids[i]], k - 1);
    DeeperThanParent(parents, ids[i]);
    if i != j {
      OrderedByDepth(processes, i, j);
    }
  }
}
