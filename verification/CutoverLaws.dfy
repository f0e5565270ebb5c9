/** What the cutover keeps over any number of runs, with a crash or a failure at any step. */
module CutoverLaws {
  import opened Wrappers
  import opened Cutover

  // ---------------------------------------------------------------- reading a trace

  /** The stage last written to the journal. */
  function LastSaved(trace: seq<Event>): Option<Stage> {
    if trace == [] then None
    else
      var last := trace[|trace| - 1];
      if last.Saved? then Some(last.stage) else LastSaved(trace[..|trace| - 1])
  }

  /** The content of the trees when the last complete snapshot was taken. */
  function LastTaken(trace: seq<Event>): map<Path, Tree> {
    if trace == [] then map[]
    else
      var last := trace[|trace| - 1];
      if last.Took? then last.content else LastTaken(trace[..|trace| - 1])
  }

  /** The six commands of a cutover, in order. */
  const FORWARD: seq<Command> := [ShadowStart, ShadowHealth, PreCutoverSmoke, OldStop, NewStart, PostCutoverSmoke]

  /** How many of them have succeeded, in order, since the last snapshot, with no rollback in between. */
  function Progress(trace: seq<Event>): (p: nat)
    ensures p <= 6
  {
    if trace == [] then 0
    else
      var last, before := trace[|trace| - 1], Progress(trace[..|trace| - 1]);
      match last
      case Ran(c, ok, _) => if ok && before < 6 && c == FORWARD[before] then before + 1 else 0
      case Took(_) => 0
      case Restored => 0
      case Saved(s) => if s == RollbackBegin then 0 else before
  }

  /** The legacy stack runs on its own trees, or it has been disturbed and so much of the repair is done. */
  datatype Legacy = Running | Disturbed(repaired: nat)

  function LegacyAfter(trace: seq<Event>): Legacy {
    if trace == [] then Running
    else
      var last, before := trace[|trace| - 1], LegacyAfter(trace[..|trace| - 1]);
      match last
      case Ran(c, ok, _) =>
        if ok && c == NewStop then Disturbed(1)
        else if ok && c == OldStart && before == Disturbed(2) then Disturbed(3)
        else if ok && c == RollbackHealth && before == Disturbed(3) then Running
        else Disturbed(0)
      case Restored => if before == Disturbed(1) then Disturbed(2) else before
      case _ => before
  }

  /**
   * How many of the four repairs have succeeded, in order and with nothing else in between, since a rollback began;
   * -1 if that is not how the trace ends.
   */
  function Repair(trace: seq<Event>): (p: int)
    ensures -1 <= p <= 4
  {
    if trace == [] then -1
    else
      var last, before := trace[|trace| - 1], Repair(trace[..|trace| - 1]);
      match last
      case Saved(s) => if s == RollbackBegin then 0 else -1
      case Ran(c, ok, _) =>
        if ok && before == 0 && c == NewStop then 1
        else if ok && before == 2 && c == OldStart then 3
        else if ok && before == 3 && c == RollbackHealth then 4
        else -1
      case Restored => if before == 1 then 2 else -1
      case Took(_) => -1
  }

  /** The one stage under which a command may run. */
  function StageFor(command: Command): Stage {
    match command
    case ShadowStart => SnapshotComplete
    case ShadowHealth => SnapshotComplete
    case PreCutoverSmoke => ShadowReady
    case OldStop => CutoverBegin
    case NewStart => CutoverBegin
    case PostCutoverSmoke => CutoverBegin
    case NewStop => RollbackBegin
    case OldStart => RollbackBegin
    case RollbackHealth => RollbackBegin
  }

  /** These trees have, for every entry of the manifest, the content `taken` has. */
  predicate SameTrees(manifest: Manifest, sources: map<Path, Tree>, taken: map<Path, Tree>) {
    forall s :: s in manifest ==> s.source in sources && s.source in taken && sources[s.source] == taken[s.source]
  }

  /** Which stage may be written after which. */
  predicate MayFollow(before: Option<Stage>, after: Stage) {
    match after
    case SnapshotComplete => before in {None, Some(RollbackHealthy)}
    case ShadowReady => before == Some(SnapshotComplete)
    case PreCutoverSmokePassed => before == Some(ShadowReady)
    case CutoverBegin => before == Some(PreCutoverSmokePassed)
    case PostCutoverSmokePassed => before == Some(CutoverBegin)
    case RollbackBegin => before.Some? && RequiresRecovery(before.value)
    case RollbackHealthy => before == Some(RollbackBegin)
    case Committed => before == Some(PostCutoverSmokePassed)
  }

  /** The last thing that happened is a command that did not succeed. */
  predicate JustFailed(trace: seq<Event>) {
    trace != [] && trace[|trace| - 1].Ran? && !trace[|trace| - 1].ok
  }

  /** Whether an event is allowed after what happened before it. */
  predicate Allowed(manifest: Manifest, before: seq<Event>, e: Event) {
    && LastSaved(before) != Some(Committed)
    && (JustFailed(before) ==> e == Saved(RollbackBegin))
    && match e
       case Saved(s) =>
         && MayFollow(LastSaved(before), s)
         && (s == SnapshotComplete ==> before != [] && before[|before| - 1].Took?)
         && (s == RollbackHealthy ==> Repair(before) == 4)
         && (s == Committed ==> Progress(before) == 6)
       case Ran(c, _, sources) =>
         && LastSaved(before) == Some(StageFor(c))
         && (c == OldStart ==> SameTrees(manifest, sources, LastTaken(before)))
       case Took(_) => LastSaved(before) in {None, Some(RollbackHealthy)}
       case Restored => LastSaved(before) == Some(RollbackBegin)
  }

  predicate Disciplined(manifest: Manifest, trace: seq<Event>) {
    trace == [] ||
    (Disciplined(manifest, trace[..|trace| - 1]) && Allowed(manifest, trace[..|trace| - 1], trace[|trace| - 1]))
  }

  // ---------------------------------------------------------------- the invariant

  function StageOf(w: World): Option<Stage> {
    if w.journal.Some? then Some(w.journal.value.stage) else None
  }

  predicate Recoverable(w: World) {
    w.journal.Some? && RequiresRecovery(w.journal.value.stage)
  }

  /** The snapshot is the complete copy of the trees as they were when it was taken, and holds nothing else. */
  predicate SnapshotWhole(manifest: Manifest, w: World) {
    var taken := LastTaken(w.trace);
    && (forall s :: s in manifest ==>
          s.backup in w.snapshot && s.source in taken && w.snapshot[s.backup] == taken[s.source])
    && NothingElseSaved(manifest, w.snapshot)
  }

  predicate NothingElseSaved(manifest: Manifest, snapshot: map<Path, Tree>) {
    forall b :: b in snapshot ==> IsBackup(manifest, b)
  }

  predicate IsBackup(manifest: Manifest, b: Path) {
    exists s :: s in manifest && s.backup == b
  }

  /** Neither tree lies in the other. */
  predicate Apart(a: Path, b: Path) {
    !(a <= b) && !(b <= a)
  }

  predicate Distinct(manifest: Manifest) {
    forall i, j :: 0 <= i < j < |manifest| ==>
                     Apart(manifest[i].source, manifest[j].source) && Apart(manifest[i].backup, manifest[j].backup)
  }

  predicate Inv(manifest: Manifest, w: World) {
    && Disciplined(manifest, w.trace)
    && StageOf(w) == LastSaved(w.trace)
    && (Recoverable(w) ==> SnapshotWhole(manifest, w))
    && (StageOf(w) in {None, Some(RollbackHealthy)} ==> LegacyAfter(w.trace) == Running)
  }

  predicate Between(w: World) {
    StageOf(w) in {None, Some(RollbackHealthy)}
  }

  // ---------------------------------------------------------------- one event more

  lemma Snoc(manifest: Manifest, trace: seq<Event>, e: Event)
    ensures (trace + [e])[..|trace + [e]| - 1] == trace && (trace + [e])[|trace + [e]| - 1] == e
    ensures Disciplined(manifest, trace + [e]) <==> Disciplined(manifest, trace) && Allowed(manifest, trace, e)
  {
    assert (trace + [e])[..|trace|] == trace;
  }

  /** A journal write keeps the invariant if the stage may be written now. */
  lemma SaveKeeps(o: Oracle, manifest: Manifest, w: World, j: Journal)
    requires Inv(manifest, w) && Allowed(manifest, w.trace, Saved(j.stage))
    requires RequiresRecovery(j.stage) ==> SnapshotWhole(manifest, w)
    ensures var r := Save(o, w, j);
            && Inv(manifest, r.world)
            && (r.status == Fine ==> r.world.journal == Some(j) && r.world.trace == w.trace + [Saved(j.stage)])
            && r.world.sources == w.sources && r.world.snapshot == w.snapshot
  {
    Snoc(manifest, w.trace, Saved(j.stage));
    RepairedIsRunning(w.trace);
  }

  /** The repairs are what brings the legacy stack back. */
  lemma {:induction false} RepairedIsRunning(trace: seq<Event>)
    ensures 1 <= Repair(trace) <= 3 ==> LegacyAfter(trace) == Disturbed(Repair(trace))
    ensures Repair(trace) == 4 ==> LegacyAfter(trace) == Running
  {
    if trace != [] {
      RepairedIsRunning(trace[..|trace| - 1]);
    }
  }

  /** A command run under its own stage keeps the invariant. */
  lemma CommandKeeps(o: Oracle, manifest: Manifest, w: World, c: Command)
    requires Inv(manifest, w) && StageOf(w) == Some(StageFor(c)) && !JustFailed(w.trace)
    requires c == OldStart ==> SameTrees(manifest, w.sources, LastTaken(w.trace))
    ensures var r := RunCommand(o, w, c);
            && Inv(manifest, r.world) && r.world.journal == w.journal
            && r.world.trace == w.trace + [Ran(c, r.status == Fine, w.sources)]
  {
    Snoc(manifest, w.trace, Ran(c, o(w.clock).fate == Succeeds, w.sources));
  }

  // ---------------------------------------------------------------- the snapshot

  lemma {:induction false} BackUpAllCopies(o: Oracle, w: World, specs: Manifest)
    requires Distinct(specs)
    ensures var r := BackUpAll(o, w, specs);
            && r.world.(clock := w.clock, snapshot := w.snapshot) == w
            && (r.status == Fine ==>
                  && (forall s :: s in specs ==>
                            && s.source in w.sources && s.backup in r.world.snapshot
                            && r.world.snapshot[s.backup] == w.sources[s.source])
                  && (forall b :: b in w.snapshot && (forall s :: s in specs ==> s.backup != b) ==>
                            b in r.world.snapshot && r.world.snapshot[b] == w.snapshot[b]))
    decreases |specs|
  {
    if specs != [] {
      var first := BackUp(o, w, specs[0]);
      if first.status == Fine {
        DistinctTail(specs);
        BackUpAllCopies(o, first.world, specs[1..]);
        assert forall s :: s in specs <==> s == specs[0] || s in specs[1..];
      }
    }
  }

  /** Backing up adds nothing but the backups. */
  lemma {:induction false} BackUpAllAdds(o: Oracle, w: World, specs: Manifest, manifest: Manifest)
    requires (forall s :: s in specs ==> s in manifest) && NothingElseSaved(manifest, w.snapshot)
    requires BackUpAll(o, w, specs).status == Fine
    ensures NothingElseSaved(manifest, BackUpAll(o, w, specs).world.snapshot)
    decreases |specs|
  {
    if specs != [] {
      assert specs[0] in specs;
      BackUpAllAdds(o, BackUp(o, w, specs[0]).world, specs[1..], manifest);
    }
  }

  lemma DistinctTail(specs: Manifest)
    requires Distinct(specs) && specs != []
    ensures Distinct(specs[1..])
    ensures forall s :: s in specs[1..] ==> s.source != specs[0].source && s.backup != specs[0].backup
  {
  }

  /** A command leaves the stage it ran under, and that calls for recovery. */
  lemma NotJustFailed(manifest: Manifest, w: World)
    requires Inv(manifest, w) && Between(w)
    ensures !JustFailed(w.trace)
  {
  }

  /** While nothing needs recovery, taking a snapshot keeps the invariant, and a finished one is whole. */
  lemma CreateKeeps(o: Oracle, manifest: Manifest, w: World)
    requires Inv(manifest, w) && Between(w) && Distinct(manifest)
    ensures var r := CreateSnapshot(o, w, manifest);
            && Inv(manifest, r.world) && r.world.journal == w.journal && r.world.sources == w.sources
            && (r.status == Fine ==> SnapshotWhole(manifest, r.world) && r.world.trace == w.trace + [Took(w.sources)])
  {
    var cleared := ClearSnapshot(o, w);
    if cleared.status == Fine {
      NotJustFailed(manifest, w);
      BackUpAllCopies(o, cleared.world, manifest);
      if BackUpAll(o, cleared.world, manifest).status == Fine {
        BackUpAllAdds(o, cleared.world, manifest, manifest);
      }
      Snoc(manifest, w.trace, Took(w.sources));
    }
  }

  /** Restoring never touches the snapshot, and a finished restore brings every tree back. */
  lemma {:induction false} RestoreAllCopies(o: Oracle, w: World, specs: Manifest)
    requires Distinct(specs)
    ensures var r := RestoreAll(o, w, specs);
            && r.world.(clock := w.clock, sources := w.sources) == w
            && (forall p :: (forall s :: s in specs ==> s.source != p) ==>
                      (p in r.world.sources <==> p in w.sources)
                      && (p in w.sources ==> r.world.sources[p] == w.sources[p]))
            && (r.status == Fine ==>
                  forall s :: s in specs ==>
                            && s.backup in w.snapshot && s.source in r.world.sources
                            && r.world.sources[s.source] == w.snapshot[s.backup])
    decreases |specs|
  {
    if specs != [] {
      var first := RestoreOne(o, w, specs[0]);
      RestoreOneCopies(o, w, specs[0]);
      assert forall s :: s in specs <==> s == specs[0] || s in specs[1..];
      if first.status == Fine {
        DistinctTail(specs);
        RestoreAllCopies(o, first.world, specs[1..]);
      }
    }
  }

  lemma RestoreOneCopies(o: Oracle, w: World, s: SnapshotSpec)
    ensures var r := RestoreOne(o, w, s);
            && r.world.(clock := w.clock, sources := w.sources) == w
            && (forall p :: p != s.source ==>
                      (p in r.world.sources <==> p in w.sources)
                      && (p in w.sources ==> r.world.sources[p] == w.sources[p]))
            && (r.status == Fine ==>
                  && s.backup in w.snapshot && s.source in r.world.sources
                  && r.world.sources[s.source] == w.snapshot[s.backup])
  {
  }

  /**
   * Restore survives interruption: however an earlier restore from the same snapshot ended, a later one that
   * finishes leaves every saved tree as the snapshot has it and no other tree touched.
   */
  lemma RestoreAfterInterruption(o: Oracle, w: World, manifest: Manifest, p: Path)
    requires Distinct(manifest)
    ensures var first := RestoreSnapshot(o, w, manifest);
            var again := RestoreSnapshot(o, first.world, manifest);
            && again.world.snapshot == w.snapshot
            && (again.status == Fine ==>
                  && (forall s :: s in manifest ==>
                            && s.backup in w.snapshot && s.source in again.world.sources
                            && again.world.sources[s.source] == w.snapshot[s.backup])
                  && ((forall s :: s in manifest ==> s.source != p) ==>
                        (p in again.world.sources <==> p in w.sources)
                        && (p in w.sources ==> again.world.sources[p] == w.sources[p])))
  {
    RestoreAllCopies(o, w, manifest);
    RestoreAllCopies(o, RestoreSnapshot(o, w, manifest).world, manifest);
  }

  // ---------------------------------------------------------------- rolling back

  /** The last thing that happened is the end of a rollback. */
  predicate EndsHealthy(trace: seq<Event>) {
    trace != [] && trace[|trace| - 1] == Saved(RollbackHealthy)
  }

  /** Rolling back from any stage that needs it keeps the invariant and, if it finishes, ends it. */
  lemma RollbackKeeps(o: Oracle, manifest: Manifest, w: World, n: nat, code: string)
    requires Inv(manifest, w) && Recoverable(w) && Distinct(manifest)
    ensures var r := Rollback(o, w, manifest, n, code);
            && Inv(manifest, r.world)
            && (r.status == Fine ==> StageOf(r.world) == Some(RollbackHealthy) && EndsHealthy(r.world.trace))
  {
    SaveKeeps(o, manifest, w, Journal(RollbackBegin, n, Some(code)));
    var begun := Save(o, w, Journal(RollbackBegin, n, Some(code)));
    if begun.status == Fine {
      Snoc(manifest, w.trace, Saved(RollbackBegin));
      CommandKeeps(o, manifest, begun.world, NewStop);
      var stopped := RunCommand(o, begun.world, NewStop);
      if stopped.status == Fine {
        Snoc(manifest, begun.world.trace, Ran(NewStop, true, begun.world.sources));
        RepairKeeps(o, manifest, stopped.world, Journal(RollbackHealthy, n, Some(code)));
      }
    }
  }

  /** The rest of a rollback, once the new stack is stopped. */
  lemma RepairKeeps(o: Oracle, manifest: Manifest, w: World, j: Journal)
    requires Inv(manifest, w) && StageOf(w) == Some(RollbackBegin) && Distinct(manifest)
    requires Repair(w.trace) == 1 && j.stage == RollbackHealthy
    ensures var restored := RestoreSnapshot(o, w, manifest);
            && Inv(manifest, restored.world)
            && (restored.status == Fine ==>
                var started := RunCommand(o, restored.world, OldStart);
                && Inv(manifest, started.world)
                && (started.status == Fine ==>
                    var healthy := RunCommand(o, started.world, RollbackHealth);
                    && Inv(manifest, healthy.world)
                    && (healthy.status == Fine ==>
                        var done := Save(o, healthy.world, j);
                        Inv(manifest, done.world)
                        && (done.status == Fine ==> done.world.journal == Some(j) && EndsHealthy(done.world.trace)))))
  {
    RestoreKeeps(o, manifest, w);
    var restored := RestoreSnapshot(o, w, manifest);
    if restored.status == Fine {
      CommandKeeps(o, manifest, restored.world, OldStart);
      var started := RunCommand(o, restored.world, OldStart);
      if started.status == Fine {
        Snoc(manifest, restored.world.trace, Ran(OldStart, true, restored.world.sources));
        HealthKeeps(o, manifest, started.world, j);
      }
    }
  }

  lemma HealthKeeps(o: Oracle, manifest: Manifest, w: World, j: Journal)
    requires Inv(manifest, w) && StageOf(w) == Some(RollbackBegin) && j.stage == RollbackHealthy
    requires Repair(w.trace) == 3
    ensures var healthy := RunCommand(o, w, RollbackHealth);
            && Inv(manifest, healthy.world)
            && (healthy.status == Fine ==>
                var done := Save(o, healthy.world, j);
                Inv(manifest, done.world)
                && (done.status == Fine ==> done.world.journal == Some(j) && EndsHealthy(done.world.trace)))
  {
    CommandKeeps(o, manifest, w, RollbackHealth);
    var healthy := RunCommand(o, w, RollbackHealth);
    if healthy.status == Fine {
      Snoc(manifest, w.trace, Ran(RollbackHealth, true, w.sources));
      SaveKeeps(o, manifest, healthy.world, j);
    }
  }

  lemma RestoreKeeps(o: Oracle, manifest: Manifest, w: World)
    requires Inv(manifest, w) && StageOf(w) == Some(RollbackBegin) && Distinct(manifest)
    requires Repair(w.trace) == 1
    ensures var r := RestoreSnapshot(o, w, manifest);
            && Inv(manifest, r.world) && r.world.journal == w.journal
            && (r.status == Fine ==>
                  && SameTrees(manifest, r.world.sources, LastTaken(r.world.trace))
                  && Repair(r.world.trace) == 2)
  {
    RestoreAllCopies(o, w, manifest);
    Snoc(manifest, w.trace, Restored);
  }

  // ---------------------------------------------------------------- going forward

  /** Forward commands under one stage keep the invariant; when all succeed the cutover is that much further. */
  lemma {:induction false} CommandsKeep(o: Oracle, manifest: Manifest, w: World, commands: seq<Command>, from: nat)
    requires Inv(manifest, w) && Progress(w.trace) == from && from + |commands| <= 6 && !JustFailed(w.trace)
    requires forall i :: 0 <= i < |commands| ==>
                           commands[i] == FORWARD[from + i] && StageOf(w) == Some(StageFor(commands[i]))
    ensures var r := RunCommands(o, w, commands);
            && Inv(manifest, r.world) && r.world.journal == w.journal
            && (r.status == Fine ==> Progress(r.world.trace) == from + |commands| && !JustFailed(r.world.trace))
    decreases |commands|
  {
    if commands != [] {
      var c := commands[0];
      assert c == FORWARD[from + 0] && c != OldStart;
      CommandKeeps(o, manifest, w, c);
      var first := RunCommand(o, w, c);
      if first.status == Fine {
        Snoc(manifest, w.trace, Ran(c, true, w.sources));
        CommandsKeep(o, manifest, first.world, commands[1..], from + 1);
      }
    }
  }

  /** A phase keeps the invariant and, if it goes through, arrives at its next stage. */
  lemma PhaseKeeps(o: Oracle, manifest: Manifest, w: World, n: nat, commands: seq<Command>, code: string,
                   next: Stage, from: nat)
    requires Inv(manifest, w) && Recoverable(w) && Distinct(manifest)
    requires Progress(w.trace) == from && from + |commands| <= 6 && !JustFailed(w.trace)
    requires forall i :: 0 <= i < |commands| ==>
                           commands[i] == FORWARD[from + i] && StageOf(w) == Some(StageFor(commands[i]))
    requires MayFollow(StageOf(w), next) && next in {ShadowReady, PreCutoverSmokePassed, PostCutoverSmokePassed}
    ensures var r := Phase(o, w, manifest, n, commands, code, next);
            && Inv(manifest, r.world)
            && (r.status == Fine ==>
                  StageOf(r.world) == Some(next) && Progress(r.world.trace) == from + |commands|
                  && !JustFailed(r.world.trace))
  {
    CommandsKeep(o, manifest, w, commands, from);
    var ran := RunCommands(o, w, commands);
    if ran.status == Error {
      RollbackKeeps(o, manifest, ran.world, n, code);
    } else if ran.status == Fine {
      SaveKeeps(o, manifest, ran.world, Journal(next, n, None));
      Snoc(manifest, ran.world.trace, Saved(next));
    }
  }

  lemma AttemptKeeps(o: Oracle, manifest: Manifest, w: World, n: nat)
    requires Inv(manifest, w) && Between(w) && Distinct(manifest)
    ensures var r := Attempt(o, w, manifest, n);
            Inv(manifest, r.world) && (r.status == Fine ==> StageOf(r.world) == Some(Committed))
  {
    CreateKeeps(o, manifest, w);
    var taken := CreateSnapshot(o, w, manifest);
    if taken.status == Fine {
      Snoc(manifest, w.trace, Took(w.sources));
      SaveKeeps(o, manifest, taken.world, Journal(SnapshotComplete, n, None));
      var ready := Save(o, taken.world, Journal(SnapshotComplete, n, None));
      if ready.status == Fine {
        Snoc(manifest, taken.world.trace, Saved(SnapshotComplete));
        PhasesKeep(o, manifest, ready.world, n);
      }
    }
  }

  /** The attempt from its first durable stage on. */
  lemma PhasesKeep(o: Oracle, manifest: Manifest, w: World, n: nat)
    requires Inv(manifest, w) && Distinct(manifest)
    requires StageOf(w) == Some(SnapshotComplete) && Progress(w.trace) == 0 && !JustFailed(w.trace)
    ensures var shadow := Phase(o, w, manifest, n, [ShadowStart, ShadowHealth], "CR-MIG-0006", ShadowReady);
            && Inv(manifest, shadow.world)
            && (shadow.status == Fine ==>
                var smoked := Phase(o, shadow.world, manifest, n, [PreCutoverSmoke], "CR-MIG-0006",
                                    PreCutoverSmokePassed);
                && Inv(manifest, smoked.world)
                && (smoked.status == Fine ==>
                    && StageOf(smoked.world) == Some(PreCutoverSmokePassed)
                    && Progress(smoked.world.trace) == 3
                    && CutKept(o, manifest, smoked.world, n)))
  {
    PhaseKeeps(o, manifest, w, n, [ShadowStart, ShadowHealth], "CR-MIG-0006", ShadowReady, 0);
    var shadow := Phase(o, w, manifest, n, [ShadowStart, ShadowHealth], "CR-MIG-0006", ShadowReady);
    if shadow.status == Fine {
      SmokeKeeps(o, manifest, shadow.world, n);
    }
  }

  lemma SmokeKeeps(o: Oracle, manifest: Manifest, w: World, n: nat)
    requires Inv(manifest, w) && Distinct(manifest)
    requires StageOf(w) == Some(ShadowReady) && Progress(w.trace) == 2 && !JustFailed(w.trace)
    ensures var smoked := Phase(o, w, manifest, n, [PreCutoverSmoke], "CR-MIG-0006", PreCutoverSmokePassed);
            && Inv(manifest, smoked.world)
            && (smoked.status == Fine ==>
                && StageOf(smoked.world) == Some(PreCutoverSmokePassed)
                && Progress(smoked.world.trace) == 3
                && CutKept(o, manifest, smoked.world, n))
  {
    PhaseKeeps(o, manifest, w, n, [PreCutoverSmoke], "CR-MIG-0006", PreCutoverSmokePassed, 2);
    var smoked := Phase(o, w, manifest, n, [PreCutoverSmoke], "CR-MIG-0006", PreCutoverSmokePassed);
    if smoked.status == Fine {
      CutKeeps(o, manifest, smoked.world, n);
    }
  }

  /** The dangerous half of an attempt keeps the invariant and ends committed if it goes through. */
  predicate CutKept(o: Oracle, manifest: Manifest, w: World, n: nat) {
    var begun := Save(o, w, Journal(CutoverBegin, n, None));
    && Inv(manifest, begun.world)
    && (begun.status == Fine ==>
        var cut := Phase(o, begun.world, manifest, n, [OldStop, NewStart, PostCutoverSmoke], "CR-MIG-0007",
                         PostCutoverSmokePassed);
        && Inv(manifest, cut.world)
        && (cut.status == Fine ==>
            var done := Save(o, cut.world, Journal(Committed, n, None));
            Inv(manifest, done.world) && (done.status == Fine ==> StageOf(done.world) == Some(Committed))))
  }

  lemma CutKeeps(o: Oracle, manifest: Manifest, w: World, n: nat)
    requires Inv(manifest, w) && Distinct(manifest)
    requires StageOf(w) == Some(PreCutoverSmokePassed) && Progress(w.trace) == 3 && !JustFailed(w.trace)
    ensures CutKept(o, manifest, w, n)
  {
    SaveKeeps(o, manifest, w, Journal(CutoverBegin, n, None));
    var begun := Save(o, w, Journal(CutoverBegin, n, None));
    if begun.status == Fine {
      Snoc(manifest, w.trace, Saved(CutoverBegin));
      PhaseKeeps(o, manifest, begun.world, n, [OldStop, NewStart, PostCutoverSmoke], "CR-MIG-0007",
                 PostCutoverSmokePassed, 3);
      var cut := Phase(o, begun.world, manifest, n, [OldStop, NewStart, PostCutoverSmoke], "CR-MIG-0007",
                       PostCutoverSmokePassed);
      if cut.status == Fine {
        SaveKeeps(o, manifest, cut.world, Journal(Committed, n, None));
      }
    }
  }

  // ---------------------------------------------------------------- any number of runs

  lemma RecoverKeeps(o: Oracle, manifest: Manifest, w: World)
    requires Inv(manifest, w) && Distinct(manifest) && StageOf(w) != Some(Committed)
    ensures var r := Recover(o, w, manifest);
            Inv(manifest, r.world) && (r.status == Fine ==> Between(r.world))
  {
    if Recoverable(w) {
      RollbackKeeps(o, manifest, w, AttemptsOf(w), "CR-MIG-0007");
    }
  }

  lemma RunFromKeeps(o: Oracle, manifest: Manifest, w: World)
    requires Inv(manifest, w) && Distinct(manifest)
    ensures var r := RunFrom(o, w, manifest);
            Inv(manifest, r.world) && (r.status == Fine ==> StageOf(r.world) == Some(Committed))
  {
    if StageOf(w) != Some(Committed) {
      RecoverKeeps(o, manifest, w);
      var recovered := Recover(o, w, manifest);
      if recovered.status == Fine {
        AttemptKeeps(o, manifest, recovered.world, NextAttempt(AttemptsOf(w)));
      }
    }
  }

  /** A run keeps the invariant and, if it goes through, ends committed. */
  predicate RunKept(o: Oracle, manifest: Manifest, w: World) {
    var r := RunCutover(o, w, manifest);
    Inv(manifest, r.world) && (r.status == Fine ==> StageOf(r.world) == Some(Committed))
  }

  lemma UnreadKeeps(o: Oracle, manifest: Manifest, w: World)
    requires Inv(manifest, w) && o(w.clock).fate != Succeeds
    ensures RunKept(o, manifest, w)
  {
    var ticked := w.(clock := w.clock + 1);
    TickKeeps(manifest, w, ticked);
    assert RunCutover(o, w, manifest) == Step(StatusOf(o(w.clock).fate), ticked);
  }

  lemma ReadKeeps(o: Oracle, manifest: Manifest, w: World)
    requires Inv(manifest, w) && Distinct(manifest) && o(w.clock).fate == Succeeds
    ensures RunKept(o, manifest, w)
  {
    var ticked := w.(clock := w.clock + 1);
    TickKeeps(manifest, w, ticked);
    RunFromKeeps(o, manifest, ticked);
    ReadRun(o, manifest, w, ticked);
  }

  /** A run that can read the journal goes on from there. */
  lemma ReadRun(o: Oracle, manifest: Manifest, w: World, ticked: World)
    requires o(w.clock).fate == Succeeds && ticked == w.(clock := w.clock + 1)
    ensures RunCutover(o, w, manifest) == RunFrom(o, ticked, manifest)
  {
  }

  lemma RunKeeps(o: Oracle, manifest: Manifest, w: World)
    requires Inv(manifest, w) && Distinct(manifest)
    ensures RunKept(o, manifest, w)
  {
    if o(w.clock).fate == Succeeds {
      ReadKeeps(o, manifest, w);
    } else {
      UnreadKeeps(o, manifest, w);
    }
  }

  /** Reading the journal changes nothing the invariant speaks of. */
  lemma TickKeeps(manifest: Manifest, w: World, ticked: World)
    requires Inv(manifest, w) && ticked == w.(clock := ticked.clock)
    ensures Inv(manifest, ticked) && StageOf(ticked) == StageOf(w)
  {
  }

  lemma {:induction false} RunsKeep(o: Oracle, manifest: Manifest, w: World, runs: nat)
    requires Inv(manifest, w) && Distinct(manifest)
    ensures Inv(manifest, RunMany(o, w, manifest, runs))
    decreases runs
  {
    if runs > 0 {
      RunKeeps(o, manifest, w);
      RunsKeep(o, manifest, RunCutover(o, w, manifest).world, runs - 1);
    }
  }

  lemma {:induction false} EveryEventAllowed(manifest: Manifest, trace: seq<Event>, i: nat)
    requires Disciplined(manifest, trace) && i < |trace|
    ensures Allowed(manifest, trace[..i], trace[i])
    decreases |trace|
  {
    var before := trace[..|trace| - 1];
    if i < |before| {
      EveryEventAllowed(manifest, before, i);
      assert before[..i] == trace[..i];
    }
  }

  /** After the journal says Committed nothing happens any more. */
  lemma {:induction false} CommittedEndsTheTrace(manifest: Manifest, trace: seq<Event>, i: nat)
    requires Disciplined(manifest, trace) && i < |trace| && trace[i] == Saved(Committed)
    ensures i == |trace| - 1
  {
    if i < |trace| - 1 {
      assert trace[..i + 1][..i] == trace[..i];
      EveryEventAllowed(manifest, trace, i + 1);
      assert false;
    }
  }

  predicate Succeeded(e: Event, c: Command) {
    e.Ran? && e.ok && e.command == c
  }

  /** Up to here nothing but this happened since the rollback began: so many of the four repairs, in order. */
  predicate RepairedBy(trace: seq<Event>, steps: nat) {
    var begun := |trace| - 1 - steps;
    && begun >= 0 && trace[begun] == Saved(RollbackBegin)
    && (steps >= 1 ==> Succeeded(trace[begun + 1], NewStop))
    && (steps >= 2 ==> trace[begun + 2] == Restored)
    && (steps >= 3 ==> Succeeded(trace[begun + 3], OldStart))
    && (steps >= 4 ==> Succeeded(trace[begun + 4], RollbackHealth))
  }

  /** What the count of repairs means. */
  lemma {:induction false} RepairMeans(trace: seq<Event>)
    requires Repair(trace) >= 0
    ensures RepairedBy(trace, Repair(trace))
  {
    if Repair(trace) > 0 {
      RepairMeans(trace[..|trace| - 1]);
    }
  }

  /** The five events before this one are the beginning of a rollback and its four successful repairs. */
  predicate Repaired(trace: seq<Event>, i: nat)
    requires i <= |trace|
  {
    RepairedBy(trace[..i], 4)
  }

  /** These are places, in order, of the first forward commands, each successful. */
  predicate ForwardAt(trace: seq<Event>, at: seq<nat>) {
    && |at| <= 6
    && (forall k :: 0 <= k < |at| ==> at[k] < |trace| && Succeeded(trace[at[k]], FORWARD[k]))
    && (forall k :: 0 <= k < |at| - 1 ==> at[k] < at[k + 1])
  }

  /** Since the first of them no other command ran, no snapshot was taken or restored, no rollback began. */
  predicate NothingElse(trace: seq<Event>, at: seq<nat>) {
    at != [] ==> forall n :: at[0] <= n < |trace| ==> Harmless(trace[n]) && (trace[n].Ran? ==> n in at)
  }

  predicate Harmless(e: Event) {
    !e.Took? && !e.Restored? && e != Saved(RollbackBegin)
  }

  /** What steps of progress mean: so many forward commands succeeded, in order, with nothing else in between. */
  lemma {:induction false} ProgressMeans(trace: seq<Event>) returns (at: seq<nat>)
    ensures |at| == Progress(trace) && ForwardAt(trace, at) && NothingElse(trace, at)
  {
    if trace == [] {
      return [];
    }
    var before, last := trace[..|trace| - 1], trace[|trace| - 1];
    var earlier := ProgressMeans(before);
    if Progress(trace) == 0 {
      at := [];
    } else {
      at := if last.Ran? then earlier + [|before|] else earlier;
      StillForward(trace, before, earlier, at);
      StillNothingElse(trace, before, earlier, at);
    }
  }

  lemma StillForward(trace: seq<Event>, before: seq<Event>, earlier: seq<nat>, at: seq<nat>)
    requires trace != [] && before == trace[..|trace| - 1] && ForwardAt(before, earlier)
    requires at == earlier || (at == earlier + [|before|] && |earlier| < 6)
    requires at != earlier ==> Succeeded(trace[|before|], FORWARD[|earlier|])
    ensures ForwardAt(trace, at)
  {
    assert forall n :: 0 <= n < |before| ==> trace[n] == before[n];
  }

  lemma StillNothingElse(trace: seq<Event>, before: seq<Event>, earlier: seq<nat>, at: seq<nat>)
    requires trace != [] && before == trace[..|trace| - 1] && NothingElse(before, earlier)
    requires at == earlier || at == earlier + [|before|]
    requires Harmless(trace[|before|]) && (trace[|before|].Ran? ==> |before| in at)
    ensures NothingElse(trace, at)
  {
    forall n | at != [] && at[0] <= n < |trace| ensures Harmless(trace[n]) && (trace[n].Ran? ==> n in at) {
      if n < |before| {
        assert trace[n] == before[n] && earlier != [] && earlier[0] == at[0];
      }
    }
  }

  /** All six forward commands succeeded, in order and with nothing else in between. */
  ghost predicate CarriedOut(trace: seq<Event>) {
    exists at :: |at| == 6 && ForwardAt(trace, at) && NothingElse(trace, at)
  }

  /** A machine on which the cutover has never run. */
  function Fresh(sources: map<Path, Tree>, leftovers: map<Path, Tree>): World {
    World(None, leftovers, sources, 0, [])
  }

  /**
   * Crash safety. Over any number of runs, each ending in success, an error or a crash at any step: a journal that
   * calls for recovery stands beside the complete snapshot of its attempt; every command ran under its own
   * durable stage; the legacy stack was only ever restarted on exactly the trees that were saved; after a command
   * that failed nothing happens but a rollback; a healthy rollback follows the four repairs; a commit follows six
   * successful commands and nothing follows it; and with no journal, or after a healthy rollback, the legacy stack
   * is running undisturbed.
   */
  lemma CrashSafety(o: Oracle, manifest: Manifest, sources: map<Path, Tree>, leftovers: map<Path, Tree>,
                    runs: nat, i: nat)
    requires Distinct(manifest)
    ensures var w := RunMany(o, Fresh(sources, leftovers), manifest, runs);
            && StageOf(w) == LastSaved(w.trace)
            && (Recoverable(w) ==> SnapshotWhole(manifest, w))
            && (Between(w) ==> LegacyAfter(w.trace) == Running)
            && (i < |w.trace| ==>
                  && (w.trace[i].Ran? ==> LastSaved(w.trace[..i]) == Some(StageFor(w.trace[i].command)))
                  && (w.trace[i].Ran? && w.trace[i].command == OldStart ==>
                        SameTrees(manifest, w.trace[i].sources, LastTaken(w.trace[..i])))
                  && (JustFailed(w.trace[..i]) ==> w.trace[i] == Saved(RollbackBegin))
                  && (w.trace[i] == Saved(RollbackHealthy) ==> Repaired(w.trace, i))
                  && (w.trace[i] == Saved(Committed) ==> CarriedOut(w.trace[..i]) && i == |w.trace| - 1))
  {
    RunsKeep(o, manifest, Fresh(sources, leftovers), runs);
    var w := RunMany(o, Fresh(sources, leftovers), manifest, runs);
    if i < |w.trace| {
      EveryEventAllowed(manifest, w.trace, i);
      if w.trace[i] == Saved(Committed) {
        CommittedEndsTheTrace(manifest, w.trace, i);
        var at := ProgressMeans(w.trace[..i]);
      } else if w.trace[i] == Saved(RollbackHealthy) {
        RepairMeans(w.trace[..i]);
      }
    }
  }

  /** Once committed, a run changes nothing but the number of oracle answers used. */
  lemma CommittedIsFinal(o: Oracle, manifest: Manifest, w: World)
    requires StageOf(w) == Some(Committed)
    ensures RunCutover(o, w, manifest).world == w.(clock := w.clock + 1)
  {
  }

  // ---------------------------------------------------------------- progress

  /** From this answer on every step succeeds. */
  ghost predicate Smooth(o: Oracle, from: nat) {
    forall n :: n >= from ==> o(n).fate == Succeeds
  }

  predicate HasSources(manifest: Manifest, sources: map<Path, Tree>) {
    forall s :: s in manifest ==> s.source in sources
  }

  predicate SafeNames(manifest: Manifest) {
    forall s :: s in manifest ==> SafeBackupName(s.backup)
  }

  /** What a snapshot asks of the manifest and of the trees on disk. */
  predicate CanSnapshot(manifest: Manifest, sources: map<Path, Tree>) {
    SafeNames(manifest) && HasSources(manifest, sources)
  }

  lemma {:induction false} BackUpAllSucceeds(o: Oracle, w: World, specs: Manifest)
    requires Smooth(o, w.clock)
    ensures var r := BackUpAll(o, w, specs);
            r.world.clock >= w.clock && (r.status == Fine <==> CanSnapshot(specs, w.sources))
    decreases |specs|
  {
    if specs != [] {
      var first := BackUp(o, w, specs[0]);
      assert forall s :: s in specs <==> s == specs[0] || s in specs[1..];
      if first.status == Fine {
        BackUpAllSucceeds(o, first.world, specs[1..]);
      }
    }
  }

  lemma {:induction false} RestoreAllSucceeds(o: Oracle, w: World, specs: Manifest)
    requires Smooth(o, w.clock) && (forall s :: s in specs ==> s.backup in w.snapshot)
    ensures var r := RestoreAll(o, w, specs);
            r.status == Fine && r.world.clock >= w.clock
    decreases |specs|
  {
    if specs != [] {
      assert specs[0] in specs;
      RestoreAllSucceeds(o, RestoreOne(o, w, specs[0]).world, specs[1..]);
    }
  }

  lemma {:induction false} CommandsSucceed(o: Oracle, w: World, commands: seq<Command>)
    requires Smooth(o, w.clock)
    ensures var r := RunCommands(o, w, commands);
            r.status == Fine && r.world.clock >= w.clock
    decreases |commands|
  {
    if commands != [] {
      CommandsSucceed(o, RunCommand(o, w, commands[0]).world, commands[1..]);
    }
  }

  lemma RollbackSucceeds(o: Oracle, w: World, manifest: Manifest, n: nat, code: string)
    requires Smooth(o, w.clock) && (forall s :: s in manifest ==> s.backup in w.snapshot)
    ensures var r := Rollback(o, w, manifest, n, code);
            r.status == Fine && r.world.clock >= w.clock
  {
    var stopped := RunCommand(o, Save(o, w, Journal(RollbackBegin, n, Some(code))).world, NewStop);
    RestoreAllSucceeds(o, stopped.world, manifest);
  }

  lemma PhaseSucceeds(o: Oracle, w: World, manifest: Manifest, n: nat, commands: seq<Command>, code: string,
                      next: Stage)
    requires Smooth(o, w.clock)
    ensures var r := Phase(o, w, manifest, n, commands, code, next);
            r.status == Fine && r.world.clock >= w.clock
  {
    CommandsSucceed(o, w, commands);
  }

  lemma AttemptSucceeds(o: Oracle, w: World, manifest: Manifest, n: nat)
    requires Smooth(o, w.clock)
    ensures Attempt(o, w, manifest, n).status == Fine <==> CanSnapshot(manifest, w.sources)
  {
    BackUpAllSucceeds(o, ClearSnapshot(o, w).world, manifest);
    var taken := CreateSnapshot(o, w, manifest);
    if taken.status == Fine {
      var ready := Save(o, taken.world, Journal(SnapshotComplete, n, None));
      PhaseSucceeds(o, ready.world, manifest, n, [ShadowStart, ShadowHealth], "CR-MIG-0006", ShadowReady);
      var shadow := Phase(o, ready.world, manifest, n, [ShadowStart, ShadowHealth], "CR-MIG-0006", ShadowReady);
      PhaseSucceeds(o, shadow.world, manifest, n, [PreCutoverSmoke], "CR-MIG-0006", PreCutoverSmokePassed);
      var smoked := Phase(o, shadow.world, manifest, n, [PreCutoverSmoke], "CR-MIG-0006", PreCutoverSmokePassed);
      var begun := Save(o, smoked.world, Journal(CutoverBegin, n, None));
      PhaseSucceeds(o, begun.world, manifest, n, [OldStop, NewStart, PostCutoverSmoke], "CR-MIG-0007",
                    PostCutoverSmokePassed);
    }
  }

  lemma RecoverSucceeds(o: Oracle, w: World, manifest: Manifest)
    requires Inv(manifest, w) && Smooth(o, w.clock)
    ensures var r := Recover(o, w, manifest);
            r.status == Fine && r.world.clock >= w.clock
  {
    if Recoverable(w) {
      RollbackSucceeds(o, w, manifest, AttemptsOf(w), "CR-MIG-0007");
    }
  }

  /** The trees an attempt of this run would snapshot: those there are, or as the recovery's commands leave them. */
  function TreesToSave(o: Oracle, w: World, manifest: Manifest): map<Path, Tree> {
    Recover(o, w.(clock := w.clock + 1), manifest).world.sources
  }

  /**
   * Progress. Whatever earlier runs, failures and crashes have led to, one run in which every step succeeds ends
   * committed if and only if it was so already or a snapshot can be taken: the manifest names safe backup paths
   * and the trees are there, before the run or, if it begins with a recovery, after that.
   */
  lemma SmoothRunCommits(o: Oracle, manifest: Manifest, w: World)
    requires Inv(manifest, w) && Distinct(manifest) && Smooth(o, w.clock)
    ensures CommitsIf(RunCutover(o, w, manifest),
                      StageOf(w) == Some(Committed) || CanSnapshot(manifest, TreesToSave(o, w, manifest)))
  {
    var ticked := w.(clock := w.clock + 1);
    TickKeeps(manifest, w, ticked);
    ReadRun(o, manifest, w, ticked);
    SavedFromTicked(o, manifest, w, ticked);
    SmoothRunFrom(o, manifest, ticked);
  }

  lemma SavedFromTicked(o: Oracle, manifest: Manifest, w: World, ticked: World)
    requires ticked == w.(clock := w.clock + 1)
    ensures TreesToSave(o, w, manifest) == Recover(o, ticked, manifest).world.sources
  {
  }

  /** The run goes through exactly under the condition, and then it ends committed. */
  predicate CommitsIf(run: Step, condition: bool) {
    && (run.status == Fine <==> condition)
    && (run.status == Fine ==> StageOf(run.world) == Some(Committed))
  }

  lemma SmoothRunFrom(o: Oracle, manifest: Manifest, w: World)
    requires Inv(manifest, w) && Distinct(manifest) && Smooth(o, w.clock)
    ensures CommitsIf(RunFrom(o, w, manifest),
                      StageOf(w) == Some(Committed) || CanSnapshot(manifest, Recover(o, w, manifest).world.sources))
  {
    RunFromKeeps(o, manifest, w);
    if StageOf(w) != Some(Committed) {
      RecoverSucceeds(o, w, manifest);
      AttemptSucceeds(o, Recover(o, w, manifest).world, manifest, NextAttempt(AttemptsOf(w)));
    }
  }

  /** A rollback's restore has every tree in place again; only the two commands after it can lose one. */
  lemma RestoreBringsBack(o: Oracle, manifest: Manifest, w: World)
    requires Inv(manifest, w) && Recoverable(w) && Distinct(manifest) && Smooth(o, w.clock)
    ensures RestoreSnapshot(o, w, manifest).status == Fine
    ensures HasSources(manifest, RestoreSnapshot(o, w, manifest).world.sources)
  {
    RestoreAllSucceeds(o, w, manifest);
    RestoreAllCopies(o, w, manifest);
  }

  // ---------------------------------------------------------------- backup names

  /** Where a relative path leads from a directory. */
  function Resolved(dir: seq<string>, path: Path): seq<string>
    decreases |path|
  {
    if path == [] then dir else Resolved(Entered(dir, path[0]), path[1..])
  }

  function Entered(dir: seq<string>, c: Component): seq<string> {
    match c
    case Normal(name) => dir + [name]
    case CurDir => dir
    case ParentDir => if dir == [] then [] else dir[..|dir| - 1]
    case RootDir => []
    case Prefix(_) => []
  }

  /** Exactly the backup names taken: those each part of which leads further into the snapshot directory. */
  lemma {:induction false} SafeNamesLeadInside(dir: seq<string>, path: Path)
    ensures |Resolved(dir, path)| <= |dir| + |path|
    ensures path != [] ==> (SafeBackupName(path) <==> |Resolved(dir, path)| == |dir| + |path|)
    ensures SafeBackupName(path) ==> dir < Resolved(dir, path)
    decreases |path|
  {
    if path != [] {
      SafeNamesLeadInside(Entered(dir, path[0]), path[1..]);
      assert path == [path[0]] + path[1..];
    }
  }
}
