/**
 * The journaled cutover of a legacy stack. Every effect on the disk and every external command is one step, and
 * an oracle decides whether it succeeds, fails, or the process dies there. What a run does to the world is a
 * function of the oracle; `CutoverRunner` is the program that does it.
 */
module Cutover {
  import opened Wrappers

  datatype Component = Normal(name: string) | CurDir | ParentDir | RootDir | Prefix(name: string)

  type Path = seq<Component>

  /** The content of a file or directory tree, as one value. */
  type Tree = string

  /** A tree to save, and where in the snapshot directory its copy goes. */
  datatype SnapshotSpec = SnapshotSpec(source: Path, backup: Path)

  type Manifest = seq<SnapshotSpec>

  datatype Command =
    | ShadowStart | ShadowHealth | PreCutoverSmoke
    | OldStop | NewStart | PostCutoverSmoke
    | NewStop | OldStart | RollbackHealth

  datatype Stage =
    | SnapshotComplete
    | ShadowReady
    | PreCutoverSmokePassed
    | CutoverBegin
    | PostCutoverSmokePassed
    | RollbackBegin
    | RollbackHealthy
    | Committed

  datatype Journal = Journal(stage: Stage, attempts: nat, failureCode: Option<string>)

  const MAX_ATTEMPTS: nat := 0xFFFF_FFFF

  // ---------------------------------------------------------------- the world and the oracle

  datatype Event =
    | Saved(stage: Stage)
    | Took(content: map<Path, Tree>)
    | Restored
    | Ran(command: Command, ok: bool, sources: map<Path, Tree>)

  /**
   * What survives a crash (the journal, the snapshot directory, the trees on disk), the number of oracle answers
   * used up, and a record of what happened.
   */
  datatype World = World(journal: Option<Journal>, snapshot: map<Path, Tree>, sources: map<Path, Tree>,
                         clock: nat, trace: seq<Event>)

  datatype Fate = Succeeds | Fails | Dies

  /**
   * How one step goes. A step that does not succeed may leave anything behind: `torn` and `tornSources` say what.
   * A journal write is atomic, but one that reports failure, or dies, may still have happened (`durable`).
   * A command, whatever its fate, may rewrite the trees.
   */
  datatype Answer = Answer(fate: Fate, durable: bool, torn: map<Path, Tree>, tornSources: map<Path, Tree>)

  type Oracle = nat -> Answer

  /** How far the program got: on to the next line, out through `?`, or dead. */
  datatype Status = Fine | Error | Dead

  datatype Step = Step(status: Status, world: World)

  function StatusOf(fate: Fate): Status {
    match fate case Succeeds => Fine case Fails => Error case Dies => Dead
  }

  function Note(w: World, e: Event): World {
    w.(trace := w.trace + [e])
  }

  // ---------------------------------------------------------------- single effects

  predicate SafeBackupName(path: Path) {
    path != [] && forall c :: c in path ==> c.Normal?
  }

  predicate RequiresRecovery(stage: Stage) {
    stage in {SnapshotComplete, ShadowReady, PreCutoverSmokePassed, CutoverBegin, PostCutoverSmokePassed, RollbackBegin}
  }

  function Save(o: Oracle, w: World, journal: Journal): Step {
    var a := o(w.clock);
    var ticked := w.(clock := w.clock + 1);
    Step(StatusOf(a.fate),
         if a.fate == Succeeds || a.durable then Note(ticked.(journal := Some(journal)), Saved(journal.stage))
         else ticked)
  }

  function RunCommand(o: Oracle, w: World, command: Command): Step {
    var a := o(w.clock);
    Step(StatusOf(a.fate),
         Note(w.(clock := w.clock + 1, sources := a.tornSources), Ran(command, a.fate == Succeeds, w.sources)))
  }

  /** Removing, then making, the snapshot directory. */
  function ClearSnapshot(o: Oracle, w: World): Step {
    var a := o(w.clock);
    var ticked := w.(clock := w.clock + 1);
    if a.fate == Succeeds then Step(Fine, ticked.(snapshot := map[]))
    else Step(StatusOf(a.fate), ticked.(snapshot := a.torn))
  }

  /** One tree copied into the snapshot directory. */
  function BackUp(o: Oracle, w: World, spec: SnapshotSpec): Step {
    if !SafeBackupName(spec.backup) || spec.source !in w.sources then Step(Error, w)
    else
      var a := o(w.clock);
      var ticked := w.(clock := w.clock + 1);
      if a.fate == Succeeds then Step(Fine, ticked.(snapshot := w.snapshot[spec.backup := w.sources[spec.source]]))
      else Step(StatusOf(a.fate), ticked.(snapshot := a.torn))
  }

  /** Replace one key of a map, or drop it. */
  function Overwrite(m: map<Path, Tree>, key: Path, torn: map<Path, Tree>): map<Path, Tree> {
    if key in torn then m[key := torn[key]] else m - {key}
  }

  /** Removing what is at the source of one tree. */
  function RemoveSource(o: Oracle, w: World, spec: SnapshotSpec): Step {
    if spec.source !in w.sources then Step(Fine, w)
    else
      var a := o(w.clock);
      var ticked := w.(clock := w.clock + 1);
      if a.fate == Succeeds then Step(Fine, ticked.(sources := w.sources - {spec.source}))
      else Step(StatusOf(a.fate), ticked.(sources := Overwrite(w.sources, spec.source, a.tornSources)))
  }

  /** Copying one tree back to its source. */
  function CopyBack(o: Oracle, w: World, spec: SnapshotSpec): Step
    requires spec.backup in w.snapshot
  {
    var a := o(w.clock);
    var ticked := w.(clock := w.clock + 1);
    if a.fate == Succeeds then Step(Fine, ticked.(sources := w.sources[spec.source := w.snapshot[spec.backup]]))
    else Step(StatusOf(a.fate), ticked.(sources := Overwrite(w.sources, spec.source, a.tornSources)))
  }

  function RestoreOne(o: Oracle, w: World, spec: SnapshotSpec): Step {
    if spec.backup !in w.snapshot then Step(Error, w)
    else
      var removed := RemoveSource(o, w, spec);
      if removed.status != Fine then removed else CopyBack(o, removed.world, spec)
  }

  // ---------------------------------------------------------------- procedures

  function BackUpAll(o: Oracle, w: World, specs: Manifest): Step
    decreases |specs|
  {
    if specs == [] then Step(Fine, w)
    else
      var first := BackUp(o, w, specs[0]);
      if first.status != Fine then first else BackUpAll(o, first.world, specs[1..])
  }

  function CreateSnapshot(o: Oracle, w: World, manifest: Manifest): Step {
    var cleared := ClearSnapshot(o, w);
    if cleared.status != Fine then cleared
    else
      var done := BackUpAll(o, cleared.world, manifest);
      if done.status != Fine then done else Step(Fine, Note(done.world, Took(w.sources)))
  }

  function RestoreAll(o: Oracle, w: World, specs: Manifest): Step
    decreases |specs|
  {
    if specs == [] then Step(Fine, w)
    else
      var first := RestoreOne(o, w, specs[0]);
      if first.status != Fine then first else RestoreAll(o, first.world, specs[1..])
  }

  function RestoreSnapshot(o: Oracle, w: World, manifest: Manifest): Step {
    var done := RestoreAll(o, w, manifest);
    if done.status != Fine then done else Step(Fine, Note(done.world, Restored))
  }

  function Rollback(o: Oracle, w: World, manifest: Manifest, attempts: nat, code: string): Step {
    var begun := Save(o, w, Journal(RollbackBegin, attempts, Some(code)));
    if begun.status != Fine then begun else
    var stopped := RunCommand(o, begun.world, NewStop);
    if stopped.status != Fine then stopped else
    var restored := RestoreSnapshot(o, stopped.world, manifest);
    if restored.status != Fine then restored else
    var started := RunCommand(o, restored.world, OldStart);
    if started.status != Fine then started else
    var healthy := RunCommand(o, started.world, RollbackHealth);
    if healthy.status != Fine then healthy else
    Save(o, healthy.world, Journal(RollbackHealthy, attempts, Some(code)))
  }

  /** Commands in order until one does not succeed. */
  function RunCommands(o: Oracle, w: World, commands: seq<Command>): Step
    decreases |commands|
  {
    if commands == [] then Step(Fine, w)
    else
      var first := RunCommand(o, w, commands[0]);
      if first.status != Fine then first else RunCommands(o, first.world, commands[1..])
  }

  /** Commands under one stage; a failure is rolled back and reported, success reaches the next stage. */
  function Phase(o: Oracle, w: World, manifest: Manifest, attempts: nat, commands: seq<Command>, code: string,
                 next: Stage): Step
  {
    var ran := RunCommands(o, w, commands);
    match ran.status
    case Dead => ran
    case Error =>
      var undone := Rollback(o, ran.world, manifest, attempts, code);
      if undone.status == Fine then Step(Error, undone.world) else undone
    case Fine => Save(o, ran.world, Journal(next, attempts, None))
  }

  /** A whole attempt, from the snapshot to the commit. */
  function Attempt(o: Oracle, w: World, manifest: Manifest, attempts: nat): Step {
    var taken := CreateSnapshot(o, w, manifest);
    if taken.status != Fine then taken else
    var ready := Save(o, taken.world, Journal(SnapshotComplete, attempts, None));
    if ready.status != Fine then ready else
    var shadow := Phase(o, ready.world, manifest, attempts, [ShadowStart, ShadowHealth], "CR-MIG-0006", ShadowReady);
    if shadow.status != Fine then shadow else
    var smoked := Phase(o, shadow.world, manifest, attempts, [PreCutoverSmoke], "CR-MIG-0006", PreCutoverSmokePassed);
    if smoked.status != Fine then smoked else
    var begun := Save(o, smoked.world, Journal(CutoverBegin, attempts, None));
    if begun.status != Fine then begun else
    var cut := Phase(o, begun.world, manifest, attempts, [OldStop, NewStart, PostCutoverSmoke], "CR-MIG-0007",
                     PostCutoverSmokePassed);
    if cut.status != Fine then cut else
    Save(o, cut.world, Journal(Committed, attempts, None))
  }

  /** The attempt counter saturates. */
  function NextAttempt(attempts: nat): nat {
    if attempts < MAX_ATTEMPTS then attempts + 1 else MAX_ATTEMPTS
  }

  /** The attempts made so far: a journal begun now would start from none. */
  function AttemptsOf(w: World): nat {
    if w.journal.Some? then w.journal.value.attempts else 0
  }

  /** Roll back what an earlier run left half done. */
  function Recover(o: Oracle, w: World, manifest: Manifest): Step {
    if w.journal.Some? && RequiresRecovery(w.journal.value.stage)
    then Rollback(o, w, manifest, AttemptsOf(w), "CR-MIG-0007")
    else Step(Fine, w)
  }

  /** A run, once the journal is read: nothing to do, or recovery if the journal says so and then an attempt. */
  function RunFrom(o: Oracle, w: World, manifest: Manifest): Step {
    if w.journal.Some? && w.journal.value.stage == Committed then Step(Fine, w)
    else
      var recovered := Recover(o, w, manifest);
      if recovered.status != Fine then recovered
      else Attempt(o, recovered.world, manifest, NextAttempt(AttemptsOf(w)))
  }

  /** One run of the program. */
  function RunCutover(o: Oracle, w: World, manifest: Manifest): Step {
    var ticked := w.(clock := w.clock + 1);
    if o(w.clock).fate != Succeeds then Step(StatusOf(o(w.clock).fate), ticked)
    else RunFrom(o, ticked, manifest)
  }

  /** Any number of runs, however each of them ends. */
  function RunMany(o: Oracle, w: World, manifest: Manifest, runs: nat): World
    decreases runs
  {
    if runs == 0 then w else RunMany(o, RunCutover(o, w, manifest).world, manifest, runs - 1)
  }
}
