/** The cutover program: it changes the disk step by step, and the world it leaves is the one `Cutover` describes. */
module CutoverRunner {
  import opened Wrappers
  import opened Cutover

  class Runner {
    const oracle: Oracle
    const manifest: Manifest
    /** The journal as loaded, which every stage change updates before saving it. */
    var journal: Journal
    // The disk.
    var saved: Option<Journal>
    var snapshot: map<Path, Tree>
    var sources: map<Path, Tree>
    var clock: nat
    ghost var trace: seq<Event>

    ghost function Current(): World
      reads this
    {
      World(saved, snapshot, sources, clock, trace)
    }

    ghost predicate Did(step: Step, status: Status)
      reads this
    {
      step == Step(status, Current())
    }

    constructor (oracle: Oracle, manifest: Manifest, snapshot: map<Path, Tree>, sources: map<Path, Tree>)
      ensures this.oracle == oracle && this.manifest == manifest
      ensures Current() == World(None, snapshot, sources, 0, [])
    {
      this.oracle, this.manifest, this.snapshot, this.sources := oracle, manifest, snapshot, sources;
      journal, saved, clock, trace := Journal(SnapshotComplete, 0, None), None, 0, [];
    }

    method SetStage(stage: Stage, failureCode: Option<string>) returns (status: Status)
      modifies this
      ensures journal == Journal(stage, old(journal.attempts), failureCode)
      ensures Did(Save(oracle, old(Current()), journal), status)
    {
      journal := journal.(stage := stage, failureCode := failureCode);
      var answer := oracle(clock);
      clock := clock + 1;
      if answer.fate == Succeeds || answer.durable {
        saved := Some(journal);
        trace := trace + [Saved(stage)];
      }
      return StatusOf(answer.fate);
    }

    method Execute(command: Command) returns (status: Status)
      modifies this
      ensures journal == old(journal)
      ensures Did(RunCommand(oracle, old(Current()), command), status)
    {
      var answer := oracle(clock);
      clock := clock + 1;
      trace := trace + [Ran(command, answer.fate == Succeeds, sources)];
      sources := answer.tornSources;
      return StatusOf(answer.fate);
    }

    method TakeSnapshot() returns (status: Status)
      modifies this
      ensures journal == old(journal)
      ensures Did(CreateSnapshot(oracle, old(Current()), manifest), status)
    {
      var answer := oracle(clock);
      clock := clock + 1;
      if answer.fate != Succeeds {
        snapshot := answer.torn;
        return StatusOf(answer.fate);
      }
      snapshot := map[];
      ghost var cleared := Current();
      assert manifest[0..] == manifest;
      for i := 0 to |manifest|
        invariant journal == old(journal) && sources == cleared.sources
        invariant BackUpAll(oracle, cleared, manifest) == BackUpAll(oracle, Current(), manifest[i..])
        invariant Current() == cleared.(snapshot := snapshot, clock := clock)
      {
        assert manifest[i..][0] == manifest[i] && manifest[i..][1..] == manifest[i + 1..];
        var spec := manifest[i];
        if !SafeBackupName(spec.backup) || spec.source !in sources {
          return Error;
        }
        answer := oracle(clock);
        clock := clock + 1;
        if answer.fate != Succeeds {
          snapshot := answer.torn;
          return StatusOf(answer.fate);
        }
        snapshot := snapshot[spec.backup := sources[spec.source]];
      }
      trace := trace + [Took(sources)];
      return Fine;
    }

    method Restore() returns (status: Status)
      modifies this
      ensures journal == old(journal)
      ensures Did(RestoreSnapshot(oracle, old(Current()), manifest), status)
    {
      ghost var before := Current();
      assert manifest[0..] == manifest;
      for i := 0 to |manifest|
        invariant journal == old(journal)
        invariant RestoreAll(oracle, before, manifest) == RestoreAll(oracle, Current(), manifest[i..])
      {
        assert manifest[i..][0] == manifest[i] && manifest[i..][1..] == manifest[i + 1..];
        status := RestoreTree(manifest[i]);
        if status != Fine {
          return;
        }
      }
      trace := trace + [Restored];
      return Fine;
    }

    method RestoreTree(spec: SnapshotSpec) returns (status: Status)
      modifies this
      ensures journal == old(journal)
      ensures Did(RestoreOne(oracle, old(Current()), spec), status)
    {
      if spec.backup !in snapshot {
        return Error;
      }
      if spec.source in sources {
        var removal := oracle(clock);
        clock := clock + 1;
        if removal.fate != Succeeds {
          sources := Overwrite(sources, spec.source, removal.tornSources);
          return StatusOf(removal.fate);
        }
        sources := sources - {spec.source};
      }
      var copy := oracle(clock);
      clock := clock + 1;
      if copy.fate != Succeeds {
        sources := Overwrite(sources, spec.source, copy.tornSources);
        return StatusOf(copy.fate);
      }
      sources := sources[spec.source := snapshot[spec.backup]];
      return Fine;
    }

    method RollBack(code: string) returns (status: Status)
      modifies this
      ensures journal.attempts == old(journal.attempts)
      ensures Did(Rollback(oracle, old(Current()), manifest, old(journal.attempts), code), status)
    {
      status := SetStage(RollbackBegin, Some(code));
      if status != Fine { return; }
      status := Execute(NewStop);
      if status != Fine { return; }
      status := Restore();
      if status != Fine { return; }
      status := Execute(OldStart);
      if status != Fine { return; }
      status := Execute(RollbackHealth);
      if status != Fine { return; }
      status := SetStage(RollbackHealthy, Some(code));
    }

    /** Some commands, the rollback if one of them fails, the next stage if none does. */
    method RunPhase(commands: seq<Command>, code: string, next: Stage) returns (status: Status)
      modifies this
      ensures journal.attempts == old(journal.attempts)
      ensures Did(Phase(oracle, old(Current()), manifest, old(journal.attempts), commands, code, next), status)
    {
      ghost var before := Current();
      status := Fine;
      assert commands[0..] == commands;
      for i := 0 to |commands|
        invariant status == Fine && journal == old(journal)
        invariant RunCommands(oracle, before, commands) == RunCommands(oracle, Current(), commands[i..])
      {
        assert commands[i..][0] == commands[i] && commands[i..][1..] == commands[i + 1..];
        status := Execute(commands[i]);
        if status == Dead {
          return;
        }
        if status == Error {
          status := RollBack(code);
          return if status == Fine then Error else status;
        }
      }
      status := SetStage(next, None);
    }

    method TryCutover() returns (status: Status)
      modifies this
      ensures Did(Attempt(oracle, old(Current()), manifest, old(journal.attempts)), status)
    {
      status := TakeSnapshot();
      if status != Fine { return; }
      status := SetStage(SnapshotComplete, None);
      if status != Fine { return; }
      status := RunPhase([ShadowStart, ShadowHealth], "CR-MIG-0006", ShadowReady);
      if status != Fine { return; }
      status := RunPhase([PreCutoverSmoke], "CR-MIG-0006", PreCutoverSmokePassed);
      if status != Fine { return; }
      status := SetStage(CutoverBegin, None);
      if status != Fine { return; }
      status := RunPhase([OldStop, NewStart, PostCutoverSmoke], "CR-MIG-0007", PostCutoverSmokePassed);
      if status != Fine { return; }
      status := SetStage(Committed, None);
    }

    /** One run of the program. */
    method Run() returns (status: Status)
      modifies this
      ensures Did(RunCutover(oracle, old(Current()), manifest), status)
    {
      var loaded := oracle(clock);
      clock := clock + 1;
      if loaded.fate != Succeeds {
        return StatusOf(loaded.fate);
      }
      var mustRecover := saved.Some? && RequiresRecovery(saved.value.stage);
      journal := if saved.Some? then saved.value else Journal(SnapshotComplete, 0, None);
      if saved.Some? && journal.stage == Committed {
        return Fine;
      }
      if mustRecover {
        status := RollBack("CR-MIG-0007");
        if status != Fine { return; }
      }
      journal := journal.(attempts := NextAttempt(journal.attempts));
      status := TryCutover();
    }
  }
}
