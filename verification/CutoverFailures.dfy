/** What becomes of a run of the cutover in which a forward command fails: it rolls back before it reports. */
module CutoverFailures {
  import opened Wrappers
  import opened Cutover
  import opened CutoverLaws

  predicate FailedForward(e: Event) {
    e.Ran? && !e.ok && e.command in FORWARD
  }

  /** The code under which the failure of a forward command is reported. */
  function CodeFor(c: Command): string {
    if c in {ShadowStart, ShadowHealth, PreCutoverSmoke} then "CR-MIG-0006" else "CR-MIG-0007"
  }

  /** From here on every step succeeds, but one, which fails. */
  ghost predicate SmoothBut(o: Oracle, from: nat, k: nat) {
    forall n :: n >= from ==> o(n).fate == if n == k then Fails else Succeeds
  }

  /** The run reports an error, and the legacy stack is running again after all four repairs. */
  predicate RolledBack(r: Step) {
    && r.status == Error && StageOf(r.world) == Some(RollbackHealthy)
    && LegacyAfter(r.world.trace) == Running
    && EndsHealthy(r.world.trace) && Repaired(r.world.trace, |r.world.trace| - 1)
  }

  /** And its journal says which kind of failure it was. */
  predicate Reports(r: Step, c: Command) {
    RolledBack(r) && r.world.journal.Some? && r.world.journal.value.failureCode == Some(CodeFor(c))
  }

  /** What is to be shown of every part of a run: whatever forward command failed in it, it has been rolled back. */
  predicate Recovers(w: World, r: Step) {
    && w.trace <= r.world.trace && w.clock <= r.world.clock
    && (forall i :: |w.trace| <= i < |r.world.trace| && FailedForward(r.world.trace[i]) ==>
          Reports(r, r.world.trace[i].command))
  }

  lemma RecoversOn(w: World, first: Step, second: Step)
    requires Recovers(w, first) && first.status == Fine && Recovers(first.world, second)
    ensures Recovers(w, second)
  {
    assert forall i :: 0 <= i < |first.world.trace| ==> first.world.trace[i] == second.world.trace[i];
  }

  /** A part in which no forward command fails. */
  predicate NoForward(w: World, r: Step) {
    && w.trace <= r.world.trace && w.clock <= r.world.clock
    && forall i :: |w.trace| <= i < |r.world.trace| ==> !FailedForward(r.world.trace[i])
  }

  lemma NoForwardOn(w: World, first: Step, second: Step)
    requires NoForward(w, first) && NoForward(first.world, second)
    ensures NoForward(w, second)
  {
    assert forall i :: 0 <= i < |first.world.trace| ==> first.world.trace[i] == second.world.trace[i];
  }

  /** Parts in which at most one event happens, and that no forward command. */
  lemma OneQuietEvent(w: World, r: Step, e: Event)
    requires r.world.trace == w.trace || r.world.trace == w.trace + [e]
    requires !FailedForward(e) && w.clock <= r.world.clock
    ensures NoForward(w, r)
  {
  }

  lemma SaveIsQuiet(o: Oracle, w: World, j: Journal)
    ensures NoForward(w, Save(o, w, j))
  {
    OneQuietEvent(w, Save(o, w, j), Saved(j.stage));
  }

  lemma {:induction false} BackUpAllQuiet(o: Oracle, w: World, specs: Manifest)
    ensures var r := BackUpAll(o, w, specs);
            r.world.trace == w.trace && w.clock <= r.world.clock && r.world.sources == w.sources
    decreases |specs|
  {
    if specs != [] {
      var first := BackUp(o, w, specs[0]);
      if first.status == Fine {
        BackUpAllQuiet(o, first.world, specs[1..]);
      }
    }
  }

  lemma CreateIsQuiet(o: Oracle, w: World, manifest: Manifest)
    ensures NoForward(w, CreateSnapshot(o, w, manifest))
  {
    BackUpAllQuiet(o, ClearSnapshot(o, w).world, manifest);
    OneQuietEvent(w, CreateSnapshot(o, w, manifest), Took(w.sources));
  }

  lemma {:induction false} RestoreAllQuiet(o: Oracle, w: World, specs: Manifest)
    ensures var r := RestoreAll(o, w, specs);
            r.world.trace == w.trace && w.clock <= r.world.clock
    decreases |specs|
  {
    if specs != [] {
      var first := RestoreOne(o, w, specs[0]);
      if first.status == Fine {
        RestoreAllQuiet(o, first.world, specs[1..]);
      }
    }
  }

  lemma RestoreIsQuiet(o: Oracle, w: World, manifest: Manifest)
    ensures NoForward(w, RestoreSnapshot(o, w, manifest))
  {
    RestoreAllQuiet(o, w, manifest);
    OneQuietEvent(w, RestoreSnapshot(o, w, manifest), Restored);
  }

  lemma RepairCommandIsQuiet(o: Oracle, w: World, c: Command)
    requires c in {NewStop, OldStart, RollbackHealth}
    ensures NoForward(w, RunCommand(o, w, c))
  {
    var r := RunCommand(o, w, c);
    var e := Ran(c, r.status == Fine, w.sources);
    assert c !in FORWARD;
    OneQuietEvent(w, r, e);
  }

  lemma RollbackIsQuiet(o: Oracle, w: World, manifest: Manifest, n: nat, code: string)
    ensures NoForward(w, Rollback(o, w, manifest, n, code))
  {
    var j := Journal(RollbackBegin, n, Some(code));
    SaveIsQuiet(o, w, j);
    var begun := Save(o, w, j);
    if begun.status == Fine {
      RepairCommandIsQuiet(o, begun.world, NewStop);
      var stopped := RunCommand(o, begun.world, NewStop);
      NoForwardOn(w, begun, stopped);
      if stopped.status == Fine {
        RestoreIsQuiet(o, stopped.world, manifest);
        var restored := RestoreSnapshot(o, stopped.world, manifest);
        NoForwardOn(w, stopped, restored);
        if restored.status == Fine {
          EndOfRollbackIsQuiet(o, w, restored, n, code);
        }
      }
    }
  }

  lemma EndOfRollbackIsQuiet(o: Oracle, w: World, restored: Step, n: nat, code: string)
    requires restored.status == Fine && NoForward(w, restored)
    ensures var started := RunCommand(o, restored.world, OldStart);
            && NoForward(w, started)
            && (started.status == Fine ==>
                  var healthy := RunCommand(o, started.world, RollbackHealth);
                  && NoForward(w, healthy)
                  && (healthy.status == Fine ==>
                        NoForward(w, Save(o, healthy.world, Journal(RollbackHealthy, n, Some(code))))))
  {
    RepairCommandIsQuiet(o, restored.world, OldStart);
    var started := RunCommand(o, restored.world, OldStart);
    NoForwardOn(w, restored, started);
    if started.status == Fine {
      RepairCommandIsQuiet(o, started.world, RollbackHealth);
      var healthy := RunCommand(o, started.world, RollbackHealth);
      NoForwardOn(w, started, healthy);
      if healthy.status == Fine {
        SaveIsQuiet(o, healthy.world, Journal(RollbackHealthy, n, Some(code)));
        NoForwardOn(w, healthy, Save(o, healthy.world, Journal(RollbackHealthy, n, Some(code))));
      }
    }
  }

  // ---------------------------------------------------------------- forward

  /** Commands in order: either all have succeeded, or the last one run has not. */
  lemma {:induction false} CommandsGo(o: Oracle, w: World, commands: seq<Command>)
    ensures var r := RunCommands(o, w, commands);
            && w.trace <= r.world.trace && w.clock <= r.world.clock
            && (forall i :: |w.trace| <= i < |r.world.trace| && FailedForward(r.world.trace[i]) ==>
                  r.status != Fine && r.world.trace[i].command in commands)
            && (r.status != Fine ==> r.world.clock > w.clock && StatusOf(o(r.world.clock - 1).fate) == r.status)
    decreases |commands|
  {
    if commands != [] {
      var first := RunCommand(o, w, commands[0]);
      if first.status == Fine {
        CommandsGo(o, first.world, commands[1..]);
      }
    }
  }

  lemma HealthyIsRolledBack(manifest: Manifest, r: Step)
    requires r.status == Error && Inv(manifest, r.world)
    requires StageOf(r.world) == Some(RollbackHealthy) && EndsHealthy(r.world.trace)
    ensures RolledBack(r)
  {
    var trace := r.world.trace;
    EveryEventAllowed(manifest, trace, |trace| - 1);
    RepairMeans(trace[..|trace| - 1]);
  }

  /** A phase in which a command fails, and nothing after it, has rolled back when it reports. */
  lemma PhaseRecovers(o: Oracle, manifest: Manifest, w: World, n: nat, commands: seq<Command>, code: string,
                      next: Stage, from: nat, k: nat)
    requires Inv(manifest, w) && Recoverable(w) && Distinct(manifest) && SmoothBut(o, w.clock, k)
    requires Progress(w.trace) == from && from + |commands| <= 6 && !JustFailed(w.trace)
    requires forall i :: 0 <= i < |commands| ==>
                           commands[i] == FORWARD[from + i] && StageOf(w) == Some(StageFor(commands[i]))
    requires forall c :: c in commands ==> CodeFor(c) == code
    ensures Recovers(w, Phase(o, w, manifest, n, commands, code, next))
  {
    CommandsGo(o, w, commands);
    CommandsKeep(o, manifest, w, commands, from);
    var ran := RunCommands(o, w, commands);
    if ran.status == Fine {
      SaveIsQuiet(o, ran.world, Journal(next, n, None));
      RecoversOn(w, ran, Save(o, ran.world, Journal(next, n, None)));
    } else {
      assert ran.status == Error && ran.world.clock - 1 == k;
      SnapshotThere(manifest, ran.world);
      RollbackSucceeds(o, ran.world, manifest, n, code);
      RollbackKeeps(o, manifest, ran.world, n, code);
      RollbackIsQuiet(o, ran.world, manifest, n, code);
      var r := Phase(o, w, manifest, n, commands, code, next);
      HealthyIsRolledBack(manifest, r);
      RollbackCode(o, ran.world, manifest, n, code);
      RollbackAddsNoForward(w, ran, r, commands, code);
    }
  }

  /** A rollback that goes through leaves its code in the journal. */
  lemma RollbackCode(o: Oracle, w: World, manifest: Manifest, n: nat, code: string)
    requires Rollback(o, w, manifest, n, code).status == Fine
    ensures Rollback(o, w, manifest, n, code).world.journal == Some(Journal(RollbackHealthy, n, Some(code)))
  {
  }

  lemma RollbackAddsNoForward(w: World, ran: Step, r: Step, commands: seq<Command>, code: string)
    requires w.trace <= ran.world.trace && NoForward(ran.world, r) && w.clock <= ran.world.clock
    requires forall i :: |w.trace| <= i < |ran.world.trace| && FailedForward(ran.world.trace[i]) ==>
                           ran.world.trace[i].command in commands
    requires forall c :: c in commands ==> CodeFor(c) == code
    requires RolledBack(r) && r.world.journal.Some? && r.world.journal.value.failureCode == Some(code)
    ensures Recovers(w, r)
  {
    forall i | |w.trace| <= i < |r.world.trace| && FailedForward(r.world.trace[i])
      ensures Reports(r, r.world.trace[i].command)
    {
      if i < |ran.world.trace| {
        assert ran.world.trace[i] == r.world.trace[i];
      }
    }
  }

  lemma SnapshotThere(manifest: Manifest, w: World)
    requires Inv(manifest, w) && Recoverable(w)
    ensures forall s :: s in manifest ==> s.backup in w.snapshot
  {
  }

  lemma AttemptRecovers(o: Oracle, manifest: Manifest, w: World, n: nat, k: nat)
    requires Inv(manifest, w) && Between(w) && Distinct(manifest) && SmoothBut(o, w.clock, k)
    ensures Recovers(w, Attempt(o, w, manifest, n))
  {
    CreateIsQuiet(o, w, manifest);
    CreateKeeps(o, manifest, w);
    var taken := CreateSnapshot(o, w, manifest);
    if taken.status == Fine {
      var j := Journal(SnapshotComplete, n, None);
      NotJustFailed(manifest, w);
      Snoc(manifest, w.trace, Took(w.sources));
      SaveKeeps(o, manifest, taken.world, j);
      SaveIsQuiet(o, taken.world, j);
      var ready := Save(o, taken.world, j);
      RecoversOn(w, taken, ready);
      if ready.status == Fine {
        Snoc(manifest, taken.world.trace, Saved(SnapshotComplete));
        PhasesRecover(o, manifest, w, ready, n, k);
        AttemptGoes(o, manifest, w, n);
      }
    }
  }

  /** An attempt from the snapshot on is its phases. */
  lemma AttemptGoes(o: Oracle, manifest: Manifest, w: World, n: nat)
    requires CreateSnapshot(o, w, manifest).status == Fine
    requires var ready := Save(o, CreateSnapshot(o, w, manifest).world, Journal(SnapshotComplete, n, None));
             ready.status == Fine && PhasesGo(o, manifest, w, ready.world, n)
    ensures Recovers(w, Attempt(o, w, manifest, n))
  {
  }

  predicate PhasesGo(o: Oracle, manifest: Manifest, start: World, w: World, n: nat) {
    var shadow := Phase(o, w, manifest, n, [ShadowStart, ShadowHealth], "CR-MIG-0006", ShadowReady);
    Recovers(start, shadow) && (shadow.status == Fine ==> SmokeThenCut(o, manifest, start, shadow.world, n))
  }

  lemma PhasesRecover(o: Oracle, manifest: Manifest, w: World, ready: Step, n: nat, k: nat)
    requires ready.status == Fine && Recovers(w, ready)
    requires Inv(manifest, ready.world) && Distinct(manifest) && SmoothBut(o, ready.world.clock, k)
    requires StageOf(ready.world) == Some(SnapshotComplete) && Progress(ready.world.trace) == 0
    requires !JustFailed(ready.world.trace)
    ensures PhasesGo(o, manifest, w, ready.world, n)
  {
    var shadow := Phase(o, ready.world, manifest, n, [ShadowStart, ShadowHealth], "CR-MIG-0006", ShadowReady);
    ShadowRecovers(o, manifest, ready.world, n, k, shadow);
    ShadowKeeps(o, manifest, ready.world, n, shadow);
    RecoversOn(w, ready, shadow);
    if shadow.status == Fine {
      SmokeRecovers(o, manifest, w, shadow, n, k);
    }
  }

  lemma ShadowRecovers(o: Oracle, manifest: Manifest, w: World, n: nat, k: nat, shadow: Step)
    requires Inv(manifest, w) && Distinct(manifest) && SmoothBut(o, w.clock, k)
    requires StageOf(w) == Some(SnapshotComplete) && Progress(w.trace) == 0 && !JustFailed(w.trace)
    requires shadow == Phase(o, w, manifest, n, [ShadowStart, ShadowHealth], "CR-MIG-0006", ShadowReady)
    ensures Recovers(w, shadow) && SmoothBut(o, shadow.world.clock, k)
  {
    PhaseRecovers(o, manifest, w, n, [ShadowStart, ShadowHealth], "CR-MIG-0006", ShadowReady, 0, k);
  }

  lemma ShadowKeeps(o: Oracle, manifest: Manifest, w: World, n: nat, shadow: Step)
    requires Inv(manifest, w) && Distinct(manifest)
    requires StageOf(w) == Some(SnapshotComplete) && Progress(w.trace) == 0 && !JustFailed(w.trace)
    requires shadow == Phase(o, w, manifest, n, [ShadowStart, ShadowHealth], "CR-MIG-0006", ShadowReady)
    ensures shadow.status == Fine ==>
              && Inv(manifest, shadow.world) && !JustFailed(shadow.world.trace)
              && StageOf(shadow.world) == Some(ShadowReady) && Progress(shadow.world.trace) == 2
  {
    PhaseKeeps(o, manifest, w, n, [ShadowStart, ShadowHealth], "CR-MIG-0006", ShadowReady, 0);
  }

  lemma SmokeRecovers(o: Oracle, manifest: Manifest, w: World, shadow: Step, n: nat, k: nat)
    requires shadow.status == Fine && Recovers(w, shadow)
    requires Inv(manifest, shadow.world) && Distinct(manifest) && SmoothBut(o, shadow.world.clock, k)
    requires StageOf(shadow.world) == Some(ShadowReady) && Progress(shadow.world.trace) == 2
    requires !JustFailed(shadow.world.trace)
    ensures SmokeThenCut(o, manifest, w, shadow.world, n)
  {
    PhaseRecovers(o, manifest, shadow.world, n, [PreCutoverSmoke], "CR-MIG-0006", PreCutoverSmokePassed, 2, k);
    PhaseKeeps(o, manifest, shadow.world, n, [PreCutoverSmoke], "CR-MIG-0006", PreCutoverSmokePassed, 2);
    var smoked := Phase(o, shadow.world, manifest, n, [PreCutoverSmoke], "CR-MIG-0006", PreCutoverSmokePassed);
    RecoversOn(w, shadow, smoked);
    if smoked.status == Fine {
      CutDoesRecover(o, manifest, w, smoked, n, k);
    }
  }

  predicate SmokeThenCut(o: Oracle, manifest: Manifest, start: World, w: World, n: nat) {
    var smoked := Phase(o, w, manifest, n, [PreCutoverSmoke], "CR-MIG-0006", PreCutoverSmokePassed);
    Recovers(start, smoked) && (smoked.status == Fine ==> CutRecovers(o, manifest, start, smoked.world, n))
  }

  predicate CutRecovers(o: Oracle, manifest: Manifest, start: World, w: World, n: nat) {
    var begun := Save(o, w, Journal(CutoverBegin, n, None));
    && Recovers(start, begun)
    && (begun.status == Fine ==>
          var cut := Phase(o, begun.world, manifest, n, [OldStop, NewStart, PostCutoverSmoke], "CR-MIG-0007",
                           PostCutoverSmokePassed);
          && Recovers(start, cut)
          && (cut.status == Fine ==> Recovers(start, Save(o, cut.world, Journal(Committed, n, None)))))
  }

  lemma CutDoesRecover(o: Oracle, manifest: Manifest, w: World, smoked: Step, n: nat, k: nat)
    requires smoked.status == Fine && Recovers(w, smoked)
    requires Inv(manifest, smoked.world) && Distinct(manifest) && SmoothBut(o, smoked.world.clock, k)
    requires StageOf(smoked.world) == Some(PreCutoverSmokePassed) && Progress(smoked.world.trace) == 3
    requires !JustFailed(smoked.world.trace)
    ensures CutRecovers(o, manifest, w, smoked.world, n)
  {
    var j := Journal(CutoverBegin, n, None);
    SaveKeeps(o, manifest, smoked.world, j);
    SaveIsQuiet(o, smoked.world, j);
    var begun := Save(o, smoked.world, j);
    RecoversOn(w, smoked, begun);
    if begun.status == Fine {
      var commands := [OldStop, NewStart, PostCutoverSmoke];
      Snoc(manifest, smoked.world.trace, Saved(CutoverBegin));
      PhaseRecovers(o, manifest, begun.world, n, commands, "CR-MIG-0007", PostCutoverSmokePassed, 3, k);
      var cut := Phase(o, begun.world, manifest, n, commands, "CR-MIG-0007", PostCutoverSmokePassed);
      RecoversOn(w, begun, cut);
      if cut.status == Fine {
        SaveIsQuiet(o, cut.world, Journal(Committed, n, None));
        RecoversOn(w, cut, Save(o, cut.world, Journal(Committed, n, None)));
      }
    }
  }

  lemma RunFromRecovers(o: Oracle, manifest: Manifest, w: World, k: nat)
    requires Inv(manifest, w) && Distinct(manifest) && SmoothBut(o, w.clock, k)
    ensures Recovers(w, RunFrom(o, w, manifest))
  {
    if StageOf(w) != Some(Committed) {
      RecoverKeeps(o, manifest, w);
      RollbackIsQuiet(o, w, manifest, AttemptsOf(w), "CR-MIG-0007");
      var recovered := Recover(o, w, manifest);
      assert Recovers(w, recovered);
      if recovered.status == Fine {
        AttemptRecovers(o, manifest, recovered.world, NextAttempt(AttemptsOf(w)), k);
        RecoversOn(w, recovered, Attempt(o, recovered.world, manifest, NextAttempt(AttemptsOf(w))));
      }
    }
  }

  /**
   * A run in which one step fails and every other succeeds: if the step is a forward command, the run reports an
   * error and the legacy stack runs again on the trees that were saved, all four repairs done, with the code of
   * that command in the journal.
   */
  lemma FailedCommandIsRolledBack(o: Oracle, manifest: Manifest, w: World, k: nat, i: nat)
    requires Inv(manifest, w) && Distinct(manifest) && SmoothBut(o, w.clock, k)
    requires |w.trace| <= i < |RunCutover(o, w, manifest).world.trace|
    requires FailedForward(RunCutover(o, w, manifest).world.trace[i])
    ensures Reports(RunCutover(o, w, manifest), RunCutover(o, w, manifest).world.trace[i].command)
  {
    var ticked := w.(clock := w.clock + 1);
    if o(w.clock).fate == Succeeds {
      TickKeeps(manifest, w, ticked);
      ReadRun(o, manifest, w, ticked);
      RunFromRecovers(o, manifest, ticked, k);
    }
  }

  // ---------------------------------------------------------------- failures left unanswered

  /** The last thing that happened is a forward command that failed. */
  predicate LeftFailed(trace: seq<Event>) {
    trace != [] && FailedForward(trace[|trace| - 1])
  }

  /** If it is, the program died there, or the journal write with which the rollback begins failed as well. */
  predicate Excused(o: Oracle, r: Step) {
    LeftFailed(r.world.trace) ==>
      || r.status == Dead
      || (&& r.status == Error && r.world.clock >= 2
          && o(r.world.clock - 2).fate == Fails
          && o(r.world.clock - 1).fate == Fails && !o(r.world.clock - 1).durable)
  }

  lemma QuietIsExcused(o: Oracle, w: World, r: Step)
    requires NoForward(w, r) && !LeftFailed(w.trace)
    ensures !LeftFailed(r.world.trace) && Excused(o, r)
  {
    if |r.world.trace| > |w.trace| {
      assert !FailedForward(r.world.trace[|r.world.trace| - 1]);
    } else {
      assert r.world.trace == w.trace;
    }
  }

  lemma PhaseExcused(o: Oracle, manifest: Manifest, w: World, n: nat, commands: seq<Command>, code: string, next: Stage)
    requires !LeftFailed(w.trace)
    ensures var r := Phase(o, w, manifest, n, commands, code, next);
            Excused(o, r) && (r.status == Fine ==> !LeftFailed(r.world.trace))
  {
    CommandsGo(o, w, commands);
    var ran := RunCommands(o, w, commands);
    if ran.status == Fine {
      QuietIsExcused(o, w, ran);
      SaveIsQuiet(o, ran.world, Journal(next, n, None));
      QuietIsExcused(o, ran.world, Save(o, ran.world, Journal(next, n, None)));
    } else if ran.status == Error {
      RollbackExcused(o, manifest, ran.world, n, code);
    }
  }

  lemma RollbackExcused(o: Oracle, manifest: Manifest, w: World, n: nat, code: string)
    requires w.clock >= 1 && o(w.clock - 1).fate == Fails
    ensures Excused(o, Rollback(o, w, manifest, n, code))
  {
    var j := Journal(RollbackBegin, n, Some(code));
    var begun := Save(o, w, j);
    if begun.world.trace != w.trace {
      AfterBegin(o, manifest, w, n, code);
      if begun.status == Fine {
        QuietIsExcused(o, begun.world, Rollback(o, w, manifest, n, code));
      }
    }
  }

  lemma AfterBegin(o: Oracle, manifest: Manifest, w: World, n: nat, code: string)
    requires Save(o, w, Journal(RollbackBegin, n, Some(code))).world.trace != w.trace
    ensures var begun := Save(o, w, Journal(RollbackBegin, n, Some(code)));
            && !LeftFailed(begun.world.trace)
            && (begun.status == Fine ==> NoForward(begun.world, Rollback(o, w, manifest, n, code)))
  {
    var begun := Save(o, w, Journal(RollbackBegin, n, Some(code)));
    if begun.status == Fine {
      RepairCommandIsQuiet(o, begun.world, NewStop);
      var stopped := RunCommand(o, begun.world, NewStop);
      if stopped.status == Fine {
        RestoreIsQuiet(o, stopped.world, manifest);
        var restored := RestoreSnapshot(o, stopped.world, manifest);
        NoForwardOn(begun.world, stopped, restored);
        if restored.status == Fine {
          EndOfRollbackIsQuiet(o, begun.world, restored, n, code);
        }
      }
    }
  }

  lemma AttemptExcused(o: Oracle, manifest: Manifest, w: World, n: nat)
    requires !LeftFailed(w.trace)
    ensures Excused(o, Attempt(o, w, manifest, n))
  {
    CreateIsQuiet(o, w, manifest);
    var taken := CreateSnapshot(o, w, manifest);
    QuietIsExcused(o, w, taken);
    if taken.status == Fine {
      var j := Journal(SnapshotComplete, n, None);
      SaveIsQuiet(o, taken.world, j);
      var ready := Save(o, taken.world, j);
      QuietIsExcused(o, taken.world, ready);
      if ready.status == Fine {
        var commands := [ShadowStart, ShadowHealth];
        PhaseExcused(o, manifest, ready.world, n, commands, "CR-MIG-0006", ShadowReady);
        var shadow := Phase(o, ready.world, manifest, n, commands, "CR-MIG-0006", ShadowReady);
        if shadow.status == Fine {
          RestExcused(o, manifest, shadow.world, n);
        }
      }
    }
  }

  /** The rest of an attempt, from the shadow stack on. */
  predicate RestIsExcused(o: Oracle, manifest: Manifest, w: World, n: nat) {
    var smoked := Phase(o, w, manifest, n, [PreCutoverSmoke], "CR-MIG-0006", PreCutoverSmokePassed);
    && Excused(o, smoked)
    && (smoked.status == Fine ==>
          var begun := Save(o, smoked.world, Journal(CutoverBegin, n, None));
          && Excused(o, begun)
          && (begun.status == Fine ==>
                var cut := Phase(o, begun.world, manifest, n, [OldStop, NewStart, PostCutoverSmoke], "CR-MIG-0007",
                                 PostCutoverSmokePassed);
                && Excused(o, cut)
                && (cut.status == Fine ==> Excused(o, Save(o, cut.world, Journal(Committed, n, None))))))
  }

  lemma RestExcused(o: Oracle, manifest: Manifest, w: World, n: nat)
    requires !LeftFailed(w.trace)
    ensures RestIsExcused(o, manifest, w, n)
  {
    PhaseExcused(o, manifest, w, n, [PreCutoverSmoke], "CR-MIG-0006", PreCutoverSmokePassed);
    var smoked := Phase(o, w, manifest, n, [PreCutoverSmoke], "CR-MIG-0006", PreCutoverSmokePassed);
    if smoked.status == Fine {
      var j := Journal(CutoverBegin, n, None);
      SaveIsQuiet(o, smoked.world, j);
      var begun := Save(o, smoked.world, j);
      QuietIsExcused(o, smoked.world, begun);
      if begun.status == Fine {
        var commands := [OldStop, NewStart, PostCutoverSmoke];
        PhaseExcused(o, manifest, begun.world, n, commands, "CR-MIG-0007", PostCutoverSmokePassed);
        var cut := Phase(o, begun.world, manifest, n, commands, "CR-MIG-0007", PostCutoverSmokePassed);
        if cut.status == Fine {
          SaveIsQuiet(o, cut.world, Journal(Committed, n, None));
          QuietIsExcused(o, cut.world, Save(o, cut.world, Journal(Committed, n, None)));
        }
      }
    }
  }

  /**
   * In general: a run never leaves a failed forward command behind, unless the program died there or could not
   * write the journal when the rollback was to begin.
   */
  lemma NoFailureIsLeft(o: Oracle, manifest: Manifest, w: World)
    requires Inv(manifest, w) && Distinct(manifest) && !LeftFailed(w.trace)
    ensures Excused(o, RunCutover(o, w, manifest))
  {
    var ticked := w.(clock := w.clock + 1);
    if o(w.clock).fate == Succeeds {
      TickKeeps(manifest, w, ticked);
      ReadRun(o, manifest, w, ticked);
      RollbackIsQuiet(o, ticked, manifest, AttemptsOf(ticked), "CR-MIG-0007");
      var recovered := Recover(o, ticked, manifest);
      QuietIsExcused(o, ticked, recovered);
      AttemptExcused(o, manifest, recovered.world, NextAttempt(AttemptsOf(ticked)));
    }
  }

  /** A recovery that goes through says in the journal that the cutover failed, and counts no attempt. */
  lemma RecoveryReports(o: Oracle, manifest: Manifest, w: World)
    requires Recoverable(w) && Recover(o, w, manifest).status == Fine
    ensures Recover(o, w, manifest).world.journal
         == Some(Journal(RollbackHealthy, AttemptsOf(w), Some("CR-MIG-0007")))
  {
    RollbackCode(o, w, manifest, AttemptsOf(w), "CR-MIG-0007");
  }

  /** And the journal counts: a run that goes through from an older journal has made one attempt more, up to the top. */
  lemma CommitCounts(o: Oracle, manifest: Manifest, w: World)
    requires StageOf(w) != Some(Committed) && RunCutover(o, w, manifest).status == Fine
    ensures var attempts := AttemptsOf(w);
            RunCutover(o, w, manifest).world.journal
            == Some(Journal(Committed, if attempts >= 0xFFFF_FFFF then 0xFFFF_FFFF else attempts + 1, None))
  {
    var ticked := w.(clock := w.clock + 1);
    ReadRun(o, manifest, w, ticked);
    var recovered := Recover(o, ticked, manifest);
    var n := NextAttempt(AttemptsOf(ticked));
    NextIsOneMore(AttemptsOf(w));
    AttemptCommits(o, manifest, recovered.world, n);
  }

  lemma NextIsOneMore(attempts: nat)
    ensures NextAttempt(attempts) == if attempts >= 0xFFFF_FFFF then 0xFFFF_FFFF else attempts + 1
  {
  }

  lemma AttemptCommits(o: Oracle, manifest: Manifest, w: World, n: nat)
    ensures Attempt(o, w, manifest, n).status == Fine ==>
              Attempt(o, w, manifest, n).world.journal == Some(Journal(Committed, n, None))
  {
  }
}
