/** Stage 3: any number of `continue` runs after the first boot. */
module InstallerStage3 {
  import opened InstallerHandoff
  import opened InstallerRuns
  import opened InstallerSpec
  import opened Wrappers

  // ---- stage 3 ----

  // k stage-3 steps are done; the phase is complete only when all are.
  ghost predicate Good3At(m: Saved, base: seq<string>, k: nat)
  {
    && k <= |STAGE3_STEPS|
    && m.completed == base + STAGE3_STEPS[..k]
    && m.phase in {Stage1Complete, Stage3, Complete}
    && (m.phase == Complete ==> k == |STAGE3_STEPS|)
    && m.log == LastMessages(m.history)
  }

  // No stage-3 step among the stage-1 ones.
  ghost predicate IsBase(base: seq<string>) { forall s | s in base :: s !in STAGE3_STEPS }

  lemma Stage3DoneAt(m: Saved, base: seq<string>, k: nat, i: nat)
    requires Good3At(m, base, k) && IsBase(base) && i < |STAGE3_STEPS|
    ensures STAGE3_STEPS[i] in m.completed <==> i < k
  {
    assert STAGE3_STEPS[i] !in base;
    if i < k { assert STAGE3_STEPS[..k][i] == STAGE3_STEPS[i]; }
    assert forall j | 0 <= j < |STAGE3_STEPS| && j != i :: STAGE3_STEPS[j] != STAGE3_STEPS[i];
  }

  // Between calls the state in memory is the saved one, with k stage-3 steps done.
  ghost predicate AtRest(s: Sys, base: seq<string>, k: nat) {
    Good3At(s.mem, base, k) && s.mem == Load(s.world) && s.mem.phase == Stage3
  }

  lemma MarkStarted3(s: Sys, base: seq<string>, k: nat, step: string)
    requires AtRest(s, base, k)
    ensures AtRest(MarkStarted(s, step), base, k)
  {
    LogOneMore(s.mem.history, Start(step));
  }

  lemma MarkFailed3(s: Sys, base: seq<string>, k: nat, step: string)
    requires AtRest(s, base, k)
    ensures AtRest(MarkFailed(s, step), base, k)
  {
    LogOneMore(s.mem.history, Fail(step));
  }

  lemma MarkDone3(s: Sys, base: seq<string>, k: nat)
    requires AtRest(s, base, k) && IsBase(base) && k < |STAGE3_STEPS|
    ensures AtRest(MarkDone(s, STAGE3_STEPS[k]), base, k + 1)
  {
    LogOneMore(s.mem.history, Done(STAGE3_STEPS[k]));
    Stage3DoneAt(s.mem, base, k, k);
    assert STAGE3_STEPS[..k + 1] == STAGE3_STEPS[..k] + [STAGE3_STEPS[k]];
    assert base + STAGE3_STEPS[..k] + [STAGE3_STEPS[k]] == base + STAGE3_STEPS[..k + 1];
  }

  // How many stage-3 steps are done after a step was tried that is or is not passed.
  function Passed(k: nat, i: nat, ok: bool): nat { if ok && k == i then k + 1 else k }

  lemma TolerantOk(s: Sys, base: seq<string>, k: nat, i: nat, call: Call)
    requires AtRest(s, base, k) && IsBase(base) && i <= k && i < |STAGE3_STEPS|
    ensures var (s', ok) := Tolerant(s, STAGE3_STEPS[i], call);
            AtRest(s', base, Passed(k, i, ok)) && (ok ==> i < Passed(k, i, ok))
  {
    Stage3DoneAt(s.mem, base, k, i);
    if k == i {
      MarkStarted3(s, base, k, STAGE3_STEPS[i]);
      MarkDone3(MarkStarted(s, STAGE3_STEPS[i]), base, k);
    }
    hide MarkStarted;
    hide MarkDone;
    hide AtRest;
  }

  // The world update came to a zero exit, at once or on the resume.
  predicate ZeroExit(calls: Calls) { calls.world == Exit(0) || calls.resume == Exit(0) }

  lemma WorldUpdateOk(s: Sys, base: seq<string>, k: nat, calls: Calls)
    requires AtRest(s, base, k) && IsBase(base) && 1 <= k
    ensures var (s', end) := WorldUpdate(s, calls);
            var ok := end == AllComplete;
            && AtRest(s', base, Passed(k, 1, ok)) && (ok ==> 1 < Passed(k, 1, ok))
            && (ok && k == 1 ==> ZeroExit(calls))
            && end != Rejected
  {
    Stage3DoneAt(s.mem, base, k, 1);
    assert STAGE3_STEPS[1] == "world_update";
    if k == 1 {
      var s1 := MarkStarted(s, "world_update");
      MarkStarted3(s, base, k, "world_update");
      MarkDone3(s1, base, k);
      MarkFailed3(s1, base, k, "world_update");
    }
    hide MarkStarted;
    hide MarkDone;
    hide MarkFailed;
    hide AtRest;
  }

  // What one `continue` run does to the saved state.
  ghost predicate Stage3Progress(w: World, base: seq<string>, k: nat, calls: Calls, w': World, k': nat) {
    && k <= k' && Good3At(Load(w'), base, k')
    && Rank(Load(w).phase) <= Rank(Load(w').phase)
    && (k < 2 <= k' ==> ZeroExit(calls))
  }

  lemma RunStage3Ok(s: Sys, base: seq<string>, k: nat, calls: Calls) returns (k': nat)
    requires AtRest(s, base, k) && IsBase(base)
    ensures var (s', end) := RunStage3(s, calls);
            && k <= k' && Good3At(Load(s'.world), base, k')
            && Rank(Load(s'.world).phase) >= Rank(Stage3)
            && (k < 2 <= k' ==> ZeroExit(calls))
            && end != Rejected
            && (end == AllComplete ==> Load(s'.world).phase == Complete && k' == |STAGE3_STEPS|)
  {
    hide Tolerant;
    hide WorldUpdate;
    RestIsGood(s, base, k);
    TolerantOk(s, base, k, 0, calls.sync);
    var (s1, ok1) := Tolerant(s, STAGE3_STEPS[0], calls.sync);
    k' := Passed(k, 0, ok1);
    RestIsGood(s1, base, k');
    if ok1 {
      WorldUpdateOk(s1, base, k', calls);
      var (s2, end) := WorldUpdate(s1, calls);
      k' := Passed(k', 1, end == AllComplete);
      RestIsGood(s2, base, k');
      if end == AllComplete {
        TolerantOk(s2, base, k', 2, calls.depclean);
        var (s3, ok3) := Tolerant(s2, STAGE3_STEPS[2], calls.depclean);
        k' := Passed(k', 2, ok3);
        RestIsGood(s3, base, k');
        if ok3 {
          TolerantOk(s3, base, k', 3, calls.disable);
          var (s4, ok4) := Tolerant(s3, STAGE3_STEPS[3], calls.disable);
          k' := Passed(k', 3, ok4);
          RestIsGood(s4, base, k');
          if ok4 {
            CompleteIsGood(s4, base, k');
          }
        }
      }
    }
    hide AtRest;
    hide Good3At;
  }

  lemma RestIsGood(s: Sys, base: seq<string>, k: nat)
    requires AtRest(s, base, k)
    ensures Good3At(Load(s.world), base, k) && Load(s.world).phase == Stage3 && k <= |STAGE3_STEPS|
  {}

  lemma CompleteIsGood(s: Sys, base: seq<string>, k: nat)
    requires AtRest(s, base, k) && k == |STAGE3_STEPS|
    ensures var s' := Save(s.(mem := s.mem.(phase := Complete)));
            Good3At(Load(s'.world), base, k) && Load(s'.world).phase == Complete
  {}

  lemma ContinueOk(w: World, base: seq<string>, k: nat, calls: Calls) returns (k': nat)
    requires Good3At(Load(w), base, k) && IsBase(base)
    ensures var (w', end) := Continue(w, calls);
            && Stage3Progress(w, base, k, calls, w', k')
            && (end == Rejected <==> Load(w).phase == Complete)
            && (end == AllComplete ==> Load(w').phase == Complete)
  {
    hide RunStage3;
    if Load(w).phase == Complete {
      k' := k;
    } else {
      var s := Save(Sys(Load(w).(phase := Stage3), w));
      assert AtRest(s, base, k);
      k' := RunStage3Ok(s, base, k, calls);
    }
  }

  // Over any number of `continue` runs with any exit codes: stage 3 is done as a prefix, the world
  // update only after a zero exit, `complete` only when all is done, the phase never falls back,
  // and the log is the end of all that was ever logged.
  lemma {:induction false} ContinuesOk(w: World, base: seq<string>, k: nat, runs: seq<Calls>) returns (k': nat)
    requires Good3At(Load(w), base, k) && IsBase(base)
    ensures var w' := PlayContinues(w, runs);
            && k <= k' && Good3At(Load(w'), base, k')
            && Rank(Load(w).phase) <= Rank(Load(w').phase)
            && (k < 2 <= k' ==> exists i :: 0 <= i < |runs| && ZeroExit(runs[i]))
    decreases |runs|
  {
    hide Good3At;
    hide Continue;
    k' := k;
    if runs != [] {
      var k1 := ContinueOk(w, base, k, runs[0]);
      var w1 := Continue(w, runs[0]).0;
      k' := ContinuesOk(w1, base, k1, runs[1..]);
      if k < 2 <= k' {
        if k1 >= 2 {
          assert ZeroExit(runs[0]);
        } else {
          var i :| 0 <= i < |runs[1..]| && ZeroExit(runs[1..][i]);
          assert runs[i + 1] == runs[1..][i];
        }
      }
    }
  }

  // The whole installation: after the handoff, the first boot and any `continue` runs.
  lemma WholeInstallation(w: World, runs: seq<Calls>) returns (k: nat)
    requires Ready(w.target)
    ensures var w' := PlayContinues(FirstBoot(w), runs);
            && Good3At(Load(w'), w.target.value.completed, k)
            && Rank(Load(w').phase) >= Rank(Stage1Complete)
            && ("world_update" in Load(w').completed ==> exists i :: 0 <= i < |runs| && ZeroExit(runs[i]))
            && (Load(w').phase == Complete ==> forall s | s in STAGE3_STEPS :: s in Load(w').completed)
  {
    var base := w.target.value.completed;
    BaseOfReady(w.target);
    k := ContinuesOk(FirstBoot(w), base, 0, runs);
    hide PlayContinues;
    var m := Load(PlayContinues(FirstBoot(w), runs));
    Stage3DoneAt(m, base, k, 1);
    if m.phase == Complete {
      forall s | s in STAGE3_STEPS ensures s in m.completed {
        var i :| 0 <= i < |STAGE3_STEPS| && STAGE3_STEPS[i] == s;
        Stage3DoneAt(m, base, k, i);
      }
    }
  }

  lemma BaseOfReady(target: Option<Saved>)
    requires Ready(target)
    ensures IsBase(target.value.completed) && Good3At(target.value, target.value.completed, 0)
  {
    var done := target.value.completed;
    assert done == STEPS[..|done|];
    forall s | s in done ensures s !in STAGE3_STEPS {
      assert s in STEPS;
      NoSharedSteps(s);
    }
    assert STAGE3_STEPS[..0] == [] && done + [] == done;
  }

  lemma NoSharedSteps(s: string)
    requires s in STEPS
    ensures s !in STAGE3_STEPS
  {}

  // ---- when a run completes ----

  // A step passes if it is done already or its call comes back at all, whatever the exit code.
  lemma TolerantEnds(s: Sys, base: seq<string>, k: nat, i: nat, call: Call)
    requires AtRest(s, base, k) && IsBase(base) && i <= k && i < |STAGE3_STEPS|
    ensures Tolerant(s, STAGE3_STEPS[i], call).1 <==> (k <= i ==> call.Exit?)
  {
    Stage3DoneAt(s.mem, base, k, i);
    hide MarkStarted;
    hide MarkDone;
  }

  // The update passes on a zero exit, or on a zero exit of the resume after any other exit.
  predicate UpdatePasses(calls: Calls) {
    calls.world.Exit? && (calls.world.code == 0 || calls.resume == Exit(0))
  }

  predicate UpdateFails(calls: Calls) {
    calls.world.Exit? && calls.world.code != 0 && calls.resume.Exit? && calls.resume.code != 0
  }

  lemma WorldUpdateEnds(s: Sys, base: seq<string>, k: nat, calls: Calls)
    requires AtRest(s, base, k) && IsBase(base) && 1 <= k
    ensures var (s', end) := WorldUpdate(s, calls);
            && (end == AllComplete <==> (k <= 1 ==> UpdatePasses(calls)))
            && (end == WorldFailed <==> k <= 1 && UpdateFails(calls))
            && (end == WorldFailed ==> Load(s'.world).failed == Some("world_update") && Load(s'.world).current == None)
  {
    Stage3DoneAt(s.mem, base, k, 1);
    assert STAGE3_STEPS[1] == "world_update";
    hide MarkStarted;
    hide MarkDone;
    if k == 1 {
      MarkedFailed(MarkStarted(s, "world_update"), "world_update");
    }
    hide MarkFailed;
  }

  lemma MarkedFailed(s: Sys, step: string)
    ensures Load(MarkFailed(s, step).world).failed == Some(step) && Load(MarkFailed(s, step).world).current == None
  {}

  // What a run with k stage-3 steps done has to get from its calls.
  predicate SyncPasses(k: nat, calls: Calls) { k <= 0 ==> calls.sync.Exit? }

  predicate Completes(k: nat, calls: Calls) {
    && SyncPasses(k, calls)
    && (k <= 1 ==> UpdatePasses(calls))
    && (k <= 2 ==> calls.depclean.Exit?)
    && (k <= 3 ==> calls.disable.Exit?)
  }

  lemma RunStage3Ends(s: Sys, base: seq<string>, k: nat, calls: Calls)
    requires AtRest(s, base, k) && IsBase(base)
    ensures var (s', end) := RunStage3(s, calls);
            && (end == AllComplete <==> Completes(k, calls))
            && (end == WorldFailed <==> SyncPasses(k, calls) && k <= 1 && UpdateFails(calls))
            && (end == WorldFailed ==> Load(s'.world).failed == Some("world_update") && Load(s'.world).current == None)
  {
    hide Tolerant;
    hide WorldUpdate;
    RestIsGood(s, base, k);
    TolerantOk(s, base, k, 0, calls.sync);
    TolerantEnds(s, base, k, 0, calls.sync);
    var (s1, ok1) := Tolerant(s, STAGE3_STEPS[0], calls.sync);
    var k1 := Passed(k, 0, ok1);
    if ok1 {
      WorldUpdateOk(s1, base, k1, calls);
      WorldUpdateEnds(s1, base, k1, calls);
      var (s2, end) := WorldUpdate(s1, calls);
      var k2 := Passed(k1, 1, end == AllComplete);
      if end == AllComplete {
        TolerantOk(s2, base, k2, 2, calls.depclean);
        TolerantEnds(s2, base, k2, 2, calls.depclean);
        var (s3, ok3) := Tolerant(s2, STAGE3_STEPS[2], calls.depclean);
        var k3 := Passed(k2, 2, ok3);
        if ok3 {
          TolerantEnds(s3, base, k3, 3, calls.disable);
        }
      }
    }
    hide AtRest;
    hide Good3At;
  }

  // A `continue` run completes if and only if every call it still has to make comes back and the
  // update passes; it fails, and says so, if and only if it gets to an update that fails twice.
  lemma ContinueEnds(w: World, base: seq<string>, k: nat, calls: Calls)
    requires Good3At(Load(w), base, k) && IsBase(base) && Load(w).phase != Complete
    ensures var (w', end) := Continue(w, calls);
            && (end == AllComplete <==> Completes(k, calls))
            && (end == WorldFailed <==> SyncPasses(k, calls) && k <= 1 && UpdateFails(calls))
            && (end == WorldFailed ==> Load(w').failed == Some("world_update") && Load(w').current == None)
  {
    hide RunStage3;
    var s := Save(Sys(Load(w).(phase := Stage3), w));
    assert AtRest(s, base, k);
    RunStage3Ends(s, base, k, calls);
  }

  // From a ready target, after any number of failed runs, the first run whose update passes and
  // whose other calls come back completes the installation, unless an earlier one did.
  lemma InstallationCompletes(w: World, runs: seq<Calls>, calls: Calls)
    requires Ready(w.target) && Completes(0, calls)
    ensures Load(PlayContinues(FirstBoot(w), runs + [calls])).phase == Complete
  {
    var base, w0 := w.target.value.completed, FirstBoot(w);
    BaseOfReady(w.target);
    var k := ContinuesOk(w0, base, 0, runs);
    var w1 := PlayContinues(w0, runs);
    PlayContinuesLast(w0, runs, calls);
    hide PlayContinues;
    hide Good3At;
    hide Ready;
    hide Continue;
    var _ := ContinueOk(w1, base, k, calls);
    if Load(w1).phase != Complete {
      ContinueEnds(w1, base, k, calls);
    }
  }

  lemma {:induction false} PlayContinuesLast(w: World, runs: seq<Calls>, calls: Calls)
    ensures PlayContinues(w, runs + [calls]) == Continue(PlayContinues(w, runs), calls).0
    decreases |runs|
  {
    hide Continue;
    var all := runs + [calls];
    if runs == [] {
      assert all[0] == calls && all[1..] == [];
      assert PlayContinues(w, all) == PlayContinues(Continue(w, calls).0, []);
    } else {
      assert all[0] == runs[0] && all[1..] == runs[1..] + [calls];
      PlayContinuesLast(Continue(w, runs[0]).0, runs[1..], calls);
    }
  }

  // ---- what the saved state tells about the last message ----

  // The last message says which step is current and which one failed; who said DONE is completed.
  ghost predicate Tells(m: Saved) {
    && (m.history == [] ==> m.current == None && m.failed == None)
    && (m.history != [] ==> TellsLast(m, m.history[|m.history| - 1]))
    && (forall i | 0 <= i < |m.history| && m.history[i].Done? :: m.history[i].step in m.completed)
  }

  ghost predicate TellsLast(m: Saved, last: Message) {
    match last
    case Start(step) => m.current == Some(step) && m.failed == None
    case Done(_) => m.current == None && m.failed == None
    case Fail(step) => m.current == None && m.failed == Some(step)
  }

  // Memory and live copy both do, and a step may be marked done or failed only behind its start.
  ghost predicate BothTell(s: Sys) { Tells(s.mem) && Tells(Load(s.world)) }

  ghost predicate Begun(m: Saved) { m.history != [] && m.history[|m.history| - 1].Start? }

  lemma MarksTell(s: Sys, step: string)
    requires BothTell(s)
    ensures BothTell(MarkStarted(s, step)) && Begun(MarkStarted(s, step).mem)
    ensures Begun(s.mem) ==> BothTell(MarkDone(s, step)) && BothTell(MarkFailed(s, step))
    ensures BothTell(Save(s))
  {}

  lemma EffectTells(s: Sys, step: string, c: Choice)
    requires BothTell(s)
    ensures BothTell(Effect(s, step, c)) && Effect(s, step, c).mem.history == s.mem.history
  {}

  lemma StepTells(s: Sys, step: string, c: Choice)
    requires BothTell(s)
    ensures BothTell(RunStep(s, step, c).0)
  {
    MarksTell(s, step);
    var s1 := MarkStarted(s, step);
    EffectTells(s1, step, c);
    var s2 := Effect(s1, step, c);
    MarksTell(s2, step);
    LateTells(s2, step);
    hide MarkStarted;
    hide MarkDone;
    hide Effect;
    hide BothTell;
  }

  lemma LateTells(s: Sys, step: string)
    requires BothTell(s)
    ensures BothTell(s.(mem := s.mem.(completed := WithDone(s.mem.completed, step))))
  {}

  lemma {:induction false} RunTells(s: Sys, k: nat, cs: seq<Choice>)
    requires BothTell(s) && k <= |STEPS|
    ensures BothTell(RunFrom(s, k, cs).0)
    decreases |STEPS| - k
  {
    hide BothTell;
    hide RunStep;
    hide Save;
    if k < |STEPS| && STEPS[k] in s.mem.completed {
      RunTells(s, k + 1, cs);
    } else if k < |STEPS| && cs != [] {
      var s' := RunStep(s, STEPS[k], cs[0]).0;
      StepTells(s, STEPS[k], cs[0]);
      MarksTell(s', STEPS[k]);
      RunTells(s', k + 1, cs[1..]);
    }
  }

  // In every history the saved state tells of the last message: a step that failed or was
  // interrupted stays current and is not marked as failed.
  lemma {:induction false} HistoryTells(w: World, acts: seq<Act>)
    requires Tells(Load(w))
    ensures Tells(Load(Play(w, acts)))
    decreases |acts|
  {
    hide Tells;
    hide RunFrom;
    if acts != [] {
      FreshTells();
      if acts[0].Run? {
        RunTells(Sys(Load(w), w), 0, acts[0].choices);
      }
      HistoryTells(Perform(w, acts[0]), acts[1..]);
    }
  }

  lemma FreshTells()
    ensures Tells(FRESH)
  {}

  lemma TolerantTells(s: Sys, step: string, call: Call)
    requires BothTell(s)
    ensures BothTell(Tolerant(s, step, call).0)
  {
    MarksTell(s, step);
    MarksTell(MarkStarted(s, step), step);
    hide MarkStarted;
    hide MarkDone;
    hide BothTell;
  }

  lemma WorldUpdateTells(s: Sys, calls: Calls)
    requires BothTell(s)
    ensures BothTell(WorldUpdate(s, calls).0)
  {
    MarksTell(s, "world_update");
    MarksTell(MarkStarted(s, "world_update"), "world_update");
    hide MarkStarted;
    hide MarkDone;
    hide MarkFailed;
    hide BothTell;
  }

  lemma PhaseTells(s: Sys, phase: Phase)
    requires BothTell(s)
    ensures BothTell(Save(s.(mem := s.mem.(phase := phase))))
  {}

  lemma RunStage3Tells(s: Sys, calls: Calls)
    requires BothTell(s)
    ensures BothTell(RunStage3(s, calls).0)
  {
    hide Tolerant;
    hide WorldUpdate;
    TolerantTells(s, "portage_update", calls.sync);
    var s1 := Tolerant(s, "portage_update", calls.sync).0;
    WorldUpdateTells(s1, calls);
    var s2 := WorldUpdate(s1, calls).0;
    TolerantTells(s2, "cleanup", calls.depclean);
    var s3 := Tolerant(s2, "cleanup", calls.depclean).0;
    TolerantTells(s3, "disable_agent", calls.disable);
    var s4 := Tolerant(s3, "disable_agent", calls.disable).0;
    PhaseTells(s4, Complete);
    hide BothTell;
    hide Save;
  }

  // The same over any number of `continue` runs.
  lemma {:induction false} ContinuesTell(w: World, runs: seq<Calls>)
    requires Tells(Load(w))
    ensures Tells(Load(PlayContinues(w, runs)))
    decreases |runs|
  {
    hide RunStage3;
    if runs != [] {
      var s := Sys(Load(w), w);
      PhaseTells(s, Stage3);
      RunStage3Tells(Save(s.(mem := s.mem.(phase := Stage3))), runs[0]);
      hide Tells;
      ContinuesTell(Continue(w, runs[0]).0, runs[1..]);
    }
  }
}
