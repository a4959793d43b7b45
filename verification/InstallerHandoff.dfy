/** The handoff: what the target's copy holds when stage 1 is over. */
module InstallerHandoff {
  import opened InstallerRuns
  import opened InstallerSpec
  import opened Wrappers

  // ---- the target's copy ----

  // What the first boot needs to find on the target.
  ghost predicate Ready(target: Option<Saved>) {
    && target.Some? && target.value.phase == Stage1Complete
    && Prefix(UNMOUNT) <= target.value.completed && Good(target.value)
  }

  // While steps write to the target it is mounted; once the agent step is done its copy is ready.
  ghost predicate MirrorKept(w: World) {
    && (MOUNT < DoneCount(w) <= AGENT ==> w.mounted)
    && (DoneCount(w) > AGENT ==> Ready(w.target))
  }

  // ---- the handoff to the target ----

  // The same for a process whose memory holds n completed steps.
  ghost predicate Mirrored(s: Sys, n: nat) {
    && (MOUNT < n <= AGENT ==> s.world.mounted)
    && (n > AGENT ==> Ready(s.world.target))
  }

  // Saving n completed steps keeps the target's copy up to date.
  lemma SaveMirrored(s: Sys, n: nat)
    requires Good(s.mem) && |s.mem.completed| == n
    requires MOUNT < n <= AGENT ==> s.world.mounted
    requires n > AGENT ==> s.world.mounted || Ready(s.world.target)
    ensures Mirrored(Save(s), n) && DoneCount(Save(s).world) == n
  {
    if n > AGENT {
      assert Prefix(UNMOUNT) <= s.mem.completed;
    }
  }

  lemma EffectMirrored(m0: Saved, s: Sys, k: nat, c: Choice)
    requires SysOk(m0, s) && k < |STEPS| && |s.mem.completed| == k && DoneCount(s.world) == k && Mirrored(s, k)
    ensures var s' := Effect(s, STEPS[k], c);
            && Mirrored(s', k) && DoneCount(s'.world) == k
            && (c.outcome.Ran() && MOUNT <= k <= AGENT ==> s'.world.mounted)
  {
    EffectOk(m0, s, k, c);
    StepsDistinct();
    assert STEPS[1] == "disk_select" && STEPS[2] == "format" && STEPS[MOUNT] == "mount" && STEPS[UNMOUNT] == "unmount";
    var s' := Effect(s, STEPS[k], c);
    hide Good;
    if k > AGENT && s'.world.target == Some(s'.mem) {
      ReadyMem(s'.mem);
    }
  }

  lemma ReadyMem(m: Saved)
    requires Good(m) && |m.completed| > AGENT
    ensures Ready(Some(m))
  {
    assert Prefix(UNMOUNT) <= m.completed;
  }

  lemma MirrorStep(w: World, c: Choice)
    requires Good(Load(w)) && DoneCount(w) < |STEPS| && MirrorKept(w)
    ensures var (s, end) := RunStep(Sys(Load(w), w), STEPS[DoneCount(w)], c);
            MirrorKept(AfterStep(s, end))
  {
    hide Good;
    hide Ready;
    hide SysOk;
    hide Effect;
    var k, m0 := DoneCount(w), Load(w);
    var s0, step := Sys(m0, w), STEPS[k];
    FreshStep(w);
    StartOk(m0, s0, step);
    StartMirrored(m0, s0, step);
    var s1 := MarkStarted(s0, step);
    EffectOk(m0, s1, k, c);
    EffectMirrored(m0, s1, k, c);
    if !c.outcome.InterruptedEarly? {
      var s2 := Effect(s1, step, c);
      if c.outcome.Ran() {
        LateOk(m0, s2, k);
        DoneMirrored(m0, s2, k);
      } else {
        MemMirrored(m0, s2, k);
      }
    } else {
      MemMirrored(m0, s1, k);
    }
  }

  lemma StartMirrored(m0: Saved, s: Sys, step: string)
    requires SysOk(m0, s) && Mirrored(s, |s.mem.completed|)
    ensures Mirrored(MarkStarted(s, step), |s.mem.completed|)
    ensures DoneCount(MarkStarted(s, step).world) == |s.mem.completed|
  {
    StartOk(m0, s, step);
    SaveMirrored(s.(mem := Started(s.mem, step)), |s.mem.completed|);
  }

  lemma MemMirrored(m0: Saved, s: Sys, k: nat)
    requires SysOk(m0, s) && |s.mem.completed| == k && Mirrored(s, k)
    ensures Mirrored(Save(s), k) && DoneCount(Save(s).world) == k
  {
    SaveMirrored(s, k);
  }

  // After an execute that ran, marking the step done or saving it on an interrupt.
  lemma DoneMirrored(m0: Saved, s: Sys, k: nat)
    requires SysOk(m0, s) && k < |STEPS| && |s.mem.completed| == k && Mirrored(s, k)
    requires k >= AGENT ==> s.mem.phase == Stage1Complete
    requires MOUNT <= k <= AGENT ==> s.world.mounted
    ensures Mirrored(MarkDone(s, STEPS[k]), k + 1) && DoneCount(MarkDone(s, STEPS[k]).world) == k + 1
    ensures var late := Save(s.(mem := s.mem.(completed := WithDone(s.mem.completed, STEPS[k]))));
            Mirrored(late, k + 1) && DoneCount(late.world) == k + 1
  {
    LateOk(m0, s, k);
    DoneOk(m0, s, k);
    PrefixLength(k + 1);
    hide Good;
    SaveMirrored(s.(mem := Finished(s.mem, STEPS[k])), k + 1);
    SaveMirrored(s.(mem := s.mem.(completed := WithDone(s.mem.completed, STEPS[k]))), k + 1);
  }

  lemma {:induction false} RunMirrors(w: World, k: nat, cs: seq<Choice>)
    requires Good(Load(w)) && k <= DoneCount(w) && MirrorKept(w)
    ensures MirrorKept(RunFrom(Sys(Load(w), w), k, cs).0.world)
    decreases |STEPS| - k
  {
    hide RunStep;
    hide StepOk;
    hide Good;
    hide Save;
    hide MirrorKept;
    assert DoneCount(w) <= |STEPS| by { GoodBound(Load(w)); }
    if k < |STEPS| {
      StepDoneAt(Load(w), k);
      if k < DoneCount(w) {
        RunMirrors(w, k + 1, cs);
      } else if cs != [] {
        var (s, end) := RunStep(Sys(Load(w), w), STEPS[k], cs[0]);
        OneStepOk(w, cs[0]);
        MirrorStep(w, cs[0]);
        if end == StepDone {
          StepDoneFacts(w, s);
          RunMirrors(s.world, k + 1, cs[1..]);
        }
      }
    }
  }

  ghost predicate NoBareUnmount(acts: seq<Act>) { forall i | 0 <= i < |acts| :: !acts[i].Unmounted? }

  lemma {:induction false} HistoryMirrors(w: World, acts: seq<Act>)
    requires Good(Load(w)) && MirrorKept(w) && NoBareUnmount(acts)
    ensures Good(Load(Play(w, acts))) && MirrorKept(Play(w, acts))
    decreases |acts|
  {
    hide Good;
    if acts != [] {
      var w' := Perform(w, acts[0]);
      FreshIsGood();
      if acts[0].Run? {
        InstallOk(w, acts[0].choices);
        RunMirrors(w, 0, acts[0].choices);
      } else {
        assert DoneCount(w') == 0;
      }
      HistoryMirrors(w', acts[1..]);
    }
  }

  // After any history without a bare unmount, a successful run leaves a target on which the
  // first boot finds every step but `unmount` completed, and is accepted by `continue`.
  lemma Handoff(target: Option<Saved>, mounted: bool, acts: seq<Act>, cs: seq<Choice>, calls: Calls)
    requires NoBareUnmount(acts)
    ensures var (w, end) := Install(Play(World(None, target, mounted, []), acts), cs);
            end == AllDone ==> Ready(w.target) && Continue(FirstBoot(w), calls).1 != Rejected
  {
    hide Good;
    hide RunFrom;
    var w0 := World(None, target, mounted, []);
    FreshIsGood();
    HistoryMirrors(w0, acts);
    var w1 := Play(w0, acts);
    InstallOk(w1, cs);
    RunMirrors(w1, 0, cs);
    hide Continue;
    if Install(w1, cs).1 == AllDone {
      AcceptsReady(Install(w1, cs).0, calls);
    }
  }

  lemma AcceptsReady(w: World, calls: Calls)
    requires Ready(w.target)
    ensures Continue(FirstBoot(w), calls).1 != Rejected
  {
    hide Tolerant;
    hide MarkStarted;
    hide MarkDone;
    hide MarkFailed;
  }

  // ---- when the handoff fails ----

  ghost predicate Cut(s: Sys, target: Option<Saved>) { !s.world.mounted && s.world.target == target }

  lemma MarksCut(s: Sys, step: string, target: Option<Saved>)
    requires Cut(s, target)
    ensures Cut(MarkStarted(s, step), target) && Cut(MarkDone(s, step), target) && Cut(Save(s), target)
  {}

  lemma EffectCut(s: Sys, k: nat, c: Choice, target: Option<Saved>)
    requires Cut(s, target) && MOUNT < k < |STEPS|
    ensures Cut(Effect(s, STEPS[k], c), target)
  {
    StepsDistinct();
    assert STEPS[1] == "disk_select" && STEPS[2] == "format" && STEPS[MOUNT] == "mount";
  }

  // With mount completed and the target not mounted, nothing reaches the target any more.
  lemma UnmountedStep(w: World, c: Choice)
    requires Good(Load(w)) && MOUNT < DoneCount(w) < |STEPS| && !w.mounted
    ensures var (s, end) := RunStep(Sys(Load(w), w), STEPS[DoneCount(w)], c);
            Cut(s, w.target) && Cut(Save(s), w.target)
  {
    var k := DoneCount(w);
    var s0, step := Sys(Load(w), w), STEPS[k];
    MarksCut(s0, step, w.target);
    var s1 := MarkStarted(s0, step);
    EffectCut(s1, k, c, w.target);
    var s2 := Effect(s1, step, c);
    MarksCut(s1, step, w.target);
    MarksCut(s2, step, w.target);
    hide Good;
    hide MarkStarted;
    hide MarkDone;
    hide Effect;
    MarksCut(RunStep(s0, step, c).0, step, w.target);
  }

  lemma {:induction false} UnmountedRun(w: World, k: nat, cs: seq<Choice>)
    requires Good(Load(w)) && MOUNT < DoneCount(w) && k <= DoneCount(w) && !w.mounted
    ensures RunFrom(Sys(Load(w), w), k, cs).0.world.target == w.target
    decreases |STEPS| - k
  {
    hide RunStep;
    hide StepOk;
    hide Good;
    hide Save;
    assert DoneCount(w) <= |STEPS| by { GoodBound(Load(w)); }
    if k < |STEPS| {
      StepDoneAt(Load(w), k);
      if k < DoneCount(w) {
        UnmountedRun(w, k + 1, cs);
      } else if cs != [] {
        var (s, end) := RunStep(Sys(Load(w), w), STEPS[k], cs[0]);
        OneStepOk(w, cs[0]);
        UnmountedStep(w, cs[0]);
        if end == StepDone {
          StepDoneFacts(w, s);
          UnmountedRun(s.world, k + 1, cs[1..]);
        }
      }
    }
  }

  // One step left: what is saved on the way reaches the target while it is mounted.
  lemma LastStep(w: World, cs: seq<Choice>)
    requires Good(Load(w)) && DoneCount(w) == UNMOUNT && w.mounted
    ensures var (w', end) := Install(w, cs);
            end == AllDone ==> Ready(w'.target)
  {
    hide RunFrom;
    var s := Sys(Load(w), w);
    SkipDone(w, 0, cs);
    if cs != [] {
      StepDoneAt(Load(w), UNMOUNT);
      var (s', end) := RunStep(s, STEPS[UNMOUNT], cs[0]);
      LastTurn(s, cs);
      OneStepOk(w, cs[0]);
      LastStepMirrors(w, cs[0]);
    } else {
      StepDoneAt(Load(w), UNMOUNT);
      NoChoice(s);
    }
  }

  lemma NoChoice(s: Sys)
    requires STEPS[UNMOUNT] !in s.mem.completed
    ensures RunFrom(s, UNMOUNT, []) == (s, Aborted)
  {}

  // The steps that are completed are passed over.
  lemma {:induction false} SkipDone(w: World, k: nat, cs: seq<Choice>)
    requires Good(Load(w)) && k <= DoneCount(w)
    ensures DoneCount(w) <= |STEPS|
    ensures RunFrom(Sys(Load(w), w), k, cs) == RunFrom(Sys(Load(w), w), DoneCount(w), cs)
    decreases |STEPS| - k
  {
    GoodBound(Load(w));
    hide Good;
    hide RunStep;
    if k < DoneCount(w) {
      StepDoneAt(Load(w), k);
      SkipDone(w, k + 1, cs);
    }
  }

  lemma LastTurn(s: Sys, cs: seq<Choice>)
    requires STEPS[UNMOUNT] !in s.mem.completed && cs != []
    ensures var (s', end) := RunStep(s, STEPS[UNMOUNT], cs[0]);
            RunFrom(s, UNMOUNT, cs).1 == AllDone ==> RunFrom(s, UNMOUNT, cs).0 == s'
  {
    hide RunStep;
  }

  lemma LastStepMirrors(w: World, c: Choice)
    requires Good(Load(w)) && DoneCount(w) == UNMOUNT && w.mounted
    ensures Ready(RunStep(Sys(Load(w), w), STEPS[UNMOUNT], c).0.world.target)
  {
    hide Good;
    hide Ready;
    var s0, step := Sys(Load(w), w), STEPS[UNMOUNT];
    FreshStep(w);
    StartOk(Load(w), s0, step);
    var s1 := MarkStarted(s0, step);
    StartedReaches(Load(w), s0, step);
    assert SysOk(Load(w), s1);
    EffectOk(Load(w), s1, UNMOUNT, c);
    EffectReady(Load(w), s1, c);
    if c.outcome.Success? {
      DoneOk(Load(w), Effect(s1, step, c), UNMOUNT);
      DoneReady(Load(w), Effect(s1, step, c));
    }
    hide Effect;
    hide MarkStarted;
    hide MarkDone;
    hide SysOk;
  }

  lemma StartedReaches(m0: Saved, s: Sys, step: string)
    requires SysOk(m0, s) && |s.mem.completed| == UNMOUNT && s.world.mounted
    ensures Ready(MarkStarted(s, step).world.target)
  {
    StartOk(m0, s, step);
    hide Good;
    ReadyMem(MarkStarted(s, step).mem);
  }

  lemma EffectReady(m0: Saved, s: Sys, c: Choice)
    requires SysOk(m0, s) && |s.mem.completed| == UNMOUNT && Ready(s.world.target)
    ensures Ready(Effect(s, STEPS[UNMOUNT], c).world.target)
  {
    EffectOk(m0, s, UNMOUNT, c);
    StepsDistinct();
    assert STEPS[1] == "disk_select" && STEPS[2] == "format" && STEPS[AGENT] == "continuation_agent";
    hide Good;
    hide Ready;
    ReadyMem(Effect(s, STEPS[UNMOUNT], c).mem);
  }

  lemma DoneReady(m0: Saved, s: Sys)
    requires SysOk(m0, s) && |s.mem.completed| == UNMOUNT && Ready(s.world.target)
    ensures Ready(MarkDone(s, STEPS[UNMOUNT]).world.target)
  {
    DoneOk(m0, s, UNMOUNT);
    PrefixLength(UNMOUNT + 1);
    hide Good;
    ReadyMem(MarkDone(s, STEPS[UNMOUNT]).mem);
  }

  lemma NothingLeft(w: World, cs: seq<Choice>)
    requires Good(Load(w)) && DoneCount(w) == |STEPS|
    ensures Install(w, cs).0 == w
  {
    SkipDone(w, 0, cs);
  }

  // A run that finishes hands the state over exactly when it had the mount step still to do, when
  // the target held a finished copy already, or when the target was mounted with a step left to do.
  lemma ResumedHandoff(w: World, cs: seq<Choice>)
    requires Good(Load(w))
    ensures var (w', end) := Install(w, cs);
            end == AllDone ==>
              (Ready(w'.target) <==> DoneCount(w) <= MOUNT || Ready(w.target) || (w.mounted && DoneCount(w) < |STEPS|))
  {
    GoodBound(Load(w));
    hide Good;
    hide Ready;
    hide RunFrom;
    InstallOk(w, cs);
    if DoneCount(w) <= MOUNT || (w.mounted && DoneCount(w) <= AGENT) {
      RunMirrors(w, 0, cs);
    } else if DoneCount(w) == |STEPS| {
      NothingLeft(w, cs);
    } else if w.mounted {
      LastStep(w, cs);
    } else {
      UnmountedRun(w, 0, cs);
    }
  }

  lemma SuccessIsDone(s: Sys, step: string, c: Choice)
    requires c.outcome.Success?
    ensures RunStep(s, step, c).1 == StepDone
  {
    hide Effect;
    hide MarkStarted;
    hide MarkDone;
  }

  // Steps that all succeed finish the run, wherever it resumes.
  lemma {:induction false} SuccessFinishes(w: World, k: nat, cs: seq<Choice>)
    requires Good(Load(w)) && k <= DoneCount(w) && |cs| >= |STEPS| - DoneCount(w)
    requires forall i | 0 <= i < |cs| :: cs[i].outcome.Success?
    ensures RunFrom(Sys(Load(w), w), k, cs).1 == AllDone
    decreases |STEPS| - k
  {
    hide StepOk;
    hide Good;
    hide RunStep;
    assert DoneCount(w) <= |STEPS| by { GoodBound(Load(w)); }
    if k < |STEPS| {
      StepDoneAt(Load(w), k);
      if k < DoneCount(w) {
        SuccessFinishes(w, k + 1, cs);
      } else {
        var (s, end) := RunStep(Sys(Load(w), w), STEPS[k], cs[0]);
        OneStepOk(w, cs[0]);
        SuccessIsDone(Sys(Load(w), w), STEPS[k], cs[0]);
        StepDoneFacts(w, s);
        SuccessFinishes(s.world, k + 1, cs[1..]);
      }
    }
  }

  // A first boot is accepted exactly when the target holds a copy in one of two phases.
  lemma AcceptedPhases(w: World, calls: Calls)
    ensures Continue(FirstBoot(w), calls).1 == Rejected
       <==> w.target.None? || w.target.value.phase !in {Stage1Complete, Stage3}
  {
    hide Tolerant;
    hide MarkStarted;
    hide MarkDone;
    hide MarkFailed;
  }

  // A target unmounted behind the installer's back: the next run succeeds in every step, and the
  // first boot is rejected exactly when the copy left on the target had not reached its phase.
  lemma BareUnmountLosesTarget(w: World, cs: seq<Choice>, calls: Calls)
    requires Good(Load(w)) && MOUNT < DoneCount(w)
    requires |cs| == |STEPS| && forall i | 0 <= i < |cs| :: cs[i].outcome.Success?
    ensures var (w', end) := Install(Perform(w, Unmounted), cs);
            && end == AllDone
            && (Continue(FirstBoot(w'), calls).1 == Rejected
                <==> w.target.None? || w.target.value.phase !in {Stage1Complete, Stage3})
  {
    var w' := Perform(w, Unmounted);
    assert Load(w') == Load(w);
    SuccessFinishes(w', 0, cs);
    UnmountedRun(w', 0, cs);
    hide RunFrom;
    hide Continue;
    AcceptedPhases(Install(w', cs).0, calls);
  }

  // ---- histories that reach it ----

  ghost predicate AllSucceed(cs: seq<Choice>) { forall i | 0 <= i < |cs| :: cs[i].outcome.Success? }

  // While it is mounted, the target's copy is the live one.
  ghost predicate InStep(w: World) { w.mounted ==> w.target == w.live }

  lemma SuccessInStep(w: World, c: Choice)
    requires Good(Load(w)) && DoneCount(w) < |STEPS| && c.outcome.Success?
    ensures InStep(RunStep(Sys(Load(w), w), STEPS[DoneCount(w)], c).0.world)
  {
    NotDoneYet(DoneCount(w));
    hide Effect;
    hide MarkStarted;
  }

  // Steps that all succeed are completed one by one.
  lemma {:induction false} SuccessesCount(w: World, k: nat, cs: seq<Choice>)
    requires Good(Load(w)) && k <= DoneCount(w) && DoneCount(w) + |cs| < |STEPS| && AllSucceed(cs) && InStep(w)
    ensures var w' := RunFrom(Sys(Load(w), w), k, cs).0.world;
            Good(Load(w')) && DoneCount(w') == DoneCount(w) + |cs| && InStep(w')
    decreases |STEPS| - k
  {
    hide StepOk;
    hide Good;
    hide RunStep;
    hide InStep;
    StepDoneAt(Load(w), k);
    if k < DoneCount(w) {
      SuccessesCount(w, k + 1, cs);
    } else if cs != [] {
      var s := RunStep(Sys(Load(w), w), STEPS[k], cs[0]).0;
      OneStepOk(w, cs[0]);
      SuccessIsDone(Sys(Load(w), w), STEPS[k], cs[0]);
      SuccessInStep(w, cs[0]);
      StepDoneFacts(w, s);
      SuccessesCount(s.world, k + 1, cs[1..]);
    }
  }

  // After a first run that got past the mount step and not to the agent step, an unmount and a run
  // without any error leave a target that the first boot rejects.
  lemma RejectedAfterUnmount(target: Option<Saved>, before: seq<Choice>, after: seq<Choice>, calls: Calls)
    requires MOUNT < |before| < AGENT && AllSucceed(before)
    requires |after| == |STEPS| && AllSucceed(after)
    ensures var w := Play(World(None, target, false, []), [Run(before), Unmounted]);
            var (w', end) := Install(w, after);
            end == AllDone && Continue(FirstBoot(w'), calls).1 == Rejected
  {
    var w0 := World(None, target, false, []);
    var w1 := Install(w0, before).0;
    FreshIsGood();
    SuccessesCount(w0, 0, before);
    RunMirrors(w0, 0, before);
    EarlyPhase(Load(w1));
    hide RunFrom;
    hide Continue;
    hide Good;
    var acts := [Run(before), Unmounted];
    assert acts[1..] == [Unmounted] && acts[1..][1..] == [];
    assert Play(w0, acts) == Play(w1, acts[1..]) == Perform(w1, Unmounted);
    BareUnmountLosesTarget(w1, after, calls);
  }

  lemma EarlyPhase(m: Saved)
    requires Good(m) && |m.completed| < AGENT
    ensures m.phase == Stage1
  {}

  // The agent step interrupted after it saved its phase.
  lemma AgentStep(s: Sys, c: Choice)
    requires STEPS[AGENT] !in s.mem.completed && s.world.mounted
    requires c.outcome.Interrupted? && c.phaseSet && c.saved
    ensures var s' := Save(RunStep(s, STEPS[AGENT], c).0);
            && s'.mem.completed == s.mem.completed && s'.mem.phase == Stage1Complete
            && s'.world.target == s'.world.live == Some(s'.mem)
  {
    assert STEPS[AGENT] == "continuation_agent";
  }

  lemma InterruptedTurn(s: Sys, c: Choice)
    requires STEPS[AGENT] !in s.mem.completed && c.outcome.Interrupted?
    ensures RunFrom(s, AGENT, [c]) == (Save(RunStep(s, STEPS[AGENT], c).0), Aborted)
  {
    hide Save;
    hide MarkStarted;
    hide Effect;
  }

  // A copy that holds too few completed steps.
  predicate IsStale(target: Option<Saved>) {
    target.Some? && target.value.phase == Stage1Complete && |target.value.completed| < UNMOUNT
  }

  lemma AgentInterrupted(w: World, c: Choice)
    requires Good(Load(w)) && DoneCount(w) == AGENT && w.mounted
    requires c.outcome.Interrupted? && c.phaseSet && c.saved
    ensures var w' := Install(w, [c]).0;
            Good(Load(w')) && DoneCount(w') == AGENT && IsStale(w'.target)
  {
    var s := Sys(Load(w), w);
    InstallOk(w, [c]);
    SkipDone(w, 0, [c]);
    StepDoneAt(Load(w), AGENT);
    hide Good;
    hide RunFrom;
    hide RunStep;
    AgentStep(s, c);
    InterruptedTurn(s, c);
  }

  lemma StaleNotReady(target: Option<Saved>)
    requires IsStale(target)
    ensures !Ready(target)
  {}

  lemma PlayLast(w: World, acts: seq<Act>, a: Act)
    ensures Play(w, acts + [a]) == Perform(Play(w, acts), a)
    decreases |acts|
  {
    hide Perform;
    if acts == [] {
      assert ([] + [a])[0] == a && ([] + [a])[1..] == [];
    } else {
      assert (acts + [a])[1..] == acts[1..] + [a];
      PlayLast(Perform(w, acts[0]), acts[1..], a);
    }
  }

  // An installation interrupted in the agent step, by a process that has the target mounted.
  lemma InterruptedInstall(target: Option<Saved>, before: seq<Choice>, c: Choice)
    requires |before| == AGENT && AllSucceed(before)
    requires c.outcome.Interrupted? && c.phaseSet && c.saved
    ensures var w := Play(World(None, target, false, []), [Run(before)] + [Run([c])]);
            Good(Load(w)) && DoneCount(w) == AGENT && IsStale(w.target)
  {
    var w0 := World(None, target, false, []);
    FreshIsGood();
    SuccessesCount(w0, 0, before);
    RunMirrors(w0, 0, before);
    hide Good;
    hide RunFrom;
    hide IsStale;
    var w1 := Install(w0, before).0;
    AgentInterrupted(w1, c);
    PlayLast(w0, [Run(before)], Run([c]));
    assert Play(w0, [Run(before)]) == w1 by { assert [Run(before)][1..] == []; }
  }

  // A copy left by an interrupted agent step is accepted by the first boot though the agent step,
  // like every later one, is missing from it.
  lemma StaleCopyAccepted(target: Option<Saved>, before: seq<Choice>, c: Choice, after: seq<Choice>, calls: Calls)
    requires |before| == AGENT && AllSucceed(before)
    requires c.outcome.Interrupted? && c.phaseSet && c.saved
    requires |after| == |STEPS| && AllSucceed(after)
    ensures var w := Play(World(None, target, false, []), [Run(before)] + [Run([c])] + [Unmounted]);
            var (w', end) := Install(w, after);
            end == AllDone && Continue(FirstBoot(w'), calls).1 != Rejected && !Ready(w'.target)
  {
    var w0 := World(None, target, false, []);
    InterruptedInstall(target, before, c);
    PlayLast(w0, [Run(before)] + [Run([c])], Unmounted);
    var w := Play(w0, [Run(before)] + [Run([c])]);
    hide Play;
    hide Install;
    hide Continue;
    hide Good;
    hide Ready;
    StaleNotReady(w.target);
    BareUnmountLosesTarget(w, after, calls);
    ResumedHandoff(Perform(w, Unmounted), after);
  }

  lemma KilledStep(s: Sys, c: Choice)
    requires STEPS[AGENT] !in s.mem.completed && c.outcome.Killed? && c.phaseSet
    ensures RunStep(s, STEPS[AGENT], c).1 == StepKilled
    ensures Load(RunStep(s, STEPS[AGENT], c).0.world).phase == if c.saved then Stage1Complete else s.mem.phase
  {
    assert STEPS[AGENT] == "continuation_agent";
  }

  // A process that dies in the agent step has reached its phase, for whoever loads the state next,
  // exactly when it got as far as saving it.
  lemma KilledInAgentStep(w: World, c: Choice)
    requires Good(Load(w)) && DoneCount(w) == AGENT && c.outcome.Killed? && c.phaseSet
    ensures Load(Install(w, [c]).0).phase == if c.saved then Stage1Complete else Load(w).phase
  {
    var s := Sys(Load(w), w);
    SkipDone(w, 0, [c]);
    StepDoneAt(Load(w), AGENT);
    KilledStep(s, c);
    hide Good;
    hide RunStep;
    assert RunFrom(s, AGENT, [c]) == (RunStep(s, STEPS[AGENT], c).0, Aborted);
  }
}
