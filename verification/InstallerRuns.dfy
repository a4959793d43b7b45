/** What holds of every history of installer runs. */
module InstallerRuns {
  import opened InstallerSpec
  import opened Wrappers

  // ---- the state every run starts from and leaves behind ----

  // The first k stage-1 steps.
  function Prefix(k: nat): seq<string>
    requires k <= |STEPS|
  {
    STEPS[..k]
  }

  lemma StepsDistinct()
    ensures forall i, j | 0 <= i < j < |STEPS| :: STEPS[i] != STEPS[j]
  {}

  // Stage 1: the completed steps are a prefix of the order, and the phase is set exactly around the agent step.
  ghost predicate Good(m: Saved) {
    && |m.completed| <= |STEPS|
    && m.completed == Prefix(|m.completed|)
    && m.phase in {Stage1, Stage1Complete}
    && (|m.completed| > AGENT ==> m.phase == Stage1Complete)
    && (m.phase == Stage1Complete ==> |m.completed| >= AGENT)
    && m.log == LastMessages(m.history)
  }

  lemma NotDoneYet(k: nat)
    requires k < |STEPS|
    ensures STEPS[k] !in STEPS[..k]
  {
    StepsDistinct();
  }

  // The log is the end of all messages: all of them up to 500, and then the last 500.
  lemma LogIsEnd(ms: seq<Message>)
    ensures exists earlier :: ms == earlier + LastMessages(ms)
    ensures |LastMessages(ms)| == if |ms| < 500 then |ms| else 500
  {
    var earlier := ms[..|ms| - |LastMessages(ms)|];
    assert ms == earlier + LastMessages(ms);
  }

  lemma LogOneMore(ms: seq<Message>, msg: Message)
    ensures LastMessages(LastMessages(ms) + [msg]) == LastMessages(ms + [msg])
  {}

  function Rank(p: Phase): nat {
    match p
    case Stage1 => 0
    case Stage1Complete => 1
    case Stage3 => 2
    case Complete => 3
  }

  // Nothing completed is forgotten and the phase does not fall back.
  ghost predicate Ahead(m: Saved, m': Saved) {
    m.completed <= m'.completed && Rank(m.phase) <= Rank(m'.phase)
  }

  function DoneCount(w: World): nat { |Load(w).completed| }

  // ---- one step ----

  // The world once run_step is over: an interrupt saves what is in memory.
  function AfterStep(s: Sys, end: StepEnd): World {
    if end == StepInterrupt then Save(s).world else s.world
  }

  // Memory and live copy are good and not behind the state the run started from.
  ghost predicate SysOk(m0: Saved, s: Sys) {
    && Good(s.mem) && Ahead(m0, s.mem)
    && Good(Load(s.world)) && Ahead(m0, Load(s.world))
  }

  lemma StartOk(m0: Saved, s: Sys, step: string)
    requires SysOk(m0, s)
    ensures SysOk(m0, MarkStarted(s, step))
    ensures MarkStarted(s, step).mem.completed == s.mem.completed
  {
    LogOneMore(s.mem.history, Start(step));
  }

  lemma EffectOk(m0: Saved, s: Sys, k: nat, c: Choice)
    requires SysOk(m0, s) && k < |STEPS| && |s.mem.completed| == k
    ensures var s' := Effect(s, STEPS[k], c);
            && SysOk(m0, s') && s'.mem.completed == s.mem.completed
            && s'.world.executed == s.world.executed + [Execution(STEPS[k], Prefix(k))]
            && (c.outcome.Ran() && k >= AGENT ==> s'.mem.phase == Stage1Complete)
  {
    StepsDistinct();
    assert STEPS[AGENT] == "continuation_agent";
  }

  lemma LateOk(m0: Saved, s: Sys, k: nat)
    requires SysOk(m0, s) && k < |STEPS| && |s.mem.completed| == k
    requires k >= AGENT ==> s.mem.phase == Stage1Complete
    ensures WithDone(s.mem.completed, STEPS[k]) == Prefix(k + 1)
    ensures SysOk(m0, s.(mem := s.mem.(completed := WithDone(s.mem.completed, STEPS[k]))))
  {
    NotDoneYet(k);
  }

  lemma DoneOk(m0: Saved, s: Sys, k: nat)
    requires SysOk(m0, s) && k < |STEPS| && |s.mem.completed| == k
    requires k >= AGENT ==> s.mem.phase == Stage1Complete
    ensures SysOk(m0, MarkDone(s, STEPS[k]))
    ensures MarkDone(s, STEPS[k]).mem.completed == Prefix(k + 1)
  {
    NotDoneYet(k);
    LogOneMore(s.mem.history, Done(STEPS[k]));
  }

  // Good in memory, good on disk, and at most one execute call more.
  ghost predicate StepOk(w: World, s: Sys, end: StepEnd) {
    var k := DoneCount(w);
    && k < |STEPS|
    && SysOk(Load(w), s)
    && (s.world.executed == w.executed || s.world.executed == w.executed + [Execution(STEPS[k], Prefix(k))])
    && (end == StepDone ==> s.mem == Load(s.world) && |s.mem.completed| == k + 1)
  }

  lemma OneStepOk(w: World, c: Choice)
    requires Good(Load(w)) && DoneCount(w) < |STEPS|
    ensures var (s, end) := RunStep(Sys(Load(w), w), STEPS[DoneCount(w)], c);
            StepOk(w, s, end)
  {
    hide SysOk;
    hide Effect;
    hide MarkStarted;
    hide MarkDone;
    hide Good;
    hide Prefix;
    var k, m0 := DoneCount(w), Load(w);
    var s0, step := Sys(m0, w), STEPS[k];
    FreshStep(w);
    StartOk(m0, s0, step);
    var s1 := MarkStarted(s0, step);
    SavedMarks(s0, step);
    EffectOk(m0, s1, k, c);
    if c.outcome.Ran() {
      var s2 := Effect(s1, step, c);
      LateOk(m0, s2, k);
      DoneOk(m0, s2, k);
      SavedMarks(s2, step);
      PrefixLength(k + 1);
    }
  }

  lemma FreshStep(w: World)
    requires Good(Load(w)) && DoneCount(w) < |STEPS|
    ensures STEPS[DoneCount(w)] !in Load(w).completed && SysOk(Load(w), Sys(Load(w), w))
  {
    NotDoneYet(DoneCount(w));
  }

  lemma SavedMarks(s: Sys, step: string)
    ensures MarkStarted(s, step).world.executed == MarkDone(s, step).world.executed == s.world.executed
    ensures MarkDone(s, step).mem == Load(MarkDone(s, step).world)
  {}

  lemma PrefixLength(k: nat)
    requires k <= |STEPS|
    ensures |Prefix(k)| == k
  {}

  // ---- whole runs ----

  // An execute call of the j-th step, with exactly the steps before it completed.
  ghost predicate InOrder(e: Execution, from_: nat) {
    exists j :: from_ <= j < |STEPS| && e == Execution(STEPS[j], Prefix(j))
  }

  // From w to w' nothing is forgotten, and only steps not completed in w were executed.
  ghost predicate Progress(w: World, w': World) {
    && Good(Load(w')) && Ahead(Load(w), Load(w'))
    && w.executed <= w'.executed
    && forall i | |w.executed| <= i < |w'.executed| :: InOrder(w'.executed[i], DoneCount(w))
  }

  lemma ProgressStep(w: World, s: Sys, end: StepEnd)
    requires StepOk(w, s, end)
    ensures Progress(w, AfterStep(s, end)) && Progress(w, s.world)
  {
    hide Good;
    hide Prefix;
    var k := DoneCount(w);
    assert InOrder(Execution(STEPS[k], Prefix(k)), k);
  }

  lemma ProgressTransitive(w: World, w1: World, w2: World)
    requires Progress(w, w1) && Progress(w1, w2)
    ensures Progress(w, w2)
  {
    hide Good;
    forall i | |w.executed| <= i < |w2.executed| ensures InOrder(w2.executed[i], DoneCount(w)) {
      if i < |w1.executed| {
        assert w2.executed[i] == w1.executed[i];
      } else {
        assert InOrder(w2.executed[i], DoneCount(w1));
      }
    }
  }

  lemma ProgressNone(w: World)
    requires Good(Load(w))
    ensures Progress(w, w)
  {}

  lemma StepDoneAt(m: Saved, k: nat)
    requires Good(m) && k < |STEPS|
    ensures STEPS[k] in m.completed <==> k < |m.completed|
  {
    StepsDistinct();
  }

  lemma {:induction false} RunOk(w: World, k: nat, cs: seq<Choice>)
    requires Good(Load(w)) && k <= DoneCount(w)
    ensures var (s, end) := RunFrom(Sys(Load(w), w), k, cs);
            Progress(w, s.world) && (end == AllDone ==> s.mem == Load(s.world) && DoneCount(s.world) == |STEPS|)
    decreases |STEPS| - k
  {
    hide RunStep;
    hide Progress;
    hide StepOk;
    hide Good;
    hide Save;
    assert DoneCount(w) <= |STEPS| by { GoodBound(Load(w)); }
    ProgressNone(w);
    if k < |STEPS| {
      StepDoneAt(Load(w), k);
      if k < DoneCount(w) {
        RunOk(w, k + 1, cs);
      } else if cs != [] {
        var (s, end) := RunStep(Sys(Load(w), w), STEPS[k], cs[0]);
        OneStepOk(w, cs[0]);
        ProgressStep(w, s, end);
        if end == StepDone {
          StepDoneFacts(w, s);
          RunOk(s.world, k + 1, cs[1..]);
          ProgressTransitive(w, s.world, RunFrom(s, k + 1, cs[1..]).0.world);
        }
      }
    }
  }

  lemma GoodBound(m: Saved)
    requires Good(m)
    ensures |m.completed| <= |STEPS|
  {}

  lemma StepDoneFacts(w: World, s: Sys)
    requires StepOk(w, s, StepDone)
    ensures s == Sys(Load(s.world), s.world) && Good(Load(s.world)) && DoneCount(s.world) == DoneCount(w) + 1
  {}

  lemma InstallOk(w: World, cs: seq<Choice>)
    requires Good(Load(w))
    ensures var (w', end) := Install(w, cs);
            Progress(w, w') && (end == AllDone ==> DoneCount(w') == |STEPS|)
  {
    RunOk(w, 0, cs);
  }

  // ---- every history ----

  lemma FreshIsGood()
    ensures Good(FRESH)
  {}

  ghost predicate AllInOrder(es: seq<Execution>) { forall i | 0 <= i < |es| :: InOrder(es[i], 0) }

  // In every history, losses, reboots and unmounts included, the saved state is good, and each
  // step was executed only when exactly the steps before it were completed.
  lemma {:induction false} HistoryInOrder(w: World, acts: seq<Act>)
    requires Good(Load(w)) && AllInOrder(w.executed)
    ensures Good(Load(Play(w, acts))) && AllInOrder(Play(w, acts).executed)
    decreases |acts|
  {
    hide Good;
    if acts != [] {
      var w' := Perform(w, acts[0]);
      FreshIsGood();
      if acts[0].Run? {
        InstallOk(w, acts[0].choices);
        forall i | 0 <= i < |w'.executed| ensures InOrder(w'.executed[i], 0) {
          if i < |w.executed| {
            assert w'.executed[i] == w.executed[i];
          } else {
            assert InOrder(w'.executed[i], DoneCount(w));
          }
        }
      }
      HistoryInOrder(w', acts[1..]);
    }
  }

  ghost predicate KeepsState(acts: seq<Act>) {
    forall i | 0 <= i < |acts| :: acts[i].Run? || acts[i].Unmounted?
  }

  // As long as the live copy survives, nothing completed is forgotten, no completed step is
  // executed again, and the phase does not fall back.
  lemma {:induction false} HistoryProgress(w: World, acts: seq<Act>)
    requires Good(Load(w)) && KeepsState(acts)
    ensures Progress(w, Play(w, acts))
    decreases |acts|
  {
    hide Progress;
    if acts == [] {
      ProgressNone(w);
    } else {
      var w' := Perform(w, acts[0]);
      if acts[0].Run? {
        InstallOk(w, acts[0].choices);
      } else {
        UnmountProgress(w);
      }
      assert Good(Load(w')) by { ProgressGood(w, w'); }
      HistoryProgress(w', acts[1..]);
      ProgressTransitive(w, w', Play(w', acts[1..]));
    }
  }

  lemma ProgressGood(w: World, w': World)
    requires Progress(w, w')
    ensures Good(Load(w'))
  {}

  lemma UnmountProgress(w: World)
    requires Good(Load(w))
    ensures Progress(w, w.(mounted := false))
  {}

  // In words of single steps: a step completed at some point of a history is not executed later in it.
  lemma CompletedNotExecutedAgain(w: World, acts: seq<Act>, i: nat)
    requires Good(Load(w)) && KeepsState(acts)
    requires |w.executed| <= i < |Play(w, acts).executed|
    ensures Play(w, acts).executed[i].step !in Load(w).completed
  {
    HistoryProgress(w, acts);
    var e := Play(w, acts).executed[i];
    var j :| DoneCount(w) <= j < |STEPS| && e == Execution(STEPS[j], Prefix(j));
    StepDoneAt(Load(w), j);
  }

  // ---- exactly when completed steps run again ----

  ghost predicate Loses(a: Act) { a.LoseState? || a.Reboot? }

  // A run whose process gets as far as executing a step, whatever comes of that.
  ghost predicate Starts(a: Act) { a.Run? && a.choices != [] && !a.choices[0].outcome.InterruptedEarly? }

  ghost predicate SomeStarts(acts: seq<Act>) { exists j :: 0 <= j < |acts| && Starts(acts[j]) }

  // The live copy is lost, and some later run executes a step.
  ghost predicate StartsAfterLoss(acts: seq<Act>) {
    exists i, j :: 0 <= i < j < |acts| && Loses(acts[i]) && Starts(acts[j])
  }

  // From w to w', one of the first n steps was executed.
  ghost predicate Executes(w: World, w': World, n: nat)
    requires n <= |STEPS|
  {
    exists i :: |w.executed| <= i < |w'.executed| && w'.executed[i].step in Prefix(n)
  }

  lemma {:induction false} RunKeepsExecuted(s: Sys, k: nat, cs: seq<Choice>)
    requires k <= |STEPS|
    ensures s.world.executed <= RunFrom(s, k, cs).0.world.executed
    decreases |STEPS| - k
  {
    hide RunStep;
    hide Save;
    if k < |STEPS| && STEPS[k] in s.mem.completed {
      RunKeepsExecuted(s, k + 1, cs);
    } else if k < |STEPS| && cs != [] {
      var (s', end) := RunStep(s, STEPS[k], cs[0]);
      StepExecutes(s, STEPS[k], cs[0]);
      RunKeepsExecuted(s', k + 1, cs[1..]);
      SaveKeepsExecuted(s');
    }
  }

  lemma SaveKeepsExecuted(s: Sys)
    ensures Save(s).world.executed == s.world.executed
  {}

  // A step that is not completed is executed unless it is interrupted early.
  lemma StepExecutes(s: Sys, step: string, c: Choice)
    requires step !in s.mem.completed
    ensures RunStep(s, step, c).0.world.executed
         == s.world.executed
            + (if c.outcome.InterruptedEarly? then [] else [Execution(step, s.mem.completed)])
  {}

  lemma {:induction false} PlayKeepsExecuted(w: World, acts: seq<Act>)
    ensures w.executed <= Play(w, acts).executed
    decreases |acts|
  {
    if acts != [] {
      if acts[0].Run? {
        RunKeepsExecuted(Sys(Load(w), w), 0, acts[0].choices);
      }
      PlayKeepsExecuted(Perform(w, acts[0]), acts[1..]);
    }
  }

  // The first run after a loss executes the first step, or nothing.
  lemma FirstExecution(w: World, cs: seq<Choice>)
    requires Good(Load(w)) && DoneCount(w) == 0
    ensures var w' := Install(w, cs).0;
            && (Starts(Run(cs)) ==> w.executed + [Execution(STEPS[0], [])] <= w'.executed)
            && (!Starts(Run(cs)) ==> w'.executed == w.executed && DoneCount(w') == 0)
  {
    var s := Sys(Load(w), w);
    assert s.mem.completed == [];
    if cs != [] {
      var (s', end) := RunStep(s, STEPS[0], cs[0]);
      StepExecutes(s, STEPS[0], cs[0]);
      if Starts(Run(cs)) {
        RunKeepsExecuted(s', 1, cs[1..]);
      }
      hide RunFrom;
      FirstTurn(s, cs);
    }
  }

  lemma FirstTurn(s: Sys, cs: seq<Choice>)
    requires s.mem.completed == [] && cs != []
    ensures var (s', end) := RunStep(s, STEPS[0], cs[0]);
            && RunFrom(s, 0, cs) == (match end
                 case StepDone => RunFrom(s', 1, cs[1..])
                 case StepError => (s', Paused)
                 case StepInterrupt => (Save(s'), Aborted)
                 case StepKilled => (s', Aborted))
  {
    hide RunStep;
  }

  // With nothing completed, the first n steps are executed again as soon as a run starts at all.
  lemma {:induction false} AfterLoss(w: World, acts: seq<Act>, n: nat)
    requires Good(Load(w)) && DoneCount(w) == 0 && 0 < n <= |STEPS|
    ensures Executes(w, Play(w, acts), n) <==> SomeStarts(acts)
    decreases |acts|
  {
    hide Good;
    if acts != [] {
      var w' := Perform(w, acts[0]);
      var end := Play(w', acts[1..]);
      FreshIsGood();
      if acts[0].Run? {
        FirstExecution(w, acts[0].choices);
        InstallOk(w, acts[0].choices);
      }
      PlayKeepsExecuted(w', acts[1..]);
      if Starts(acts[0]) {
        assert end.executed[|w.executed|] == Execution(STEPS[0], []);
        assert STEPS[0] == Prefix(n)[0];
      } else {
        AfterLoss(w', acts[1..], n);
        assert SomeStarts(acts) <==> SomeStarts(acts[1..]) by { SomeStartsLater(acts); }
      }
    }
  }

  lemma SomeStartsLater(acts: seq<Act>)
    requires acts != [] && !Starts(acts[0])
    ensures SomeStarts(acts) <==> SomeStarts(acts[1..])
  {
    if SomeStarts(acts) {
      var j :| 0 <= j < |acts| && Starts(acts[j]);
      assert acts[1..][j - 1] == acts[j];
    }
    if SomeStarts(acts[1..]) {
      var j :| 0 <= j < |acts[1..]| && Starts(acts[1..][j]);
      assert acts[j + 1] == acts[1..][j];
    }
  }

  lemma LossLater(acts: seq<Act>)
    requires acts != []
    ensures Loses(acts[0]) ==> (StartsAfterLoss(acts) <==> SomeStarts(acts[1..]))
    ensures !Loses(acts[0]) ==> (StartsAfterLoss(acts) <==> StartsAfterLoss(acts[1..]))
  {
    var rest := acts[1..];
    if StartsAfterLoss(acts) {
      var i, j :| 0 <= i < j < |acts| && Loses(acts[i]) && Starts(acts[j]);
      assert rest[j - 1] == acts[j];
      if i > 0 { assert rest[i - 1] == acts[i]; }
    }
    if Loses(acts[0]) && SomeStarts(rest) {
      var j :| 0 <= j < |rest| && Starts(rest[j]);
      assert acts[j + 1] == rest[j];
    }
    if StartsAfterLoss(rest) {
      var i, j :| 0 <= i < j < |rest| && Loses(rest[i]) && Starts(rest[j]);
      assert acts[i + 1] == rest[i] && acts[j + 1] == rest[j];
    }
  }

  // While the live copy stays, the first n steps are executed later on only if they are in the rest.
  lemma ExecutesLater(w: World, w': World, end: World, n: nat)
    requires Good(Load(w)) && n <= DoneCount(w) && Progress(w, w') && w'.executed <= end.executed
    ensures n <= |STEPS| && (Executes(w, end, n) <==> Executes(w', end, n))
  {
    GoodBound(Load(w));
    if Executes(w, end, n) {
      var i :| |w.executed| <= i < |end.executed| && end.executed[i].step in Prefix(n);
      if i < |w'.executed| {
        assert InOrder(w'.executed[i], DoneCount(w));
        NotInPrefix(w'.executed[i], DoneCount(w), n);
      }
    }
  }

  lemma NotInPrefix(e: Execution, from_: nat, n: nat)
    requires InOrder(e, from_) && n <= from_ && n <= |STEPS|
    ensures e.step !in Prefix(n)
  {
    StepsDistinct();
  }

  // Of the steps completed at some point, one is executed again if and only if the live copy is
  // lost and a later run gets as far as executing a step.
  lemma {:induction false} RepeatsExactly(w: World, acts: seq<Act>, n: nat)
    requires Good(Load(w)) && 0 < n <= DoneCount(w)
    ensures n <= |STEPS| && (Executes(w, Play(w, acts), n) <==> StartsAfterLoss(acts))
    decreases |acts|
  {
    hide Good;
    hide Progress;
    hide Executes;
    hide Install;
    GoodBound(Load(w));
    if acts == [] {
      NothingExecuted(w, n);
    } else {
      var w' := Perform(w, acts[0]);
      var end := Play(w', acts[1..]);
      PlayKeepsExecuted(w', acts[1..]);
      LossLater(acts);
      FreshIsGood();
      if Loses(acts[0]) {
        AfterLoss(w', acts[1..], n);
        SameExecuted(w, w', end, n);
      } else {
        if acts[0].Run? {
          InstallOk(w, acts[0].choices);
        } else {
          UnmountProgress(w);
        }
        ProgressFacts(w, w');
        RepeatsExactly(w', acts[1..], n);
        ExecutesLater(w, w', end, n);
      }
    }
  }

  lemma NothingExecuted(w: World, n: nat)
    requires n <= |STEPS|
    ensures !Executes(w, w, n)
  {}

  lemma SameExecuted(w: World, w': World, end: World, n: nat)
    requires n <= |STEPS| && w.executed == w'.executed
    ensures Executes(w, end, n) == Executes(w', end, n)
  {}

  lemma ProgressFacts(w: World, w': World)
    requires Progress(w, w')
    ensures Good(Load(w')) && DoneCount(w) <= DoneCount(w')
  {}

  // Losing the live copy is what makes a completed step run again.
  lemma LossRepeatsSteps(c: Choice)
    requires c.outcome.Success?
    ensures var once := Play(World(None, None, false, []), [Run([c])]);
            var twice := Play(once, [LoseState, Run([c])]);
            && Load(once).completed == ["hardware_detect"]
            && |twice.executed| == 2 && twice.executed[1].step == "hardware_detect"
  {
    var w := World(None, None, false, []);
    FirstStep(w, c);
    var once := Install(w, [c]).0;
    var lost := once.(live := None);
    FirstStep(lost, c);
    assert Play(w, [Run([c])]) == once by { assert [Run([c])][1..] == []; }
    var acts := [LoseState, Run([c])];
    assert acts[1..] == [Run([c])] && acts[1..][1..] == [];
    assert Play(once, acts) == Play(lost, acts[1..]) == Install(lost, [c]).0;
  }

  // A first step alone, from no saved state.
  lemma FirstStep(w: World, c: Choice)
    requires c.outcome.Success? && w.live.None?
    ensures var w' := Install(w, [c]).0;
            && Load(w').completed == ["hardware_detect"]
            && w'.executed == w.executed + [Execution("hardware_detect", [])]
  {
    var s0 := Sys(FRESH, w);
    var (s1, end) := RunStep(s0, STEPS[0], c);
    assert end == StepDone && s1.mem.completed == ["hardware_detect"];
    assert RunFrom(s0, 0, [c]) == RunFrom(s1, 1, [c][1..]);
    assert [c][1..] == [];
    assert STEPS[1] == "disk_select" && STEPS[1] !in s1.mem.completed;
    assert RunFrom(s1, 1, []) == (s1, Aborted);
  }
}
