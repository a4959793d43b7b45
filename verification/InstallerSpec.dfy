/** The resumable installer as a state machine: what each call does to the state in memory
    and to its two saved copies. */
module InstallerSpec {
  import opened Wrappers

  datatype Phase = Stage1 | Stage1Complete | Stage3 | Complete

  datatype Message = Start(step: string) | Done(step: string) | Fail(step: string)

  const MAX_LOG := 500

  // The persisted state. `history` is every message ever logged, of which `log` keeps the end;
  // the program itself stores only `log`.
  datatype Saved = Saved(phase: Phase, completed: seq<string>, current: Option<string>, failed: Option<string>,
                         log: seq<Message>, history: seq<Message>)

  const FRESH := Saved(Stage1, [], None, None, [], [])

  // The order of build_stage1_steps, by step name.
  const STEPS := [
    "hardware_detect", "disk_select", "format", "mount", "stage3_download", "stage3_extract", "makeconf",
    "chroot_init", "portage_sync", "timezone", "locale", "kernel_config", "kernel_compile", "kernel_install",
    "fstab", "hostname", "root_password", "network", "bootloader", "continuation_agent", "unmount"]

  const MOUNT := 3
  const AGENT := 19
  const UNMOUNT := 20

  const STAGE3_STEPS := ["portage_update", "world_update", "cleanup", "disable_agent"]

  // An execute call, with the steps that were completed when it began.
  datatype Execution = Execution(step: string, before: seq<string>)

  // The live copy, the target's copy, whether the target is mounted, and what was executed.
  datatype World = World(live: Option<Saved>, target: Option<Saved>, mounted: bool, executed: seq<Execution>)

  // A running process: its state in memory, and the world.
  datatype Sys = Sys(mem: Saved, world: World)

  function Load(w: World): Saved { if w.live.Some? then w.live.value else FRESH }

  // Both copies, the target's only while it is mounted.
  function Save(s: Sys): Sys {
    s.(world := s.world.(live := Some(s.mem), target := if s.world.mounted then Some(s.mem) else s.world.target))
  }

  function LastMessages(ms: seq<Message>): seq<Message> {
    if |ms| > MAX_LOG then ms[|ms| - MAX_LOG..] else ms
  }

  function Logged(m: Saved, msg: Message): Saved {
    m.(log := LastMessages(m.log + [msg]), history := m.history + [msg])
  }

  function Started(m: Saved, step: string): Saved {
    Logged(m.(current := Some(step), failed := None), Start(step))
  }

  function WithDone(completed: seq<string>, step: string): seq<string> {
    if step in completed then completed else completed + [step]
  }

  function Finished(m: Saved, step: string): Saved {
    Logged(m.(completed := WithDone(m.completed, step), current := None), Done(step))
  }

  function Failed(m: Saved, step: string): Saved {
    Logged(m.(failed := Some(step), current := None), Fail(step))
  }

  function MarkStarted(s: Sys, step: string): Sys { Save(s.(mem := Started(s.mem, step))) }

  function MarkDone(s: Sys, step: string): Sys { Save(s.(mem := Finished(s.mem, step))) }

  function MarkFailed(s: Sys, step: string): Sys { Save(s.(mem := Failed(s.mem, step))) }

  // ---- one stage-1 step ----

  // How an execute call ends. An interrupt may also come just before it, or just after it,
  // when the step is in `completed` but not saved yet. A killed process saves nothing more.
  datatype Outcome = Success | Failure | InterruptedEarly | Interrupted | InterruptedLate | Killed
  {
    predicate Ran() { Success? || InterruptedLate? }
  }

  // What the environment decides about one call: its outcome; whether partitioning or formatting
  // destroyed the target's copy; whether the target is mounted when mount fails or after unmount;
  // whether the agent step got as far as setting the phase; whether the step saved on its way.
  datatype Choice = Choice(outcome: Outcome, wiped: bool, mountedAfter: bool, phaseSet: bool, saved: bool)

  function Effect(s: Sys, step: string, c: Choice): Sys {
    var w := s.world;
    var target := if step in {"disk_select", "format"} && c.wiped then None else w.target;
    var mounted :=
      if step == "mount" then w.mounted || c.outcome.Ran() || c.mountedAfter
      else if step == "unmount" then w.mounted && c.mountedAfter
      else w.mounted;
    var phase :=
      if step == "continuation_agent" && (c.outcome.Ran() || c.phaseSet) then Stage1Complete else s.mem.phase;
    var s' := Sys(s.mem.(phase := phase),
                  w.(target := target, mounted := mounted,
                     executed := w.executed + [Execution(step, s.mem.completed)]));
    if c.saved || (c.outcome.Ran() && step in {"mount", "continuation_agent"}) then Save(s') else s'
  }

  datatype StepEnd = StepDone | StepError | StepInterrupt | StepKilled

  // Step.run: a completed step is skipped, and only a successful execute is marked done.
  function RunStep(s: Sys, step: string, c: Choice): (Sys, StepEnd) {
    if step in s.mem.completed then (s, StepDone)
    else
      var s1 := MarkStarted(s, step);
      if c.outcome.InterruptedEarly? then (s1, StepInterrupt)
      else
        var s2 := Effect(s1, step, c);
        match c.outcome
        case Success => (MarkDone(s2, step), StepDone)
        case Failure => (s2, StepError)
        case Killed => (s2, StepKilled)
        case InterruptedLate => (s2.(mem := s2.mem.(completed := WithDone(s2.mem.completed, step))), StepInterrupt)
        case _ => (s2, StepInterrupt)
  }

  datatype RunEnd = AllDone | Paused | Aborted

  // run_all_steps from the k-th step; without a choice left the process dies between steps.
  function RunFrom(s: Sys, k: nat, cs: seq<Choice>): (Sys, RunEnd)
    requires k <= |STEPS|
    decreases |STEPS| - k
  {
    if k == |STEPS| then (s, AllDone)
    else if STEPS[k] in s.mem.completed then RunFrom(s, k + 1, cs)
    else if cs == [] then (s, Aborted)
    else
      var (s', end) := RunStep(s, STEPS[k], cs[0]);
      match end
      case StepDone => RunFrom(s', k + 1, cs[1..])
      case StepError => (s', Paused)
      case StepInterrupt => (Save(s'), Aborted)
      case StepKilled => (s', Aborted)
  }

  function Install(w: World, cs: seq<Choice>): (World, RunEnd) {
    var (s, end) := RunFrom(Sys(Load(w), w), 0, cs);
    (s.world, end)
  }

  // ---- stage 3 ----

  // An emerge or service call: its exit code, or an exception that ends the process.
  datatype Call = Exit(code: int) | Raises

  datatype Calls = Calls(sync: Call, world: Call, resume: Call, depclean: Call, disable: Call)

  datatype ContinueEnd = Rejected | Broken | WorldFailed | AllComplete

  // A step whose exit code does not matter.
  function Tolerant(s: Sys, step: string, call: Call): (Sys, bool) {
    if step in s.mem.completed then (s, true)
    else
      var s1 := MarkStarted(s, step);
      if call.Raises? then (s1, false) else (MarkDone(s1, step), true)
  }

  // The world update, with one resume when it fails.
  function WorldUpdate(s: Sys, calls: Calls): (Sys, ContinueEnd) {
    if "world_update" in s.mem.completed then (s, AllComplete)
    else
      var s1 := MarkStarted(s, "world_update");
      if calls.world.Raises? then (s1, Broken)
      else if calls.world.code == 0 then (MarkDone(s1, "world_update"), AllComplete)
      else if calls.resume.Raises? then (s1, Broken)
      else if calls.resume.code == 0 then (MarkDone(s1, "world_update"), AllComplete)
      else (MarkFailed(s1, "world_update"), WorldFailed)
  }

  function RunStage3(s: Sys, calls: Calls): (Sys, ContinueEnd) {
    var (s1, ok1) := Tolerant(s, "portage_update", calls.sync);
    if !ok1 then (s1, Broken)
    else
      var (s2, end) := WorldUpdate(s1, calls);
      if !end.AllComplete? then (s2, end)
      else
        var (s3, ok3) := Tolerant(s2, "cleanup", calls.depclean);
        if !ok3 then (s3, Broken)
        else
          var (s4, ok4) := Tolerant(s3, "disable_agent", calls.disable);
          if !ok4 then (s4, Broken)
          else (Save(s4.(mem := s4.mem.(phase := Complete))), AllComplete)
  }

  function Continue(w: World, calls: Calls): (World, ContinueEnd) {
    var m := Load(w);
    if m.phase !in {Stage1Complete, Stage3} then (w, Rejected)
    else
      var (s, end) := RunStage3(Save(Sys(m.(phase := Stage3), w)), calls);
      (s.world, end)
  }

  // The first boot of the target: its copy is now the live one.
  function FirstBoot(w: World): World { World(w.target, None, false, w.executed) }

  // ---- histories ----

  // Between runs the live copy may be lost or unreadable, the live system rebooted,
  // or the target unmounted behind the installer's back.
  datatype Act = Run(choices: seq<Choice>) | LoseState | Reboot | Unmounted

  function Perform(w: World, a: Act): World {
    match a
    case Run(cs) => Install(w, cs).0
    case LoseState => w.(live := None)
    case Reboot => w.(live := None, mounted := false)
    case Unmounted => w.(mounted := false)
  }

  function Play(w: World, acts: seq<Act>): World
    decreases |acts|
  {
    if acts == [] then w else Play(Perform(w, acts[0]), acts[1..])
  }

  function PlayContinues(w: World, runs: seq<Calls>): World
    decreases |runs|
  {
    if runs == [] then w else PlayContinues(Continue(w, runs[0]).0, runs[1..])
  }
}
