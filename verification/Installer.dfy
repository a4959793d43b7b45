/** The installer: its state object, the step runner and the two commands. */
module Installer {
  import opened InstallerSpec
  import opened Wrappers

  // The saved copies, the mount and the execute calls so far, as the world outside the process has them.
  class Machine {
    var live: Option<Saved>
    var target: Option<Saved>
    var mounted: bool
    var executed: seq<Execution>

    constructor (live: Option<Saved>, target: Option<Saved>, mounted: bool)
      ensures View() == World(live, target, mounted, [])
    {
      this.live, this.target, this.mounted, this.executed := live, target, mounted, [];
    }

    function View(): World
      reads this
    {
      World(live, target, mounted, executed)
    }
  }

  // `history` only observes: the program keeps no more of it than `log`.
  class InstallerState {
    var phase: Phase
    var completed: seq<string>
    var current: Option<string>
    var failed: Option<string>
    var log: seq<Message>
    var history: seq<Message>
    const machine: Machine

    // InstallerState.load: the live copy, or a fresh state.
    constructor Load(machine: Machine)
      ensures this.machine == machine
      ensures View() == Sys(InstallerSpec.Load(machine.View()), machine.View())
    {
      var m := if machine.live.Some? then machine.live.value else FRESH;
      this.machine := machine;
      phase, completed, current, failed, log, history := m.phase, m.completed, m.current, m.failed, m.log, m.history;
    }

    function Mem(): Saved
      reads this
    {
      Saved(phase, completed, current, failed, log, history)
    }

    function View(): Sys
      reads this, machine
    {
      Sys(Mem(), machine.View())
    }

    predicate IsDone(step: string)
      reads this
    {
      step in completed
    }

    method Save()
      modifies machine
      ensures View() == InstallerSpec.Save(old(View()))
    {
      machine.live := Some(Mem());
      if machine.mounted {
        machine.target := Some(Mem());
      }
    }

    method AppendLog(msg: Message)
      modifies this
      ensures Mem() == Logged(old(Mem()), msg)
    {
      history := history + [msg];
      log := log + [msg];
      if |log| > MAX_LOG {
        log := log[|log| - MAX_LOG..];
      }
    }

    method MarkStarted(step: string)
      modifies this, machine
      ensures View() == InstallerSpec.MarkStarted(old(View()), step)
    {
      current := Some(step);
      failed := None;
      AppendLog(Start(step));
      Save();
    }

    method MarkDone(step: string)
      modifies this, machine
      ensures View() == InstallerSpec.MarkDone(old(View()), step)
    {
      if step !in completed {
        completed := completed + [step];
      }
      current := None;
      AppendLog(Done(step));
      Save();
    }

    method MarkFailed(step: string)
      modifies this, machine
      ensures View() == InstallerSpec.MarkFailed(old(View()), step)
    {
      failed := Some(step);
      current := None;
      AppendLog(Fail(step));
      Save();
    }

    // The body of a step, as far as the two copies can see it.
    method Execute(step: string, c: Choice)
      modifies this, machine
      ensures View() == Effect(old(View()), step, c)
    {
      machine.executed := machine.executed + [Execution(step, completed)];
      if step in {"disk_select", "format"} && c.wiped {
        machine.target := None;
      }
      if step == "mount" {
        machine.mounted := machine.mounted || c.outcome.Ran() || c.mountedAfter;
      }
      if step == "unmount" {
        machine.mounted := machine.mounted && c.mountedAfter;
      }
      if step == "continuation_agent" && (c.outcome.Ran() || c.phaseSet) {
        phase := Stage1Complete;
      }
      if c.saved || (c.outcome.Ran() && step in {"mount", "continuation_agent"}) {
        Save();
      }
    }

    // Step.run
    method RunStep(step: string, c: Choice) returns (end: StepEnd)
      modifies this, machine
      ensures (View(), end) == InstallerSpec.RunStep(old(View()), step, c)
    {
      hide Effect;
      hide InstallerSpec.MarkStarted;
      hide InstallerSpec.MarkDone;
      if IsDone(step) {
        return StepDone;
      }
      MarkStarted(step);
      if c.outcome.InterruptedEarly? {
        return StepInterrupt;
      }
      Execute(step, c);
      if c.outcome.Success? {
        MarkDone(step);
        return StepDone;
      } else if c.outcome.Failure? {
        return StepError;
      } else if c.outcome.Killed? {
        return StepKilled;
      } else if c.outcome.InterruptedLate? && step !in completed {
        completed := completed + [step];
      }
      return StepInterrupt;
    }

    // run_all_steps over the stage-1 steps, with run_step's handling of errors and interrupts.
    method RunAllSteps(choices: seq<Choice>) returns (end: RunEnd)
      modifies this, machine
      ensures (View(), end) == RunFrom(old(View()), 0, choices)
    {
      hide InstallerSpec.RunStep;
      var cs := choices;
      for k := 0 to |STEPS|
        invariant RunFrom(old(View()), 0, choices) == RunFrom(View(), k, cs)
      {
        if IsDone(STEPS[k]) {
          continue;
        }
        if cs == [] {
          return Aborted;
        }
        var stepEnd := RunStep(STEPS[k], cs[0]);
        cs := cs[1..];
        if stepEnd == StepError {
          return Paused;
        }
        if stepEnd == StepInterrupt {
          Save();
          return Aborted;
        }
        if stepEnd == StepKilled {
          return Aborted;
        }
      }
      return AllDone;
    }

    // A stage-3 step whose exit code does not matter; false when the call raised.
    method RunTolerant(step: string, call: Call) returns (ok: bool)
      modifies this, machine
      ensures (View(), ok) == Tolerant(old(View()), step, call)
    {
      if IsDone(step) {
        return true;
      }
      MarkStarted(step);
      if call.Raises? {
        return false;
      }
      MarkDone(step);
      return true;
    }

    method RunWorldUpdate(calls: Calls) returns (end: ContinueEnd)
      modifies this, machine
      ensures (View(), end) == WorldUpdate(old(View()), calls)
    {
      if IsDone("world_update") {
        return AllComplete;
      }
      MarkStarted("world_update");
      if calls.world.Raises? {
        return Broken;
      }
      var rc := calls.world.code;
      if rc != 0 {
        if calls.resume.Raises? {
          return Broken;
        }
        rc := calls.resume.code;
      }
      if rc != 0 {
        MarkFailed("world_update");
        return WorldFailed;
      }
      MarkDone("world_update");
      return AllComplete;
    }

    method RunStage3(calls: Calls) returns (end: ContinueEnd)
      modifies this, machine
      ensures (View(), end) == InstallerSpec.RunStage3(old(View()), calls)
    {
      hide Tolerant;
      hide WorldUpdate;
      var ok := RunTolerant("portage_update", calls.sync);
      if !ok {
        return Broken;
      }
      end := RunWorldUpdate(calls);
      if !end.AllComplete? {
        return end;
      }
      ok := RunTolerant("cleanup", calls.depclean);
      if !ok {
        return Broken;
      }
      ok := RunTolerant("disable_agent", calls.disable);
      if !ok {
        return Broken;
      }
      phase := Complete;
      Save();
      return AllComplete;
    }
  }

  method CmdInstall(machine: Machine, choices: seq<Choice>) returns (end: RunEnd)
    modifies machine
    ensures (machine.View(), end) == Install(old(machine.View()), choices)
  {
    hide RunFrom;
    var state := new InstallerState.Load(machine);
    end := state.RunAllSteps(choices);
  }

  method CmdContinue(machine: Machine, calls: Calls) returns (end: ContinueEnd)
    modifies machine
    ensures (machine.View(), end) == Continue(old(machine.View()), calls)
  {
    hide InstallerSpec.RunStage3;
    var state := new InstallerState.Load(machine);
    if state.phase !in {Stage1Complete, Stage3} {
      return Rejected;
    }
    state.phase := Stage3;
    state.Save();
    end := state.RunStage3(calls);
  }
}
