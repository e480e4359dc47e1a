/** The `Chip8Runner` of src/emu/runner.rs: a machine and two time
    accumulators, updated in place and proved to follow module Timing. */
module EmuRunner {
  import opened Primitives
  import opened Nibble
  import opened Wrappers
  import opened Types
  import Semantics
  import Timing
  import Emu

  class Chip8Runner {
    const chip8: Emu.Chip8
    var cpuAcc: nat
    var timerAcc: nat

    /** The runner and the machine it owns. */
    ghost const Repr: set<object>

    ghost predicate Valid()
      reads this, Repr
    {
      && Repr == {this} + chip8.Repr
      && this !in chip8.Repr
      && chip8.Valid()
    }

    /** The runner state this object holds. */
    ghost function State(): (s: Timing.RunnerState)
      requires Valid()
      reads this, Repr
      ensures s.Valid()
    {
      Timing.RunnerState(chip8.State(), cpuAcc, timerAcc)
    }

    /** `Chip8Runner::new`: takes the machine over with both accumulators at zero. */
    constructor (chip8: Emu.Chip8)
      requires chip8.Valid()
      ensures Valid() && this.chip8 == chip8 && fresh(Repr - chip8.Repr)
      ensures State() == Timing.NewRunner(chip8.State())
    {
      this.chip8 := chip8;
      cpuAcc := 0;
      timerAcc := 0;
      Repr := {this} + chip8.Repr;
    }

    /** The timer loop: one `timers_cycle` per whole timer step in `timerAcc`. */
    method DrainTimers()
      requires Valid()
      modifies Repr
      ensures Valid() && cpuAcc == old(cpuAcc)
      ensures (chip8.State(), timerAcc) == Timing.DrainTimers(old(chip8.State()), old(timerAcc))
    {
      while timerAcc >= Timing.TIMER_TIME_STEP
        invariant Valid() && cpuAcc == old(cpuAcc)
        invariant Timing.DrainTimers(chip8.State(), timerAcc) == Timing.DrainTimers(old(chip8.State()), old(timerAcc))
        decreases timerAcc
      {
        timerAcc := timerAcc - Timing.TIMER_TIME_STEP;
        chip8.TimersCycle();
      }
    }

    /** One iteration of the CPU loop: a step off `cpuAcc`, then a cycle;
        `Some` with the reason when the loop stops here. */
    method CpuIteration(breakpoints: Option<set<u16>>, random: nat -> u8, cycles: nat) returns (stop: Option<Timing.Stop>)
      requires Valid() && cpuAcc >= Timing.CPU_TIME_STEP
      modifies Repr
      ensures Valid() && timerAcc == old(timerAcc)
      ensures stop.None? ==> cpuAcc == old(cpuAcc) - Timing.CPU_TIME_STEP
      ensures stop.None? ==>
        Timing.RunCpu(old(chip8.State()), old(cpuAcc), breakpoints, random, Semantics.CpuCycle, cycles)
        == Timing.RunCpu(chip8.State(), cpuAcc, breakpoints, random, Semantics.CpuCycle, cycles + 1)
      ensures stop.Some? ==>
        var run := Timing.RunCpu(old(chip8.State()), old(cpuAcc), breakpoints, random, Semantics.CpuCycle, cycles);
        stop.value == run.stop && chip8.State() == run.machine && cpuAcc == run.acc
    {
      Timing.IterationEnds(chip8.State(), cpuAcc, breakpoints, random, Semantics.CpuCycle, cycles);
      ghost var before, acc := chip8.State(), cpuAcc;
      cpuAcc := cpuAcc - Timing.CPU_TIME_STEP;
      var cpuResult := chip8.CpuCycle(random(cycles));
      if cpuResult.Err? {
        return Some(Timing.Failed(cpuResult.error));
      }
      if breakpoints.Some? && chip8.pc in breakpoints.value {
        cpuAcc := 0;
        return Some(Timing.Breakpoint);
      }
      if cpuResult.value == WaitForNextFrame {
        cpuAcc := 0;
        return Some(Timing.FrameWait);
      }
      Timing.IterationContinues(before, acc, breakpoints, random, Semantics.CpuCycle, cycles, chip8.State(), cpuResult.value);
      stop := None;
    }

    /** The CPU loop: iterations until less than a step is left, a cycle
        fails, a cycle ends on a breakpoint or a cycle asks for the next
        frame. Cycle number `k` draws `random(k)`. */
    method RunCpu(breakpoints: Option<set<u16>>, random: nat -> u8) returns (stop: Timing.Stop)
      requires Valid()
      modifies Repr
      ensures Valid() && timerAcc == old(timerAcc)
      ensures var run := Timing.RunCpu(old(chip8.State()), old(cpuAcc), breakpoints, random, Semantics.CpuCycle, 0);
        stop == run.stop && chip8.State() == run.machine && cpuAcc == run.acc
    {
      var cycles: nat := 0;
      while cpuAcc >= Timing.CPU_TIME_STEP
        invariant Valid() && timerAcc == old(timerAcc)
        invariant Timing.RunCpu(chip8.State(), cpuAcc, breakpoints, random, Semantics.CpuCycle, cycles)
               == Timing.RunCpu(old(chip8.State()), old(cpuAcc), breakpoints, random, Semantics.CpuCycle, 0)
        decreases cpuAcc
      {
        var iteration := CpuIteration(breakpoints, random, cycles);
        cycles := cycles + 1;
        if iteration.Some? {
          return iteration.value;
        }
      }
      stop := Timing.Drained;
    }

    /** `update_with_breakpoints`: the elapsed time goes into both
        accumulators, then the timer loop and the CPU loop run. */
    method UpdateWithBreakpoints(dt: nat, breakpoints: Option<set<u16>>, random: nat -> u8)
      returns (r: Result<Timing.Chip8RunnerResult, Chip8Error>)
      requires Valid()
      modifies Repr
      ensures Valid()
      ensures (r, State()) == Timing.UpdateWithBreakpoints(old(State()), dt, breakpoints, random, Semantics.CpuCycle)
    {
      cpuAcc := cpuAcc + dt;
      timerAcc := timerAcc + dt;
      DrainTimers();
      var stop := RunCpu(breakpoints, random);
      r := Timing.Report(stop);
    }

    /** `update`: `update_with_breakpoints` without breakpoints. */
    method Update(dt: nat, random: nat -> u8) returns (r: Result<Timing.Chip8RunnerResult, Chip8Error>)
      requires Valid()
      modifies Repr
      ensures Valid()
      ensures (r, State()) == Timing.Update(old(State()), dt, random, Semantics.CpuCycle)
    {
      r := UpdateWithBreakpoints(dt, None, random);
    }

    /** `should_beep`, delegated to the machine. */
    function ShouldBeep(): (b: bool)
      requires Valid()
      reads this, Repr
      ensures b == Semantics.ShouldBeep(State().machine)
    {
      chip8.ShouldBeep()
    }

    /** `set_key`, delegated to the machine; the accumulators do not change. */
    method SetKey(key: u4, pressed: bool)
      requires Valid()
      modifies chip8.keypad
      ensures Valid()
      ensures State() == old(State()).(machine := Semantics.SetKey(old(State()).machine, key, pressed))
    {
      chip8.SetKey(key, pressed);
    }

    /** `get_display_pixel`, delegated to the machine. */
    function GetDisplayPixel(y: nat, x: nat): (b: bool)
      requires Valid() && y < DISPLAY_Y && x < DISPLAY_X
      reads this, Repr
      ensures b == State().machine.display[y][x]
    {
      chip8.GetDisplayPixel(y, x)
    }
  }
}
