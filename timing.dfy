/** The timing loops of src/emu/runner.rs and src/runner.rs as functions:
    elapsed time becomes timer ticks and CPU cycles through two accumulators.
    Time is counted in whole ticks of 1/2100 s, in which a CPU cycle (700 Hz)
    takes 3 ticks and a timer tick (60 Hz) takes 35. */
module Timing {
  import opened Primitives
  import opened Wrappers
  import opened Types
  import opened Semantics
  import opened MachineProperties

  /** Ticks per second of the modelled clock: 2100 = 3 * 700 = 35 * 60, so both steps are whole. */
  const TICKS_PER_SECOND: nat := 2100
  /** 1 / CPU_HZ, with CPU_HZ = 700. */
  const CPU_TIME_STEP: nat := 3
  /** 1 / TIMER_HZ, with TIMER_HZ = 60. */
  const TIMER_TIME_STEP: nat := 35

  /** Taking one step off an accumulator takes one off the quotient and
      leaves the remainder. */
  lemma OneStepLess(acc: nat, step: nat)
    requires 0 < step <= acc
    ensures (acc - step) / step == acc / step - 1 && (acc - step) % step == acc % step
  {
    DivModQuotient(acc - step, step, acc / step - 1, acc % step);
    DivModUnique(acc - step, step, acc / step - 1, acc % step);
  }

  /** The timer loop: one `timers_cycle` per whole timer step in the
      accumulator; the machine and what is left of the accumulator. */
  function DrainTimers(m: Machine, acc: nat): (r: (Machine, nat))
    requires m.Valid()
    ensures r.0.Valid() && r.1 < TIMER_TIME_STEP
    decreases acc
  {
    if acc < TIMER_TIME_STEP then (m, acc)
    else DrainTimers(TimersCycle(m), acc - TIMER_TIME_STEP)
  }

  /** The timer loop ticks the timers exactly `acc / step` times and keeps
      the remainder. */
  lemma {:induction false} DrainTimersCounts(m: Machine, acc: nat)
    requires m.Valid()
    decreases acc
    ensures DrainTimers(m, acc) == (TimersCycles(m, acc / TIMER_TIME_STEP), acc % TIMER_TIME_STEP)
  {
    if acc >= TIMER_TIME_STEP {
      DrainTimersCounts(TimersCycle(m), acc - TIMER_TIME_STEP);
      OneStepLess(acc, TIMER_TIME_STEP);
    }
  }

  /** Why the CPU loop stopped. */
  datatype Stop =
    | Drained              // less than one CPU step was left
    | FrameWait            // a cycle asked for the next frame
    | Breakpoint           // a cycle ended on a breakpoint
    | Failed(error: Chip8Error)

  /** Where the CPU loop stopped: why, the machine, the accumulator, and the
      number of cycles run, counting from `done`. */
  datatype Run = Run(stop: Stop, machine: Machine, acc: nat, cycles: nat)

  /** A CPU cycle as the loop sees it: a step on valid machines that keeps
      them valid. The runners run `Semantics.CpuCycle`; the loop and what is
      proved about it depend on no more than this. */
  type CycleFunction = (Machine, u8) --> Step

  ghost predicate KeepsValid(cycle: CycleFunction) {
    forall m: Machine, random: u8 :: m.Valid() ==> cycle.requires(m, random) && cycle(m, random).next.Valid()
  }

  /** `cpu_cycle` is such a step. */
  lemma CpuCycleKeepsValid()
    ensures KeepsValid(CpuCycle)
  {
  }

  /** The CPU loop of `update_with_breakpoints`: while a whole step is
      left, an iteration runs. Cycle number `k` (counting from zero) draws the
      random byte `random(k)`. */
  function RunCpu(m: Machine, acc: nat, breakpoints: Option<set<u16>>, random: nat -> u8, cycle: CycleFunction, done: nat): (r: Run)
    requires m.Valid() && KeepsValid(cycle)
    ensures r.machine.Valid()
    decreases acc, 2
  {
    if acc < CPU_TIME_STEP then Run(Drained, m, acc, done)
    else Iteration(m, acc, breakpoints, random, cycle, done)
  }

  /** One iteration: its step is taken off the accumulator first. */
  function Iteration(m: Machine, acc: nat, breakpoints: Option<set<u16>>, random: nat -> u8, cycle: CycleFunction, done: nat): (r: Run)
    requires m.Valid() && KeepsValid(cycle) && acc >= CPU_TIME_STEP
    ensures r.machine.Valid()
    decreases acc, 1
  {
    AfterCycle(m, acc - CPU_TIME_STEP, breakpoints, random, cycle, done)
  }

  /** The rest of one iteration, once its step is taken: cycle number `done`
      runs; an error returns at once; a breakpoint, checked before the
      result, or a request for the next frame clears the accumulator and
      stops; otherwise the loop goes on. */
  function AfterCycle(m: Machine, acc: nat, breakpoints: Option<set<u16>>, random: nat -> u8, cycle: CycleFunction, done: nat): (r: Run)
    requires m.Valid() && KeepsValid(cycle)
    ensures r.machine.Valid()
    decreases acc, 3
  {
    var s := cycle(m, random(done));
    match s.result
    case Err(e) => Run(Failed(e), s.next, acc, done + 1)
    case Ok(cpuResult) =>
      if breakpoints.Some? && s.next.pc in breakpoints.value then Run(Breakpoint, s.next, 0, done + 1)
      else if cpuResult == WaitForNextFrame then Run(FrameWait, s.next, 0, done + 1)
      else RunCpu(s.next, acc, breakpoints, random, cycle, done + 1)
  }

  /** How one iteration ends: the loop from `m` is the loop from the
      cycle's successor, unless the cycle fails, ends on a breakpoint or asks
      for the next frame. */
  lemma IterationEnds(m: Machine, acc: nat, breakpoints: Option<set<u16>>, random: nat -> u8, cycle: CycleFunction, done: nat)
    requires m.Valid() && KeepsValid(cycle) && acc >= CPU_TIME_STEP
    ensures var s := cycle(m, random(done));
      var run := RunCpu(m, acc, breakpoints, random, cycle, done);
      if s.result.Err? then run == Run(Failed(s.result.error), s.next, acc - CPU_TIME_STEP, done + 1)
      else if breakpoints.Some? && s.next.pc in breakpoints.value then run == Run(Breakpoint, s.next, 0, done + 1)
      else if s.result.value == WaitForNextFrame then run == Run(FrameWait, s.next, 0, done + 1)
      else run == RunCpu(s.next, acc - CPU_TIME_STEP, breakpoints, random, cycle, done + 1)
  {
    assert RunCpu(m, acc, breakpoints, random, cycle, done)
        == AfterCycle(m, acc - CPU_TIME_STEP, breakpoints, random, cycle, done);
  }

  /** An iteration whose cycle succeeds off a breakpoint without asking for
      the next frame hands the loop on to the cycle's successor. */
  lemma IterationContinues(m: Machine, acc: nat, breakpoints: Option<set<u16>>, random: nat -> u8, cycle: CycleFunction,
                           done: nat, next: Machine, result: Chip8Result)
    requires m.Valid() && KeepsValid(cycle) && acc >= CPU_TIME_STEP
    requires cycle(m, random(done)) == Transition(Result.Ok(result), next)
    requires !(breakpoints.Some? && next.pc in breakpoints.value) && result != WaitForNextFrame
    ensures next.Valid()
    ensures RunCpu(m, acc, breakpoints, random, cycle, done) == RunCpu(next, acc - CPU_TIME_STEP, breakpoints, random, cycle, done + 1)
  {
    assert RunCpu(m, acc, breakpoints, random, cycle, done)
        == AfterCycle(m, acc - CPU_TIME_STEP, breakpoints, random, cycle, done);
  }

  /** What the CPU loop guarantees: with no early stop it runs exactly
      `acc / step` cycles and keeps the remainder; a stop for a frame or a
      breakpoint clears the accumulator; an error keeps what was left after
      the failing cycle's step; without breakpoints there is no breakpoint
      stop, and a breakpoint stop is at a breakpoint. */
  lemma {:induction false} RunCpuCounts(m: Machine, acc: nat, breakpoints: Option<set<u16>>, random: nat -> u8, cycle: CycleFunction, done: nat)
    requires m.Valid() && KeepsValid(cycle)
    decreases acc, 2
    ensures var r := RunCpu(m, acc, breakpoints, random, cycle, done);
      && done <= r.cycles && (r.cycles - done) * CPU_TIME_STEP <= acc
      && (r.stop == Drained ==> r.cycles == done + acc / CPU_TIME_STEP && r.acc == acc % CPU_TIME_STEP)
      && (r.stop != Drained ==> r.cycles > done)
      && (r.stop == FrameWait || r.stop == Breakpoint ==> r.acc == 0)
      && (r.stop.Failed? ==> r.acc == acc - (r.cycles - done) * CPU_TIME_STEP)
      && (breakpoints.None? ==> r.stop != Breakpoint)
      && (r.stop == Breakpoint ==> r.machine.pc in breakpoints.value)
  {
    if acc >= CPU_TIME_STEP {
      AfterCycleCounts(m, acc - CPU_TIME_STEP, breakpoints, random, cycle, done);
      OneStepLess(acc, CPU_TIME_STEP);
    }
  }

  /** The same for the rest of an iteration: the cycle it starts with is
      counted, and `acc` is what is left after its step. */
  lemma {:induction false} AfterCycleCounts(m: Machine, acc: nat, breakpoints: Option<set<u16>>, random: nat -> u8, cycle: CycleFunction, done: nat)
    requires m.Valid() && KeepsValid(cycle)
    decreases acc, 3
    ensures var r := AfterCycle(m, acc, breakpoints, random, cycle, done);
      && done < r.cycles && (r.cycles - done - 1) * CPU_TIME_STEP <= acc
      && (r.stop == Drained ==> r.cycles == done + 1 + acc / CPU_TIME_STEP && r.acc == acc % CPU_TIME_STEP)
      && (r.stop == FrameWait || r.stop == Breakpoint ==> r.acc == 0)
      && (r.stop.Failed? ==> r.acc == acc - (r.cycles - done - 1) * CPU_TIME_STEP)
      && (breakpoints.None? ==> r.stop != Breakpoint)
      && (r.stop == Breakpoint ==> r.machine.pc in breakpoints.value)
  {
    var s := cycle(m, random(done));
    if s.result.Ok? && !(breakpoints.Some? && s.next.pc in breakpoints.value) && s.result.value != WaitForNextFrame {
      RunCpuCounts(s.next, acc, breakpoints, random, cycle, done + 1);
    }
  }

  // ---------------------------------------------------------------------
  // src/emu/runner.rs

  /** `Chip8RunnerResult`. */
  datatype Chip8RunnerResult = HitBreakpoint | Ok

  /** The state of a `Chip8Runner`: the machine and the two accumulators. */
  datatype RunnerState = RunnerState(machine: Machine, cpuAcc: nat, timerAcc: nat)
  {
    predicate Valid() { machine.Valid() }
  }

  /** `Chip8Runner::new`: both accumulators start at zero. */
  function NewRunner(m: Machine): (r: RunnerState)
    requires m.Valid()
    ensures r.Valid() && r.machine == m && r.cpuAcc == 0 && r.timerAcc == 0
  {
    RunnerState(m, 0, 0)
  }

  /** `update_with_breakpoints`: the elapsed time goes into both
      accumulators, the timer loop runs, then the CPU loop. */
  function UpdateWithBreakpoints(runner: RunnerState, dt: nat, breakpoints: Option<set<u16>>, random: nat -> u8, cycle: CycleFunction)
    : (r: (Result<Chip8RunnerResult, Chip8Error>, RunnerState))
    requires runner.Valid() && KeepsValid(cycle)
    ensures r.1.Valid()
  {
    var drained := DrainTimers(runner.machine, runner.timerAcc + dt);
    var run := RunCpu(drained.0, runner.cpuAcc + dt, breakpoints, random, cycle, 0);
    (Report(run.stop), RunnerState(run.machine, run.acc, drained.1))
  }

  /** What `update_with_breakpoints` guarantees: the timers tick once per
      whole timer step BEFORE the first CPU cycle, so the CPU loop starts from
      the ticked machine; the timers keep less than one step; a breakpoint is
      reported only when `pc` is one, and then with a cleared CPU
      accumulator; a plain `Ok` leaves less than one CPU step. */
  lemma UpdateWithBreakpointsReports(runner: RunnerState, dt: nat, breakpoints: Option<set<u16>>, random: nat -> u8, cycle: CycleFunction)
    requires runner.Valid() && KeepsValid(cycle)
    ensures var r := UpdateWithBreakpoints(runner, dt, breakpoints, random, cycle);
      var run := RunCpu(TimersCycles(runner.machine, (runner.timerAcc + dt) / TIMER_TIME_STEP), runner.cpuAcc + dt, breakpoints, random, cycle, 0);
      r == (Report(run.stop), RunnerState(run.machine, run.acc, (runner.timerAcc + dt) % TIMER_TIME_STEP))
    ensures var r := UpdateWithBreakpoints(runner, dt, breakpoints, random, cycle);
      && r.1.timerAcc == (runner.timerAcc + dt) % TIMER_TIME_STEP
      && (r.0 == Result.Ok(Chip8RunnerResult.HitBreakpoint) ==>
            breakpoints.Some? && r.1.machine.pc in breakpoints.value && r.1.cpuAcc == 0)
      && (r.0 == Result.Ok(Chip8RunnerResult.Ok) ==> r.1.cpuAcc < CPU_TIME_STEP)
  {
    DrainTimersCounts(runner.machine, runner.timerAcc + dt);
    var drained := DrainTimers(runner.machine, runner.timerAcc + dt);
    RunCpuCounts(drained.0, runner.cpuAcc + dt, breakpoints, random, cycle, 0);
  }

  /** What `update_with_breakpoints` returns for the way its CPU loop stopped. */
  function Report(stop: Stop): (r: Result<Chip8RunnerResult, Chip8Error>)
    ensures r.Err? <==> stop.Failed?
    ensures r == Result.Ok(Chip8RunnerResult.HitBreakpoint) <==> stop == Breakpoint
  {
    match stop
    case Failed(e) => Err(e)
    case Breakpoint => Result.Ok(Chip8RunnerResult.HitBreakpoint)
    case _ => Result.Ok(Chip8RunnerResult.Ok)
  }

  /** `update`: `update_with_breakpoints` without breakpoints. */
  function Update(runner: RunnerState, dt: nat, random: nat -> u8, cycle: CycleFunction): (r: (Result<Chip8RunnerResult, Chip8Error>, RunnerState))
    requires runner.Valid() && KeepsValid(cycle)
    ensures r.1.Valid()
  {
    UpdateWithBreakpoints(runner, dt, None, random, cycle)
  }

  /** Without breakpoints `update` never reports one. */
  lemma UpdateNeverHitsBreakpoint(runner: RunnerState, dt: nat, random: nat -> u8, cycle: CycleFunction)
    requires runner.Valid() && KeepsValid(cycle)
    ensures Update(runner, dt, random, cycle).0 != Result.Ok(Chip8RunnerResult.HitBreakpoint)
  {
    UpdateWithBreakpointsReports(runner, dt, None, random, cycle);
  }

  // ---------------------------------------------------------------------
  // src/runner.rs

  /** The older `update`: no breakpoints, and the CPU result is passed on. */
  function LegacyUpdate(runner: RunnerState, dt: nat, random: nat -> u8, cycle: CycleFunction): (r: (Result<Chip8Result, Chip8Error>, RunnerState))
    requires runner.Valid() && KeepsValid(cycle)
    ensures r.1.Valid()
  {
    var drained := DrainTimers(runner.machine, runner.timerAcc + dt);
    var run := RunCpu(drained.0, runner.cpuAcc + dt, None, random, cycle, 0);
    (LegacyReport(run.stop), RunnerState(run.machine, run.acc, drained.1))
  }

  /** What the older `update` guarantees: the timer loop runs first, so the
      CPU loop, without breakpoints, starts from the machine ticked once per
      whole timer step; `WaitForNextFrame` comes with a cleared accumulator,
      `Continue` with what is left below one step; the timers keep less than
      one step. */
  lemma LegacyUpdateReports(runner: RunnerState, dt: nat, random: nat -> u8, cycle: CycleFunction)
    requires runner.Valid() && KeepsValid(cycle)
    ensures var r := LegacyUpdate(runner, dt, random, cycle);
      var run := RunCpu(TimersCycles(runner.machine, (runner.timerAcc + dt) / TIMER_TIME_STEP), runner.cpuAcc + dt, None, random, cycle, 0);
      r == (LegacyReport(run.stop), RunnerState(run.machine, run.acc, (runner.timerAcc + dt) % TIMER_TIME_STEP))
    ensures var r := LegacyUpdate(runner, dt, random, cycle);
      && r.1.timerAcc == (runner.timerAcc + dt) % TIMER_TIME_STEP
      && (r.0 == Result.Ok(WaitForNextFrame) ==> r.1.cpuAcc == 0)
      && (r.0 == Result.Ok(Continue) ==> r.1.cpuAcc == (runner.cpuAcc + dt) % CPU_TIME_STEP)
  {
    DrainTimersCounts(runner.machine, runner.timerAcc + dt);
    var drained := DrainTimers(runner.machine, runner.timerAcc + dt);
    RunCpuCounts(drained.0, runner.cpuAcc + dt, None, random, cycle, 0);
  }

  /** What the older `update` returns for the way its CPU loop stopped. */
  function LegacyReport(stop: Stop): (r: Result<Chip8Result, Chip8Error>)
    ensures r.Err? <==> stop.Failed?
    ensures r == Result.Ok(WaitForNextFrame) <==> stop == FrameWait
  {
    match stop
    case Failed(e) => Err(e)
    case FrameWait => Result.Ok(WaitForNextFrame)
    case _ => Result.Ok(Continue)
  }
}
