/** The debugger's `Executor` of src/debugger/executor.rs as values: a
    running flag, the runner and a set of breakpoints, and the commands that
    change them. */
module DebuggerModel {
  import opened Primitives
  import opened Nibble
  import opened Wrappers
  import opened Types
  import Semantics
  import MachineProperties
  import Timing

  datatype BreakpointAction = Set(addr: u16) | Clear(addr: u16) | List | ClearAll

  /** What a `Set` command writes: a `v` register, `i` or `pc`. */
  datatype SetTarget = V(reg: u4) | I | Pc

  /** The commands `Executor::execute` handles. */
  datatype Command =
    | Run
    | Pause
    | Step
    | Breakpoint(action: BreakpointAction)
    | Set(target: SetTarget, value: u16)
    | Quit

  datatype CommandResult = Ok | BreakpointList(breakpoints: seq<u16>) | Quit

  /** An emulator error passed on by a command. */
  datatype CommandError = Emulator(error: Chip8Error)

  datatype ExecutorState = ExecutorState(isRunning: bool, runner: Timing.RunnerState, breakpoints: set<u16>)
  {
    predicate Valid() { runner.Valid() }
  }

  /** `Executor::new`: paused, with no breakpoints. */
  function NewExecutor(runner: Timing.RunnerState): (e: ExecutorState)
    requires runner.Valid()
    ensures e.Valid() && !e.isRunning && e.breakpoints == {} && e.runner == runner
  {
    ExecutorState(false, runner, {})
  }

  /** `poll`: a paused executor does nothing; a running one updates the
      runner with its breakpoints and pauses on an error or a breakpoint. */
  function Poll(e: ExecutorState, dt: nat, random: nat -> u8)
    : (r: (Result<Timing.Chip8RunnerResult, Chip8Error>, ExecutorState))
    requires e.Valid()
    ensures r.1.Valid() && r.1.breakpoints == e.breakpoints
    ensures !e.isRunning ==> r == (Result.Ok(Timing.Chip8RunnerResult.Ok), e)
    ensures r.1.isRunning <==> e.isRunning && r.0 == Result.Ok(Timing.Chip8RunnerResult.Ok)
    ensures r.0 == Result.Ok(Timing.Chip8RunnerResult.HitBreakpoint) ==>
      r.1.runner.machine.pc in e.breakpoints && r.1.runner.cpuAcc == 0
    ensures e.isRunning ==>
      (r.0, r.1.runner) == Timing.UpdateWithBreakpoints(e.runner, dt, Some(e.breakpoints), random, Semantics.CpuCycle)
  {
    if !e.isRunning then (Result.Ok(Timing.Chip8RunnerResult.Ok), e)
    else
      Timing.UpdateWithBreakpointsReports(e.runner, dt, Some(e.breakpoints), random, Semantics.CpuCycle);
      var (result, runner) := Timing.UpdateWithBreakpoints(e.runner, dt, Some(e.breakpoints), random, Semantics.CpuCycle);
      var stops := result.Err? || result == Result.Ok(Timing.Chip8RunnerResult.HitBreakpoint);
      (result, e.(isRunning := !stops, runner := runner))
  }

  /** `execute_step`: one CPU cycle, outside the runner's timing; the
      accumulators, the flag and the breakpoints stay as they are. */
  function StepCycle(e: ExecutorState, random: u8): (r: (Result<CommandResult, CommandError>, ExecutorState))
    requires e.Valid()
    ensures r.1.Valid()
    ensures var s := Semantics.CpuCycle(e.runner.machine, random);
      && (r.0.Err? <==> s.result.Err?)
      && (s.result.Err? ==> r.0.error == Emulator(s.result.error))
      && (s.result.Ok? ==> r.0 == Result.Ok(CommandResult.Ok))
      && r.1 == e.(runner := e.runner.(machine := s.next))
  {
    var s := Semantics.CpuCycle(e.runner.machine, random);
    var next := e.(runner := e.runner.(machine := s.next));
    match s.result
    case Err(error) => (Err(Emulator(error)), next)
    case Ok(_) => (Result.Ok(CommandResult.Ok), next)
  }

  /** The addresses of `s` from `from` on, in ascending order. */
  function Ascending(s: set<u16>, from: nat): (list: seq<u16>)
    requires from <= 0x1_0000
    ensures forall k :: 0 <= k < |list| ==> list[k] in s && from <= list[k] as nat
    ensures forall a :: a in s && from <= a as nat ==> a in list
    ensures forall j, k :: 0 <= j < k < |list| ==> list[j] < list[k]
    decreases 0x1_0000 - from
  {
    if from == 0x1_0000 then []
    else if from as u16 in s then [from as u16] + Ascending(s, from + 1)
    else Ascending(s, from + 1)
  }

  /** The breakpoints collected and sorted: every one exactly once, in
      ascending order. */
  function SortedBreakpoints(s: set<u16>): (list: seq<u16>)
    ensures forall a :: a in s <==> a in list
    ensures forall j, k :: 0 <= j < k < |list| ==> list[j] < list[k]
  {
    Ascending(s, 0)
  }

  /** `handle_breakpoint`: `Set` adds an address, `Clear` removes one,
      `ClearAll` removes all, and `List` reports them sorted without a change. */
  function HandleBreakpoint(breakpoints: set<u16>, action: BreakpointAction): (r: (CommandResult, set<u16>))
    ensures action.Set? ==> action.addr in r.1
    ensures action.Clear? ==> action.addr !in r.1
    ensures action.Set? || action.Clear? ==>
      forall a :: a != action.addr ==> (a in r.1 <==> a in breakpoints)
    ensures action.ClearAll? ==> r.1 == {}
    ensures action.List? ==> r.1 == breakpoints && r.0.BreakpointList?
    ensures !action.List? ==> r.0 == CommandResult.Ok
    ensures r.0.BreakpointList? ==>
      && (forall a :: a in breakpoints <==> a in r.0.breakpoints)
      && (forall j, k :: 0 <= j < k < |r.0.breakpoints| ==> r.0.breakpoints[j] < r.0.breakpoints[k])
  {
    match action
    case Set(addr) => (CommandResult.Ok, breakpoints + {addr})
    case Clear(addr) => (CommandResult.Ok, breakpoints - {addr})
    case ClearAll => (CommandResult.Ok, {})
    case List => (BreakpointList(SortedBreakpoints(breakpoints)), breakpoints)
  }

  /** `handle_set`: a register gets the low byte of the value (`as u8`),
      `i` and `pc` the whole value; nothing else changes. */
  function HandleSet(m: Semantics.Machine, target: SetTarget, value: u16): (m': Semantics.Machine)
    requires m.Valid()
    ensures m'.Valid()
    ensures target.V? ==> m'.v[target.reg] as int == value as int % 0x100
    ensures target.V? ==> forall k :: 0 <= k < Semantics.REGISTER_COUNT && k != target.reg as int ==> m'.v[k] == m.v[k]
    ensures target.V? ==> m' == m.(v := m'.v)
    ensures target.I? ==> m' == m.(i := value)
    ensures target.Pc? ==> m' == m.(pc := value)
  {
    match target
    case V(reg) => m.(v := m.v[reg := (value as int % 0x100) as u8])
    case I => m.(i := value)
    case Pc => m.(pc := value)
  }

  /** `execute`: one command; only `Step` can fail, and only `Quit`
      answers `Quit`. */
  function Execute(e: ExecutorState, command: Command, random: u8): (r: (Result<CommandResult, CommandError>, ExecutorState))
    requires e.Valid()
    ensures r.1.Valid()
    ensures r.0.Err? ==> command.Step?
    ensures r.0 == Result.Ok(CommandResult.Quit) <==> command.Quit?
    ensures command.Run? || command.Pause? ==> r == (Result.Ok(CommandResult.Ok), e.(isRunning := command.Run?))
    ensures !command.Run? && !command.Pause? ==> r.1.isRunning == e.isRunning
    ensures !command.Breakpoint? ==> r.1.breakpoints == e.breakpoints
    ensures r.1.runner.cpuAcc == e.runner.cpuAcc && r.1.runner.timerAcc == e.runner.timerAcc
    ensures command.Quit? ==> r.1 == e
    ensures command.Set? ==>
      r == (Result.Ok(CommandResult.Ok), e.(runner := e.runner.(machine := HandleSet(e.runner.machine, command.target, command.value))))
    ensures command.Breakpoint? ==>
      r == (Result.Ok(HandleBreakpoint(e.breakpoints, command.action).0), e.(breakpoints := HandleBreakpoint(e.breakpoints, command.action).1))
    ensures command.Step? ==> r == StepCycle(e, random)
  {
    match command
    case Run => (Result.Ok(CommandResult.Ok), e.(isRunning := true))
    case Pause => (Result.Ok(CommandResult.Ok), e.(isRunning := false))
    case Step => StepCycle(e, random)
    case Breakpoint(action) =>
      var (result, breakpoints) := HandleBreakpoint(e.breakpoints, action);
      (Result.Ok(result), e.(breakpoints := breakpoints))
    case Set(target, value) =>
      (Result.Ok(CommandResult.Ok), e.(runner := e.runner.(machine := HandleSet(e.runner.machine, target, value))))
    case Quit => (Result.Ok(CommandResult.Quit), e)
  }

  /** Setting a breakpoint and clearing it again leaves the set without it,
      and as it was if it was not there before. */
  lemma SetThenClear(breakpoints: set<u16>, addr: u16)
    ensures HandleBreakpoint(HandleBreakpoint(breakpoints, BreakpointAction.Set(addr)).1, Clear(addr)).1 == breakpoints - {addr}
    ensures addr !in breakpoints ==>
      HandleBreakpoint(HandleBreakpoint(breakpoints, BreakpointAction.Set(addr)).1, Clear(addr)).1 == breakpoints
  {
  }

  /** Writing a register and reading it back through a `Set` of the same
      register with its current value changes nothing. */
  lemma SetOwnValue(m: Semantics.Machine, reg: u4)
    requires m.Valid()
    ensures HandleSet(m, V(reg), m.v[reg] as u16) == m
  {
    assert HandleSet(m, V(reg), m.v[reg] as u16).v == m.v;
  }

  /** A running poll stops at a breakpoint: when the update has at least one
      CPU step to run and its first cycle, which runs on the machine whose
      timers have already ticked, succeeds with `pc` on a breakpoint, the
      poll reports `HitBreakpoint`, pauses and keeps that cycle's machine. */
  lemma PollPausesAtBreakpoint(e: ExecutorState, dt: nat, random: nat -> u8)
    requires e.Valid() && e.isRunning && e.runner.cpuAcc + dt >= Timing.CPU_TIME_STEP
    requires var ticked := MachineProperties.TimersCycles(e.runner.machine, (e.runner.timerAcc + dt) / Timing.TIMER_TIME_STEP);
      var s := Semantics.CpuCycle(ticked, random(0));
      s.result.Ok? && s.next.pc in e.breakpoints
    ensures var ticked := MachineProperties.TimersCycles(e.runner.machine, (e.runner.timerAcc + dt) / Timing.TIMER_TIME_STEP);
      var r := Poll(e, dt, random);
      && r.0 == Result.Ok(Timing.Chip8RunnerResult.HitBreakpoint)
      && !r.1.isRunning
      && r.1.runner.machine == Semantics.CpuCycle(ticked, random(0)).next
      && r.1.runner.cpuAcc == 0
  {
    var ticked := MachineProperties.TimersCycles(e.runner.machine, (e.runner.timerAcc + dt) / Timing.TIMER_TIME_STEP);
    Timing.CpuCycleKeepsValid();
    Timing.UpdateWithBreakpointsReports(e.runner, dt, Some(e.breakpoints), random, Semantics.CpuCycle);
    Timing.IterationEnds(ticked, e.runner.cpuAcc + dt, Some(e.breakpoints), random, Semantics.CpuCycle, 0);
  }

  /** A paused executor stays paused and unchanged however often it is
      polled; running resumes polling. */
  lemma PausedPollIsIdle(e: ExecutorState, dt: nat, random: nat -> u8)
    requires e.Valid() && !e.isRunning
    ensures Poll(e, dt, random).1 == e
    ensures Execute(e, Run, 0).1.isRunning
  {
  }
}

/** The `Executor` itself: a class that owns the runner and updates its flag,
    its breakpoints and the machine in place, proved against the functions of
    module DebuggerModel. */
module Debugger {
  import opened Primitives
  import opened Wrappers
  import opened Types
  import Semantics
  import Timing
  import EmuRunner
  import opened DebuggerModel

  class Executor {
    var isRunning: bool
    const runner: EmuRunner.Chip8Runner
    var breakpoints: set<u16>

    /** The executor and the runner it owns. */
    ghost const Repr: set<object>

    ghost predicate Valid()
      reads this, Repr
    {
      && Repr == {this, runner} + runner.Repr
      && this !in runner.Repr
      && runner.Valid()
    }

    /** The executor state this object holds. */
    ghost function State(): (e: ExecutorState)
      requires Valid()
      reads this, Repr
      ensures e.Valid()
    {
      ExecutorState(isRunning, runner.State(), breakpoints)
    }

    /** `Executor::new`. */
    constructor (runner: EmuRunner.Chip8Runner)
      requires runner.Valid()
      ensures Valid() && this.runner == runner && fresh(Repr - runner.Repr)
      ensures State() == NewExecutor(runner.State())
    {
      this.runner := runner;
      isRunning := false;
      breakpoints := {};
      Repr := {this, runner} + runner.Repr;
    }

    /** `poll`. */
    method Poll(dt: nat, random: nat -> u8) returns (r: Result<Timing.Chip8RunnerResult, Chip8Error>)
      requires Valid()
      modifies Repr
      ensures Valid()
      ensures (r, State()) == DebuggerModel.Poll(old(State()), dt, random)
    {
      if !isRunning {
        return Result.Ok(Timing.Chip8RunnerResult.Ok);
      }
      r := runner.UpdateWithBreakpoints(dt, Some(breakpoints), random);
      if r.Err? || r == Result.Ok(Timing.Chip8RunnerResult.HitBreakpoint) {
        isRunning := false;
      }
    }

    /** `execute`. */
    method Execute(command: Command, random: u8) returns (r: Result<CommandResult, CommandError>)
      requires Valid()
      modifies Repr
      ensures Valid()
      ensures (r, State()) == DebuggerModel.Execute(old(State()), command, random)
    {
      match command
      case Run =>
        ExecuteRun();
        r := Result.Ok(CommandResult.Ok);
      case Pause =>
        ExecutePause();
        r := Result.Ok(CommandResult.Ok);
      case Step =>
        r := ExecuteStep(random);
      case Breakpoint(action) =>
        r := HandleBreakpoint(action);
      case Set(target, value) =>
        r := HandleSet(target, value);
      case Quit =>
        r := Result.Ok(CommandResult.Quit);
    }

    /** `execute_run`. */
    method ExecuteRun()
      requires Valid()
      modifies this
      ensures Valid() && State() == old(State()).(isRunning := true)
    {
      isRunning := true;
    }

    /** `execute_pause`. */
    method ExecutePause()
      requires Valid()
      modifies this
      ensures Valid() && State() == old(State()).(isRunning := false)
    {
      isRunning := false;
    }

    /** `execute_step`: one CPU cycle of the runner's machine. */
    method ExecuteStep(random: u8) returns (r: Result<CommandResult, CommandError>)
      requires Valid()
      modifies Repr
      ensures Valid()
      ensures (r, State()) == StepCycle(old(State()), random)
    {
      var cycle := runner.chip8.CpuCycle(random);
      if cycle.Err? {
        return Err(Emulator(cycle.error));
      }
      r := Result.Ok(CommandResult.Ok);
    }

    /** `handle_breakpoint`. */
    method HandleBreakpoint(action: BreakpointAction) returns (r: Result<CommandResult, CommandError>)
      requires Valid()
      modifies this
      ensures Valid()
      ensures var (result, bps) := DebuggerModel.HandleBreakpoint(old(breakpoints), action);
        r == Result.Ok(result) && State() == old(State()).(breakpoints := bps)
    {
      match action {
        case Set(addr) =>
          breakpoints := breakpoints + {addr};
        case Clear(addr) =>
          breakpoints := breakpoints - {addr};
        case ClearAll =>
          breakpoints := {};
        case List =>
          return Result.Ok(BreakpointList(SortedBreakpoints(breakpoints)));
      }
      r := Result.Ok(CommandResult.Ok);
    }

    /** `handle_set`: writes the runner's machine directly. */
    method HandleSet(target: SetTarget, value: u16) returns (r: Result<CommandResult, CommandError>)
      requires Valid()
      modifies runner.chip8, runner.chip8.v
      ensures Valid() && r == Result.Ok(CommandResult.Ok)
      ensures State() == old(State()).(runner := old(State()).runner.(machine :=
        DebuggerModel.HandleSet(old(State()).runner.machine, target, value)))
    {
      var chip8 := runner.chip8;
      match target {
        case V(reg) =>
          chip8.v[reg] := (value as int % 0x100) as u8;
        case I =>
          chip8.i := value;
        case Pc =>
          chip8.pc := value;
      }
      r := Result.Ok(CommandResult.Ok);
    }

    /** `is_running`. */
    function IsRunning(): (running: bool)
      requires Valid()
      reads this, Repr
      ensures running == State().isRunning
    {
      isRunning
    }

    /** `get_display`: the machine's framebuffer. */
    function GetDisplay(): (d: array2<bool>)
      requires Valid()
      reads this, Repr
      ensures d.Length0 == DISPLAY_Y && d.Length1 == DISPLAY_X
      ensures forall r, c :: 0 <= r < DISPLAY_Y && 0 <= c < DISPLAY_X ==> d[r, c] == State().runner.machine.display[r][c]
    {
      runner.chip8.display
    }

    /** `get_pc`. */
    function GetPc(): (pc: u16)
      requires Valid()
      reads this, Repr
      ensures pc == State().runner.machine.pc
    {
      runner.chip8.pc
    }

    /** `get_i`. */
    function GetI(): (i: u16)
      requires Valid()
      reads this, Repr
      ensures i == State().runner.machine.i
    {
      runner.chip8.i
    }

    /** `get_v`: the sixteen registers. */
    function GetV(): (v: seq<u8>)
      requires Valid()
      reads this, Repr
      ensures |v| == Semantics.REGISTER_COUNT && v == State().runner.machine.v
    {
      runner.chip8.v[..]
    }

    /** `get_stack`. */
    function GetStack(): (stack: seq<u16>)
      requires Valid()
      reads this, Repr
      ensures stack == State().runner.machine.stack
    {
      runner.chip8.stack
    }

    /** `get_delay_timer`. */
    function GetDelayTimer(): (t: u8)
      requires Valid()
      reads this, Repr
      ensures t == State().runner.machine.delayTimer
    {
      runner.chip8.delayTimer
    }

    /** `get_sound_timer`. */
    function GetSoundTimer(): (t: u8)
      requires Valid()
      reads this, Repr
      ensures t == State().runner.machine.soundTimer
    {
      runner.chip8.soundTimer
    }

    /** `get_keypad`: the sixteen keys. */
    function GetKeypad(): (keys: seq<bool>)
      requires Valid()
      reads this, Repr
      ensures |keys| == Semantics.KEY_COUNT && keys == State().runner.machine.keypad
    {
      runner.chip8.keypad[..]
    }
  }
}
