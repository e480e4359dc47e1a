/** The `Chip8` struct of src/emu/chip8.rs with the instruction engine of
    src/execute.rs, as a class whose methods update its arrays and fields in
    place. Every method is proved to leave the machine in the state the
    matching function of module Semantics describes. */
module Emu {
  import opened Primitives
  import opened Nibble
  import opened Wrappers
  import opened Types
  import opened Font
  import opened Opcodes
  import Semantics

  /** The pixels the sprite covers once `row` whole rows and the first `col`
      pixels of the next row have been drawn. */
  ghost predicate CoveredUpTo(memory: seq<u8>, i: u16, p: Semantics.Placement, row: nat, col: nat, r: nat, c: nat)
    requires |memory| == Semantics.MEMORY_SIZE && p.rowCount <= DISPLAY_Y
    requires row < Semantics.ReadableRows(i, p.rowCount)
  {
    || Semantics.Covered(memory, i, p, row, r, c)
    || (r == p.yPos + row && c < p.xPos + col && Semantics.Covered(memory, i, p, row + 1, r, c))
  }

  /** Drawing no pixel of a row covers what the previous rows covered, and
      drawing all of them covers one row more. */
  lemma CoveredUpToBounds(memory: seq<u8>, i: u16, p: Semantics.Placement, row: nat)
    requires |memory| == Semantics.MEMORY_SIZE && p.rowCount <= DISPLAY_Y
    requires row < Semantics.ReadableRows(i, p.rowCount)
    ensures forall r, c :: CoveredUpTo(memory, i, p, row, 0, r, c) == Semantics.Covered(memory, i, p, row, r, c)
    ensures forall r, c :: CoveredUpTo(memory, i, p, row, p.colCount, r, c) == Semantics.Covered(memory, i, p, row + 1, r, c)
  {
  }

  /** Drawing pixel `col` of a row covers that one pixel more, if its sprite
      bit is set, and it was not covered before. */
  lemma CoveredUpToStep(memory: seq<u8>, i: u16, p: Semantics.Placement, row: nat, col: nat)
    requires |memory| == Semantics.MEMORY_SIZE && p.rowCount <= DISPLAY_Y
    requires row < Semantics.ReadableRows(i, p.rowCount) && col < p.colCount <= 8
    ensures !CoveredUpTo(memory, i, p, row, col, p.yPos + row, p.xPos + col)
    ensures forall r, c ::
              CoveredUpTo(memory, i, p, row, col + 1, r, c)
              == (|| CoveredUpTo(memory, i, p, row, col, r, c)
                  || (r == p.yPos + row && c == p.xPos + col
                      && Semantics.SpriteBit(memory[Semantics.RowAddress(i, row)], col)))
  {
  }

  /** `any_erased` records whether a covered pixel was lit before, with a
      witness when it was. */
  ghost predicate ErasedSoFar(anyErased: bool, erasedRow: nat, erasedCol: nat, before: Display,
                              memory: seq<u8>, i: u16, p: Semantics.Placement, row: nat, col: nat)
    requires IsDisplay(before) && |memory| == Semantics.MEMORY_SIZE && p.rowCount <= DISPLAY_Y
    requires row < Semantics.ReadableRows(i, p.rowCount)
  {
    && (anyErased ==>
          (erasedRow < DISPLAY_Y && erasedCol < DISPLAY_X && before[erasedRow][erasedCol]
           && CoveredUpTo(memory, i, p, row, col, erasedRow, erasedCol)))
    && (!anyErased ==>
          (forall r, c ::
             (0 <= r < DISPLAY_Y && 0 <= c < DISPLAY_X && CoveredUpTo(memory, i, p, row, col, r, c))
             ==> !before[r][c]))
  }

  /** Pixel `col` of the row adds an erased pixel exactly when its sprite bit
      is set and it was lit before. */
  lemma ErasedStep(anyErased: bool, erasedRow: nat, erasedCol: nat, before: Display,
                   memory: seq<u8>, i: u16, p: Semantics.Placement, row: nat, col: nat)
    requires IsDisplay(before) && |memory| == Semantics.MEMORY_SIZE && p.rowCount <= DISPLAY_Y
    requires row < Semantics.ReadableRows(i, p.rowCount) && col < p.colCount <= 8
    requires p.yPos + row < DISPLAY_Y && p.xPos + p.colCount <= DISPLAY_X
    requires ErasedSoFar(anyErased, erasedRow, erasedCol, before, memory, i, p, row, col)
    ensures var r, c := p.yPos + row, p.xPos + col;
      if Semantics.SpriteBit(memory[Semantics.RowAddress(i, row)], col) && before[r][c]
      then ErasedSoFar(true, r, c, before, memory, i, p, row, col + 1)
      else ErasedSoFar(anyErased, erasedRow, erasedCol, before, memory, i, p, row, col + 1)
  {
    CoveredUpToStep(memory, i, p, row, col);
  }

  /** `any_erased` after `rows` whole rows, with a witness when it is set. */
  ghost predicate ErasedRows(anyErased: bool, erasedRow: nat, erasedCol: nat, before: Display,
                             memory: seq<u8>, i: u16, p: Semantics.Placement, rows: nat)
    requires IsDisplay(before) && |memory| == Semantics.MEMORY_SIZE && p.rowCount <= DISPLAY_Y
    requires rows <= Semantics.ReadableRows(i, p.rowCount)
  {
    && (anyErased ==>
          (erasedRow < DISPLAY_Y && erasedCol < DISPLAY_X && before[erasedRow][erasedCol]
           && Semantics.Covered(memory, i, p, rows, erasedRow, erasedCol)))
    && (!anyErased ==>
          (forall r, c ::
             (0 <= r < DISPLAY_Y && 0 <= c < DISPLAY_X && Semantics.Covered(memory, i, p, rows, r, c))
             ==> !before[r][c]))
  }

  /** The start and the end of a row, in terms of the pixel-level invariant. */
  lemma ErasedRowBounds(anyErased: bool, erasedRow: nat, erasedCol: nat, before: Display,
                        memory: seq<u8>, i: u16, p: Semantics.Placement, row: nat)
    requires IsDisplay(before) && |memory| == Semantics.MEMORY_SIZE && p.rowCount <= DISPLAY_Y
    requires row < Semantics.ReadableRows(i, p.rowCount)
    ensures ErasedRows(anyErased, erasedRow, erasedCol, before, memory, i, p, row)
            == ErasedSoFar(anyErased, erasedRow, erasedCol, before, memory, i, p, row, 0)
    ensures ErasedRows(anyErased, erasedRow, erasedCol, before, memory, i, p, row + 1)
            == ErasedSoFar(anyErased, erasedRow, erasedCol, before, memory, i, p, row, p.colCount)
  {
    CoveredUpToBounds(memory, i, p, row);
  }

  /** Once every row is drawn, `any_erased` says whether a lit pixel went dark. */
  lemma ErasedRowsMeansAnyErased(anyErased: bool, erasedRow: nat, erasedCol: nat, before: Display,
                                 memory: seq<u8>, i: u16, p: Semantics.Placement, rows: nat)
    requires IsDisplay(before) && |memory| == Semantics.MEMORY_SIZE && p.rowCount <= DISPLAY_Y
    requires rows <= Semantics.ReadableRows(i, p.rowCount)
    requires ErasedRows(anyErased, erasedRow, erasedCol, before, memory, i, p, rows)
    ensures anyErased <==> Semantics.AnyErased(before, Semantics.Drawn(before, memory, i, p, rows))
  {
    var after := Semantics.Drawn(before, memory, i, p, rows);
    if anyErased {
      assert before[erasedRow][erasedCol] && !after[erasedRow][erasedCol];
    }
  }

  class Chip8 {
    const memory: array<u8>
    const display: array2<bool>
    var pc: u16
    var i: u16
    const v: array<u8>
    var stack: seq<u16>
    var delayTimer: u8
    var soundTimer: u8
    var waitReleaseKey: Option<u8>
    const keypad: array<bool>

    /** The objects this machine consists of. */
    ghost const Repr: set<object> := {this, memory, display, v, keypad}

    ghost predicate Valid()
      reads this, Repr
    {
      && memory.Length == Semantics.MEMORY_SIZE
      && display.Length0 == DISPLAY_Y && display.Length1 == DISPLAY_X
      && v.Length == Semantics.REGISTER_COUNT
      && keypad.Length == Semantics.KEY_COUNT
      && memory != v
      && (waitReleaseKey.Some? ==> waitReleaseKey.value as nat < Semantics.KEY_COUNT)
    }

    /** The display as rows of pixels. */
    ghost function Screen(): (d: Display)
      requires display.Length0 == DISPLAY_Y && display.Length1 == DISPLAY_X
      reads display
      ensures IsDisplay(d)
    {
      seq(DISPLAY_Y, r requires 0 <= r < DISPLAY_Y reads display =>
        seq(DISPLAY_X, c requires 0 <= c < DISPLAY_X reads display => display[r, c]))
    }

    /** The machine state this object holds. */
    ghost function State(): (m: Semantics.Machine)
      requires Valid()
      reads this, Repr
      ensures m.Valid()
    {
      Semantics.Machine(memory[..], Screen(), pc, i, v[..], stack, delayTimer, soundTimer,
                        waitReleaseKey, keypad[..])
    }

    /** A screen equal pixel by pixel to a display is that display. */
    lemma ScreenIs(d: Display)
      requires display.Length0 == DISPLAY_Y && display.Length1 == DISPLAY_X && IsDisplay(d)
      requires forall r, c :: 0 <= r < DISPLAY_Y && 0 <= c < DISPLAY_X ==> display[r, c] == d[r][c]
      ensures Screen() == d
    {
      DisplayExtensionality(Screen(), d);
    }

    /** `Chip8::new`. */
    constructor ()
      ensures Valid() && fresh(Repr)
      ensures State() == Semantics.New()
    {
      memory := new u8[Semantics.MEMORY_SIZE](_ => 0);
      display := new bool[DISPLAY_Y, DISPLAY_X]((_, _) => false);
      pc := Semantics.ROM_START_ADDRESS as u16;
      i := 0;
      v := new u8[Semantics.REGISTER_COUNT](_ => 0);
      stack := [];
      delayTimer := 0;
      soundTimer := 0;
      waitReleaseKey := None;
      keypad := new bool[Semantics.KEY_COUNT](_ => false);
      new;
      ScreenIs(BlankDisplay());
      assert memory[..] == seq(Semantics.MEMORY_SIZE, _ => 0);
      assert v[..] == seq(Semantics.REGISTER_COUNT, _ => 0);
      assert keypad[..] == seq(Semantics.KEY_COUNT, _ => false);
    }

    /** `load`: copy the font, then the ROM if it fits. */
    method Load(rom: seq<u8>) returns (r: Result<(), Chip8Error>)
      requires Valid()
      modifies this, memory
      ensures Valid()
      ensures Semantics.Transition(r, State()) == Semantics.Load(old(State()), rom)
    {
      forall a | FONT_START_ADDRESS <= a < FONT_END_ADDRESS {
        memory[a] := FONT[a - FONT_START_ADDRESS];
      }
      ghost var withFont := memory[..];
      assert withFont == old(memory[..])[..FONT_START_ADDRESS] + FONT + old(memory[..])[FONT_END_ADDRESS..];
      var romEnd := Semantics.ROM_START_ADDRESS + |rom|;
      if romEnd > Semantics.MEMORY_SIZE {
        r := Err(RomLoadError(|rom|, Semantics.MEMORY_SIZE - Semantics.ROM_START_ADDRESS));
        return;
      }
      forall a | Semantics.ROM_START_ADDRESS <= a < romEnd {
        memory[a] := rom[a - Semantics.ROM_START_ADDRESS];
      }
      assert memory[..] == withFont[..Semantics.ROM_START_ADDRESS] + rom + withFont[romEnd..];
      pc := Semantics.ROM_START_ADDRESS as u16;
      r := Ok(());
    }

    /** `cpu_cycle`. */
    method CpuCycle(random: u8) returns (r: Result<Chip8Result, Chip8Error>)
      requires Valid()
      modifies Repr
      ensures Valid()
      ensures Semantics.Transition(r, State()) == Semantics.CpuCycle(old(State()), random)
    {
      var opcode :- Fetch();
      var decoded := Decode(opcode);
      r := Execute(decoded, random);
    }

    /** `timers_cycle`. */
    method TimersCycle()
      requires Valid()
      modifies this
      ensures Valid()
      ensures State() == Semantics.TimersCycle(old(State()))
    {
      delayTimer := SaturatingDecrement(delayTimer);
      soundTimer := SaturatingDecrement(soundTimer);
    }

    /** `should_beep`. */
    function ShouldBeep(): (b: bool)
      requires Valid()
      reads this, Repr
      ensures b == Semantics.ShouldBeep(State())
    {
      soundTimer > 0
    }

    /** `set_key`. */
    method SetKey(key: u4, pressed: bool)
      requires Valid()
      modifies keypad
      ensures Valid()
      ensures State() == Semantics.SetKey(old(State()), key, pressed)
    {
      keypad[key] := pressed;
    }

    /** `get_display_pixel`. */
    function GetDisplayPixel(y: nat, x: nat): (b: bool)
      requires Valid() && y < DISPLAY_Y && x < DISPLAY_X
      reads this, Repr
      ensures b == Semantics.GetDisplayPixel(State(), y, x)
    {
      display[y, x]
    }

    /** `fetch`: reads two bytes and changes nothing. */
    method Fetch() returns (r: Result<u16, Chip8Error>)
      requires Valid()
      ensures r == Semantics.Fetch(State())
    {
      var high :- Semantics.MemGet(pc);
      var low :- Semantics.MemGet(WrappingAdd16(pc, 1));
      r := Ok((memory[high] as int * 0x100 + memory[low] as int) as u16);
    }

    /** `execute`. */
    method Execute(op: Opcode, random: u8) returns (r: Result<Chip8Result, Chip8Error>)
      requires Valid()
      modifies Repr
      ensures Valid()
      ensures Semantics.Transition(r, State()) == Semantics.Execute(old(State()), op, random)
    {
      pc := WrappingAdd16(pc, 2);
      r := Perform(op, random);
    }

    /** The `match` of `execute`. */
    method Perform(op: Opcode, random: u8) returns (r: Result<Chip8Result, Chip8Error>)
      requires Valid()
      modifies Repr
      ensures Valid()
      ensures Semantics.Transition(r, State()) == Semantics.Perform(old(State()), op, random)
    {
      if op.Draw? || op.WaitForKey? || op.BCD? || op.StoreRegs? || op.LoadRegs? {
        r := PerformMemoryAndInput(op, random);
      } else {
        r := PerformRegisters(op, random);
      }
    }

    /** The arms of `execute` that touch only `pc`, `i`, the stack, the
        timers and the registers. */
    method PerformRegisters(op: Opcode, random: u8) returns (r: Result<Chip8Result, Chip8Error>)
      requires Valid()
      requires !(op.Draw? || op.WaitForKey? || op.BCD? || op.StoreRegs? || op.LoadRegs?)
      modifies Repr
      ensures Valid()
      ensures Semantics.Transition(r, State()) == Semantics.Perform(old(State()), op, random)
    {
      Semantics.PerformGroups(State(), op, random);
      match op {
        case ClearDisplay => ExecuteClearDisplay(); r := Ok(Chip8Result.Continue);
        case Jump(_) | JumpWithOffset(_) | Call(_) | Return => r := ExecuteFlow(op);
        case SkipRegEqualImm(_, _) | SkipRegNotEqualImm(_, _) | SkipRegEqualReg(_, _)
          | SkipRegNotEqualReg(_, _) | SkipIfPressed(_) | SkipIfNotPressed(_) =>
          ExecuteSkip(op); r := Ok(Chip8Result.Continue);
        case SetRegImm(_, _) | AddRegImm(_, _) | Random(_, _) | ReadDelayTimer(_) =>
          ExecuteRegisters(op, random); r := Ok(Chip8Result.Continue);
        case ALU(x, y, aluOp) => ExecuteAlu(x, y, aluOp); r := Ok(Chip8Result.Continue);
        case SetIndexImm(_) | AddIndexReg(_) | SetDelayTimer(_) | SetSoundTimer(_) | FontChar(_) =>
          ExecuteIndexAndTimers(op); r := Ok(Chip8Result.Continue);
        case Unknown(opcode) => r := Err(UnknownOpcode(opcode));
        case UnknownALU(opcode) => r := Err(UnknownALUOpcode(opcode));
      }
    }

    /** The arms of `execute` that draw, wait for a key or access memory. */
    method PerformMemoryAndInput(op: Opcode, random: u8) returns (r: Result<Chip8Result, Chip8Error>)
      requires Valid()
      requires op.Draw? || op.WaitForKey? || op.BCD? || op.StoreRegs? || op.LoadRegs?
      modifies Repr
      ensures Valid()
      ensures Semantics.Transition(r, State()) == Semantics.Perform(old(State()), op, random)
    {
      Semantics.PerformMemoryArms(State(), op, random);
      match op {
        case Draw(x, y, n) => r := ExecuteDraw(x, y, n);
        case WaitForKey(x) => var result := ExecuteWaitForKey(x); r := Ok(result);
        case BCD(x) => r := ExecuteBcd(Index(v[..], x));
        case StoreRegs(x) => r := ExecuteStoreRegs(x);
        case LoadRegs(x) => r := ExecuteLoadRegs(x);
      }
    }

    /** 00E0. */
    method ExecuteClearDisplay()
      requires Valid()
      modifies display
      ensures Valid()
      ensures State() == old(State()).(display := BlankDisplay())
    {
      ghost var m := State();
      forall r, c | 0 <= r < DISPLAY_Y && 0 <= c < DISPLAY_X {
        display[r, c] := false;
      }
      ScreenIs(BlankDisplay());
      assert memory[..] == m.memory && v[..] == m.v && keypad[..] == m.keypad;
    }

    /** Jumps, calls and returns. */
    method ExecuteFlow(op: Opcode) returns (r: Result<Chip8Result, Chip8Error>)
      requires Valid()
      requires op.Jump? || op.JumpWithOffset? || op.Call? || op.Return?
      modifies this
      ensures Valid()
      ensures Semantics.Transition(r, State()) == Semantics.Flow(old(State()), op)
    {
      r := Ok(Chip8Result.Continue);
      match op {
        case Jump(nnn) => pc := nnn;
        case JumpWithOffset(nnn) => pc := WrappingAdd16(nnn, v[0] as u16);
        case Call(nnn) =>
          stack := stack + [pc];
          pc := nnn;
        case Return =>
          if |stack| == 0 {
            r := Err(StackUnderflow);
          } else {
            pc := stack[|stack| - 1];
            stack := stack[..|stack| - 1];
          }
      }
    }

    /** The conditional skips. */
    method ExecuteSkip(op: Opcode)
      requires Valid()
      requires op.SkipRegEqualImm? || op.SkipRegNotEqualImm? || op.SkipRegEqualReg?
        || op.SkipRegNotEqualReg? || op.SkipIfPressed? || op.SkipIfNotPressed?
      modifies this
      ensures Valid()
      ensures State() == Semantics.Skip(old(State()), op)
    {
      var condition;
      match op {
        case SkipRegEqualImm(x, nn) => condition := v[x] == nn;
        case SkipRegNotEqualImm(x, nn) => condition := v[x] != nn;
        case SkipRegEqualReg(x, y) => condition := v[x] == v[y];
        case SkipRegNotEqualReg(x, y) => condition := v[x] != v[y];
        case SkipIfPressed(x) => condition := keypad[Semantics.KeyOf(v[x])];
        case SkipIfNotPressed(x) => condition := !keypad[Semantics.KeyOf(v[x])];
      }
      if condition {
        pc := WrappingAdd16(pc, 2);
      }
    }

    /** Writes of a single V register. */
    method ExecuteRegisters(op: Opcode, random: u8)
      requires Valid()
      requires op.SetRegImm? || op.AddRegImm? || op.Random? || op.ReadDelayTimer?
      modifies v
      ensures Valid()
      ensures State() == old(State()).(v := Semantics.WriteRegister(old(State()), op, random))
    {
      var x := op.x;
      var value;
      match op {
        case SetRegImm(_, nn) => value := nn;
        case AddRegImm(_, nn) => value := WrappingAdd8(v[x], nn);
        case Random(_, nn) => value := And8(random, nn);
        case ReadDelayTimer(_) => value := delayTimer;
      }
      v[x] := value;
    }

    /** Index and timer writes. */
    method ExecuteIndexAndTimers(op: Opcode)
      requires Valid()
      requires op.SetIndexImm? || op.AddIndexReg? || op.SetDelayTimer? || op.SetSoundTimer? || op.FontChar?
      modifies this
      ensures Valid()
      ensures State() == Semantics.IndexAndTimers(old(State()), op)
    {
      ghost var m := State();
      match op {
        case SetIndexImm(nnn) => i := nnn;
        case AddIndexReg(x) => i := WrappingAdd16(i, v[x] as u16);
        case SetDelayTimer(x) => delayTimer := v[x];
        case SetSoundTimer(x) => soundTimer := v[x];
        case FontChar(x) => i := Semantics.FontAddress(v[x]);
      }
      assert memory[..] == m.memory && v[..] == m.v && keypad[..] == m.keypad && Screen() == m.display;
    }

    /** `execute_alu`. */
    method ExecuteAlu(x: u4, y: u4, op: OpcodeALU)
      requires Valid()
      modifies v
      ensures Valid()
      ensures State() == old(State()).(v := Semantics.Alu(old(v[..]), x, y, op))
    {
      match op {
        case Set => v[x] := v[y];
        case Or =>
          v[x] := Or8(v[x], v[y]);
          v[Semantics.VF] := 0;
        case And =>
          v[x] := And8(v[x], v[y]);
          v[Semantics.VF] := 0;
        case Xor =>
          v[x] := Xor8(v[x], v[y]);
          v[Semantics.VF] := 0;
        case Add =>
          var (sum, overflow) := OverflowingAdd(v[x], v[y]);
          v[x] := sum;
          v[Semantics.VF] := if overflow then 1 else 0;
        case Sub =>
          var (difference, borrow) := OverflowingSub(v[x], v[y]);
          v[x] := difference;
          v[Semantics.VF] := if borrow then 0 else 1;
        case SubReverse =>
          var (difference, borrow) := OverflowingSub(v[y], v[x]);
          v[x] := difference;
          v[Semantics.VF] := if borrow then 0 else 1;
        case ShiftRight =>
          var lsb := v[y] % 2;
          v[x] := v[y] / 2;
          v[Semantics.VF] := lsb;
        case ShiftLeft =>
          var msb := v[y] / 0x80;
          v[x] := ((v[y] as int * 2) % 0x100) as u8;
          v[Semantics.VF] := msb;
      }
    }

    /** Fx33. */
    method ExecuteBcd(value: u8) returns (r: Result<Chip8Result, Chip8Error>)
      requires Valid()
      modifies memory
      ensures Valid()
      ensures Semantics.Transition(r, State()) == Semantics.Bcd(old(State()), value)
    {
      var hundreds :- Semantics.MemGet(i);
      memory[hundreds] := value / 100;
      var tens :- Semantics.MemGet(WrappingAdd16(i, 1));
      memory[tens] := (value / 10) % 10;
      var ones :- Semantics.MemGet(WrappingAdd16(i, 2));
      memory[ones] := value % 10;
      r := Ok(Chip8Result.Continue);
    }

    /** Fx55. */
    method ExecuteStoreRegs(x: u4) returns (r: Result<Chip8Result, Chip8Error>)
      requires Valid()
      modifies this, memory
      ensures Valid()
      ensures Semantics.Transition(r, State()) == Semantics.StoreRegs(old(State()), x, 0)
    {
      for regIndex := 0 to ToUsize(x) + 1
        invariant Valid()
        invariant Semantics.StoreRegs(State(), x, regIndex) == Semantics.StoreRegs(old(State()), x, 0)
      {
        var slot :- Semantics.MemGet(i);
        memory[slot] := v[regIndex];
        i := WrappingAdd16(i, 1);
      }
      r := Ok(Chip8Result.Continue);
    }

    /** Fx65. */
    method ExecuteLoadRegs(x: u4) returns (r: Result<Chip8Result, Chip8Error>)
      requires Valid()
      modifies this, v
      ensures Valid()
      ensures Semantics.Transition(r, State()) == Semantics.LoadRegs(old(State()), x, 0)
    {
      for regIndex := 0 to ToUsize(x) + 1
        invariant Valid()
        invariant Semantics.LoadRegs(State(), x, regIndex) == Semantics.LoadRegs(old(State()), x, 0)
      {
        var slot :- Semantics.MemGet(i);
        v[regIndex] := memory[slot];
        i := WrappingAdd16(i, 1);
      }
      r := Ok(Chip8Result.Continue);
    }

    /** Fx0A. */
    method ExecuteWaitForKey(x: u4) returns (r: Chip8Result)
      requires Valid()
      modifies this, v
      ensures Valid()
      ensures Semantics.Transition(Ok(r), State()) == Semantics.WaitForKey(old(State()), x)
    {
      if waitReleaseKey.Some? && !keypad[waitReleaseKey.value] {
        v[x] := waitReleaseKey.value;
        waitReleaseKey := None;
        return Chip8Result.Continue;
      }
      if waitReleaseKey.None? {
        for key := 0 to Semantics.KEY_COUNT
          invariant waitReleaseKey.None?
          invariant Semantics.FirstPressed(keypad[..], key) == Semantics.FirstPressed(keypad[..], 0)
        {
          if keypad[key] {
            waitReleaseKey := Some(key as u8);
            break;
          }
        }
      }
      pc := WrappingSub16(pc, 2);
      r := WaitForNextFrame;
    }

    /** The display holds `before` XOR the first `rows` sprite rows. */
    ghost predicate PaintedRows(before: Display, memory: seq<u8>, i: u16, p: Semantics.Placement, rows: nat)
      requires display.Length0 == DISPLAY_Y && display.Length1 == DISPLAY_X && IsDisplay(before)
      requires |memory| == Semantics.MEMORY_SIZE && p.rowCount <= DISPLAY_Y
      requires rows <= Semantics.ReadableRows(i, p.rowCount)
      reads display
    {
      forall r, c :: 0 <= r < DISPLAY_Y && 0 <= c < DISPLAY_X ==>
        display[r, c] == (before[r][c] != Semantics.Covered(memory, i, p, rows, r, c))
    }

    /** The start and the end of a row, in terms of the pixel-level invariant. */
    lemma PaintedRowBounds(before: Display, memory: seq<u8>, i: u16, p: Semantics.Placement, row: nat)
      requires display.Length0 == DISPLAY_Y && display.Length1 == DISPLAY_X && IsDisplay(before)
      requires |memory| == Semantics.MEMORY_SIZE && p.rowCount <= DISPLAY_Y
      requires row < Semantics.ReadableRows(i, p.rowCount)
      ensures PaintedRows(before, memory, i, p, row) == Painted(before, memory, i, p, row, 0)
      ensures PaintedRows(before, memory, i, p, row + 1) == Painted(before, memory, i, p, row, p.colCount)
    {
      CoveredUpToBounds(memory, i, p, row);
    }

    /** A display that holds the first `rows` rows is `Drawn` of them. */
    lemma PaintedRowsScreen(before: Display, memory: seq<u8>, i: u16, p: Semantics.Placement, rows: nat)
      requires display.Length0 == DISPLAY_Y && display.Length1 == DISPLAY_X && IsDisplay(before)
      requires |memory| == Semantics.MEMORY_SIZE && p.rowCount <= DISPLAY_Y
      requires rows <= Semantics.ReadableRows(i, p.rowCount)
      requires PaintedRows(before, memory, i, p, rows)
      ensures Screen() == Semantics.Drawn(before, memory, i, p, rows)
    {
      ScreenIs(Semantics.Drawn(before, memory, i, p, rows));
    }

    /** The display holds `before` XOR the pixels covered so far. */
    ghost predicate Painted(before: Display, memory: seq<u8>, i: u16, p: Semantics.Placement, row: nat, col: nat)
      requires display.Length0 == DISPLAY_Y && display.Length1 == DISPLAY_X && IsDisplay(before)
      requires |memory| == Semantics.MEMORY_SIZE && p.rowCount <= DISPLAY_Y
      requires row < Semantics.ReadableRows(i, p.rowCount)
      reads display
    {
      forall r, c :: 0 <= r < DISPLAY_Y && 0 <= c < DISPLAY_X ==>
        display[r, c] == (before[r][c] != CoveredUpTo(memory, i, p, row, col, r, c))
    }

    /** One pixel of the inner loop of `execute_draw`: a set sprite bit
        flips the pixel; `erased` tells whether a lit pixel went dark. */
    method DrawPixel(ghost before: Display, p: Semantics.Placement, row: nat, col: nat, spriteByte: u8)
      returns (erased: bool)
      requires Valid() && IsDisplay(before)
      requires p.rowCount <= DISPLAY_Y && p.yPos + p.rowCount <= DISPLAY_Y && p.xPos + p.colCount <= DISPLAY_X
      requires row < Semantics.ReadableRows(i, p.rowCount) && col < p.colCount <= 8
      requires spriteByte == memory[Semantics.RowAddress(i, row)]
      requires Painted(before, memory[..], i, p, row, col)
      modifies display
      ensures Valid()
      ensures Painted(before, memory[..], i, p, row, col + 1)
      ensures erased <==> Semantics.SpriteBit(spriteByte, col) && before[p.yPos + row][p.xPos + col]
    {
      CoveredUpToStep(memory[..], i, p, row, col);
      erased := false;
      if Semantics.SpriteBit(spriteByte, col) {
        display[p.yPos + row, p.xPos + col] := !display[p.yPos + row, p.xPos + col];
        erased := !display[p.yPos + row, p.xPos + col];
      }
    }

    /** The inner loop of `execute_draw`: XOR one sprite row onto the display. */
    method DrawRow(ghost before: Display, p: Semantics.Placement, row: nat, spriteByte: u8, anyErased: bool,
                   ghost erasedRow: nat, ghost erasedCol: nat)
      returns (anyErased': bool, ghost erasedRow': nat, ghost erasedCol': nat)
      requires Valid() && IsDisplay(before)
      requires p.rowCount <= DISPLAY_Y && p.yPos + p.rowCount <= DISPLAY_Y && p.xPos + p.colCount <= DISPLAY_X
      requires p.colCount <= 8
      requires row < Semantics.ReadableRows(i, p.rowCount)
      requires spriteByte == memory[Semantics.RowAddress(i, row)]
      requires Painted(before, memory[..], i, p, row, 0)
      requires ErasedSoFar(anyErased, erasedRow, erasedCol, before, memory[..], i, p, row, 0)
      modifies display
      ensures Valid()
      ensures Painted(before, memory[..], i, p, row, p.colCount)
      ensures ErasedSoFar(anyErased', erasedRow', erasedCol', before, memory[..], i, p, row, p.colCount)
    {
      anyErased', erasedRow', erasedCol' := anyErased, erasedRow, erasedCol;
      for col := 0 to p.colCount
        invariant Painted(before, memory[..], i, p, row, col)
        invariant ErasedSoFar(anyErased', erasedRow', erasedCol', before, memory[..], i, p, row, col)
      {
        ErasedStep(anyErased', erasedRow', erasedCol', before, memory[..], i, p, row, col);
        var erased := DrawPixel(before, p, row, col, spriteByte);
        if erased {
          anyErased' := true;
          erasedRow', erasedCol' := p.yPos + row, p.xPos + col;
        }
      }
    }

    /** One sprite row, as the outer loop of `execute_draw` sees it: the
        first `row` rows drawn before, the first `row + 1` after. */
    method DrawSpriteRow(ghost before: Display, p: Semantics.Placement, row: nat, spriteByte: u8, anyErased: bool,
                         ghost erasedRow: nat, ghost erasedCol: nat)
      returns (anyErased': bool, ghost erasedRow': nat, ghost erasedCol': nat)
      requires Valid() && IsDisplay(before)
      requires p.rowCount <= DISPLAY_Y && p.yPos + p.rowCount <= DISPLAY_Y && p.xPos + p.colCount <= DISPLAY_X
      requires p.colCount <= 8
      requires row < Semantics.ReadableRows(i, p.rowCount)
      requires spriteByte == memory[Semantics.RowAddress(i, row)]
      requires PaintedRows(before, memory[..], i, p, row)
      requires ErasedRows(anyErased, erasedRow, erasedCol, before, memory[..], i, p, row)
      modifies display
      ensures Valid()
      ensures PaintedRows(before, memory[..], i, p, row + 1)
      ensures ErasedRows(anyErased', erasedRow', erasedCol', before, memory[..], i, p, row + 1)
    {
      PaintedRowBounds(before, memory[..], i, p, row);
      ErasedRowBounds(anyErased, erasedRow, erasedCol, before, memory[..], i, p, row);
      anyErased', erasedRow', erasedCol' := DrawRow(before, p, row, spriteByte, anyErased, erasedRow, erasedCol);
      PaintedRowBounds(before, memory[..], i, p, row);
      ErasedRowBounds(anyErased', erasedRow', erasedCol', before, memory[..], i, p, row);
    }

    /** `execute_draw`: row by row, remembering whether any lit pixel was
        turned off. */
    method ExecuteDraw(x: u4, y: u4, n: u4) returns (r: Result<Chip8Result, Chip8Error>)
      requires Valid()
      modifies display, v
      ensures Valid()
      ensures Semantics.Transition(r, State()) == Semantics.Draw(old(State()), x, y, n)
    {
      ghost var m := State();
      var xPos := v[x] as nat % DISPLAY_X;
      var yPos := v[y] as nat % DISPLAY_Y;
      var rowCount := Semantics.Min(ToUsize(n), DISPLAY_Y - yPos);
      var colCount := Semantics.Min(8, DISPLAY_X - xPos);
      var p := Semantics.Placement(xPos, yPos, rowCount, colCount);
      assert p == Semantics.Place(m.v, x, y, n);
      ghost var readable := Semantics.ReadableRows(i, rowCount);
      var anyErased := false;
      ghost var erasedRow: nat, erasedCol: nat := 0, 0;
      for row := 0 to rowCount
        invariant row <= readable
        invariant v[..] == m.v && memory[..] == m.memory
        invariant PaintedRows(m.display, m.memory, i, p, row)
        invariant ErasedRows(anyErased, erasedRow, erasedCol, m.display, m.memory, i, p, row)
      {
        var slot := Semantics.MemGet(Semantics.RowAddress(i, row));
        if slot.Err? {
          PaintedRowsScreen(m.display, m.memory, i, p, row);
          return Err(slot.error);
        }
        var spriteByte := memory[slot.value];
        anyErased, erasedRow, erasedCol := DrawSpriteRow(m.display, p, row, spriteByte, anyErased, erasedRow, erasedCol);
      }
      PaintedRowsScreen(m.display, m.memory, i, p, rowCount);
      ErasedRowsMeansAnyErased(anyErased, erasedRow, erasedCol, m.display, m.memory, i, p, rowCount);
      v[Semantics.VF] := if anyErased then 1 else 0;
      r := Ok(WaitForNextFrame);
    }
  }
}
