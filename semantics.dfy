/** The machine of src/emu/chip8.rs and the instruction semantics of
    src/execute.rs, as functions from one machine state to the next. The
    imperative `Chip8` class in module Emu is proved to follow these
    functions step by step. */
module Semantics {
  import opened Primitives
  import opened Nibble
  import opened Wrappers
  import opened Types
  import opened Font
  import opened Opcodes

  const MEMORY_SIZE: nat := 4096
  const ROM_START_ADDRESS: nat := 0x200
  /** The largest ROM `load` accepts. */
  const MAX_ROM_SIZE: nat := MEMORY_SIZE - ROM_START_ADDRESS
  const REGISTER_COUNT: nat := 16
  const KEY_COUNT: nat := 16
  /** Register VF, the flag register. */
  const VF: u4 := 0xF

  /** The state of the `Chip8` struct. */
  datatype Machine = Machine(
    memory: seq<u8>,
    display: Display,
    pc: u16,
    i: u16,
    v: seq<u8>,
    stack: seq<u16>,
    delayTimer: u8,
    soundTimer: u8,
    waitReleaseKey: Option<u8>,
    keypad: seq<bool>)
  {
    /** The fixed sizes of the arrays, and the awaited key is a key number. */
    predicate Valid() {
      && |memory| == MEMORY_SIZE
      && IsDisplay(display)
      && |v| == REGISTER_COUNT
      && |keypad| == KEY_COUNT
      && (waitReleaseKey.Some? ==> waitReleaseKey.value as nat < KEY_COUNT)
    }
  }

  /** The outcome of an operation that may fail part-way: its result and the
      machine state it leaves behind, including any changes made before the
      failure. */
  datatype Transition<T> = Transition(result: Result<T, Chip8Error>, next: Machine)

  type Step = Transition<Chip8Result>

  function Continue(m: Machine): Step { Transition(Ok(Chip8Result.Continue), m) }

  // ---------------------------------------------------------------------
  // src/emu/chip8.rs

  /** `Chip8::new`. */
  function New(): (m: Machine)
    ensures m.Valid()
  {
    Machine(seq(MEMORY_SIZE, _ => 0), BlankDisplay(), ROM_START_ADDRESS as u16, 0,
            seq(REGISTER_COUNT, _ => 0), [], 0, 0, None, seq(KEY_COUNT, _ => false))
  }

  /** `mem_get`: the memory slot of an address, when there is one. */
  function MemGet(addr: u16): (r: Result<nat, Chip8Error>)
    ensures r.Ok? <==> addr as nat < MEMORY_SIZE
    ensures r.Ok? ==> r.value == addr as nat
    ensures r.Err? ==> r.error == MemoryOutOfBounds(addr)
  {
    if addr as nat < MEMORY_SIZE then Ok(addr as nat) else Err(MemoryOutOfBounds(addr))
  }

  /** `fetch`: the big-endian word at `pc` and `pc + 1`. */
  function Fetch(m: Machine): (r: Result<u16, Chip8Error>)
    requires m.Valid()
    ensures r.Ok? <==> m.pc as nat + 1 < MEMORY_SIZE
    ensures r.Ok? ==> r.value as int == m.memory[m.pc] as int * 0x100 + m.memory[m.pc as nat + 1] as int
    ensures m.pc as nat >= MEMORY_SIZE ==> r == Err(MemoryOutOfBounds(m.pc))
    ensures m.pc as nat == MEMORY_SIZE - 1 ==> r == Err(MemoryOutOfBounds(MEMORY_SIZE as u16))
  {
    var high :- MemGet(m.pc);
    var low :- MemGet(WrappingAdd16(m.pc, 1));
    Ok((m.memory[high] as int * 0x100 + m.memory[low] as int) as u16)
  }

  /** `load`: the font is always copied; the ROM only when it fits. */
  function Load(m: Machine, rom: seq<u8>): (t: Transition<()>)
    requires m.Valid()
    ensures t.next.Valid()
  {
    var withFont := m.(memory := m.memory[..FONT_START_ADDRESS] + FONT + m.memory[FONT_END_ADDRESS..]);
    if ROM_START_ADDRESS + |rom| > MEMORY_SIZE then
      Transition(Err(RomLoadError(|rom|, MEMORY_SIZE - ROM_START_ADDRESS)), withFont)
    else
      var memory := withFont.memory;
      Transition(Ok(()), withFont.(
        memory := memory[..ROM_START_ADDRESS] + rom + memory[ROM_START_ADDRESS + |rom|..],
        pc := ROM_START_ADDRESS as u16))
  }

  /** `cpu_cycle`: fetch, decode, execute. */
  function CpuCycle(m: Machine, random: u8): (s: Step)
    requires m.Valid()
    ensures s.next.Valid()
  {
    match Fetch(m)
    case Err(e) => Transition(Err(e), m)
    case Ok(opcode) => Execute(m, Decode(opcode), random)
  }

  /** `timers_cycle`. */
  function TimersCycle(m: Machine): (m': Machine)
    requires m.Valid()
    ensures m'.Valid()
  {
    m.(delayTimer := SaturatingDecrement(m.delayTimer), soundTimer := SaturatingDecrement(m.soundTimer))
  }

  /** `should_beep`. */
  function ShouldBeep(m: Machine): bool {
    m.soundTimer > 0
  }

  /** `set_key`. */
  function SetKey(m: Machine, key: u4, pressed: bool): (m': Machine)
    requires m.Valid()
    ensures m'.Valid()
  {
    m.(keypad := m.keypad[key := pressed])
  }

  /** `get_display_pixel`; the array access panics outside the display. */
  function GetDisplayPixel(m: Machine, y: nat, x: nat): bool
    requires m.Valid() && y < DISPLAY_Y && x < DISPLAY_X
  {
    m.display[y][x]
  }

  // ---------------------------------------------------------------------
  // src/execute.rs

  /** `pc += 2` when the condition holds: skip the next instruction. */
  function SkipIf(m: Machine, condition: bool): Machine {
    if condition then m.(pc := WrappingAdd16(m.pc, 2)) else m
  }

  /** `Chip8::execute`: `pc` moves past the instruction before the
      instruction itself runs. */
  function Execute(m: Machine, op: Opcode, random: u8): (s: Step)
    requires m.Valid()
    ensures s.next.Valid()
  {
    Perform(m.(pc := WrappingAdd16(m.pc, 2)), op, random)
  }

  /** The `match` of `execute`: what the instruction does once `pc` has been
      moved past it. */
  function Perform(m: Machine, op: Opcode, random: u8): (s: Step)
    requires m.Valid()
    ensures s.next.Valid()
  {
    match op
    case ClearDisplay => Continue(m.(display := BlankDisplay()))
    case Jump(_) | JumpWithOffset(_) | Call(_) | Return => Flow(m, op)
    case SkipRegEqualImm(_, _) | SkipRegNotEqualImm(_, _) | SkipRegEqualReg(_, _)
      | SkipRegNotEqualReg(_, _) | SkipIfPressed(_) | SkipIfNotPressed(_) => Continue(Skip(m, op))
    case SetRegImm(_, _) | AddRegImm(_, _) | Random(_, _) | ReadDelayTimer(_) =>
      Continue(m.(v := WriteRegister(m, op, random)))
    case ALU(x, y, aluOp) => Continue(m.(v := Alu(m.v, x, y, aluOp)))
    case SetIndexImm(_) | AddIndexReg(_) | SetDelayTimer(_) | SetSoundTimer(_) | FontChar(_) =>
      Continue(IndexAndTimers(m, op))
    case Draw(x, y, n) => Draw(m, x, y, n)
    case WaitForKey(x) => WaitForKey(m, x)
    case BCD(x) => Bcd(m, Index(m.v, x))
    case StoreRegs(x) => StoreRegs(m, x, 0)
    case LoadRegs(x) => LoadRegs(m, x, 0)
    case Unknown(opcode) => Transition(Err(UnknownOpcode(opcode)), m)
    // src/execute.rs has no arm for this variant; see README.
    case UnknownALU(opcode) => Transition(Err(UnknownALUOpcode(opcode)), m)
  }

  /** The arms of `Perform` that the groups below take over. */
  lemma PerformGroups(m: Machine, op: Opcode, random: u8)
    requires m.Valid()
    ensures (op.Jump? || op.JumpWithOffset? || op.Call? || op.Return?) ==> Perform(m, op, random) == Flow(m, op)
    ensures (|| op.SkipRegEqualImm? || op.SkipRegNotEqualImm? || op.SkipRegEqualReg?
             || op.SkipRegNotEqualReg? || op.SkipIfPressed? || op.SkipIfNotPressed?)
      ==> Perform(m, op, random) == Continue(Skip(m, op))
    ensures (op.SetRegImm? || op.AddRegImm? || op.Random? || op.ReadDelayTimer?)
      ==> Perform(m, op, random) == Continue(m.(v := WriteRegister(m, op, random)))
    ensures (op.SetIndexImm? || op.AddIndexReg? || op.SetDelayTimer? || op.SetSoundTimer? || op.FontChar?)
      ==> Perform(m, op, random) == Continue(IndexAndTimers(m, op))
  { }

  /** The arms of `Perform` that draw, wait for a key or access memory. */
  lemma PerformMemoryArms(m: Machine, op: Opcode, random: u8)
    requires m.Valid()
    ensures op.Draw? ==> Perform(m, op, random) == Draw(m, op.x, op.y, op.n)
    ensures op.WaitForKey? ==> Perform(m, op, random) == WaitForKey(m, op.x)
    ensures op.BCD? ==> Perform(m, op, random) == Bcd(m, Index(m.v, op.x))
    ensures op.StoreRegs? ==> Perform(m, op, random) == StoreRegs(m, op.x, 0)
    ensures op.LoadRegs? ==> Perform(m, op, random) == LoadRegs(m, op.x, 0)
  { }

  /** 1NNN, BNNN, 2NNN and 00EE: jumps, calls and returns. */
  function Flow(m: Machine, op: Opcode): (s: Step)
    requires m.Valid()
    requires op.Jump? || op.JumpWithOffset? || op.Call? || op.Return?
  {
    match op
    case Jump(nnn) => Continue(m.(pc := nnn))
    case JumpWithOffset(nnn) => Continue(m.(pc := WrappingAdd16(nnn, Index(m.v, 0) as u16)))
    case Call(nnn) => Continue(m.(stack := m.stack + [m.pc], pc := nnn))
    case Return =>
      if |m.stack| == 0 then Transition(Err(StackUnderflow), m)
      else Continue(m.(pc := m.stack[|m.stack| - 1], stack := m.stack[..|m.stack| - 1]))
  }

  /** 3XNN, 4XNN, 5XY0, 9XY0, EX9E and EXA1: the conditional skips. */
  function Skip(m: Machine, op: Opcode): Machine
    requires m.Valid()
    requires op.SkipRegEqualImm? || op.SkipRegNotEqualImm? || op.SkipRegEqualReg?
      || op.SkipRegNotEqualReg? || op.SkipIfPressed? || op.SkipIfNotPressed?
  {
    match op
    case SkipRegEqualImm(x, nn) => SkipIf(m, Index(m.v, x) == nn)
    case SkipRegNotEqualImm(x, nn) => SkipIf(m, Index(m.v, x) != nn)
    case SkipRegEqualReg(x, y) => SkipIf(m, Index(m.v, x) == Index(m.v, y))
    case SkipRegNotEqualReg(x, y) => SkipIf(m, Index(m.v, x) != Index(m.v, y))
    case SkipIfPressed(x) => SkipIf(m, m.keypad[KeyOf(Index(m.v, x))])
    case SkipIfNotPressed(x) => SkipIf(m, !m.keypad[KeyOf(Index(m.v, x))])
  }

  /** 6XNN, 7XNN, CXNN and FX07: the registers after a write of `v[x]`. */
  function WriteRegister(m: Machine, op: Opcode, random: u8): seq<u8>
    requires m.Valid()
    requires op.SetRegImm? || op.AddRegImm? || op.Random? || op.ReadDelayTimer?
  {
    match op
    case SetRegImm(x, nn) => IndexMut(m.v, x, nn)
    case AddRegImm(x, nn) => IndexMut(m.v, x, WrappingAdd8(Index(m.v, x), nn))
    case Random(x, nn) => IndexMut(m.v, x, And8(random, nn))
    case ReadDelayTimer(x) => IndexMut(m.v, x, m.delayTimer)
  }

  /** ANNN, FX1E, FX15, FX18 and FX29: writes of `i` and of the timers. */
  function IndexAndTimers(m: Machine, op: Opcode): Machine
    requires m.Valid()
    requires op.SetIndexImm? || op.AddIndexReg? || op.SetDelayTimer? || op.SetSoundTimer? || op.FontChar?
  {
    match op
    case SetIndexImm(nnn) => m.(i := nnn)
    case AddIndexReg(x) => m.(i := WrappingAdd16(m.i, Index(m.v, x) as u16))
    case SetDelayTimer(x) => m.(delayTimer := Index(m.v, x))
    case SetSoundTimer(x) => m.(soundTimer := Index(m.v, x))
    case FontChar(x) => m.(i := FontAddress(Index(m.v, x)))
  }

  /** `v[x] as usize & 0x0F`: the key a register names. */
  function KeyOf(value: u8): nat
  {
    ToUsize(Nibble.New(value))
  }

  /** `FONT_START_ADDRESS + (v & 0x0F) * 5`: where the glyph of a digit starts. */
  function FontAddress(value: u8): u16
  {
    (FONT_START_ADDRESS + ToUsize(Nibble.New(value)) * GLYPH_SIZE) as u16
  }

  /** `execute_alu`: Vx is written first and VF last, so with x = F the flag wins. */
  function Alu(v: seq<u8>, x: u4, y: u4, op: OpcodeALU): (r: seq<u8>)
    requires |v| == REGISTER_COUNT
    ensures |r| == REGISTER_COUNT
  {
    var vx, vy := Index(v, x), Index(v, y);
    match op
    case Set => IndexMut(v, x, vy)
    case Or => IndexMut(IndexMut(v, x, Or8(vx, vy)), VF, 0)
    case And => IndexMut(IndexMut(v, x, And8(vx, vy)), VF, 0)
    case Xor => IndexMut(IndexMut(v, x, Xor8(vx, vy)), VF, 0)
    case Add =>
      var (sum, overflow) := OverflowingAdd(vx, vy);
      IndexMut(IndexMut(v, x, sum), VF, if overflow then 1 else 0)
    case Sub =>
      var (difference, borrow) := OverflowingSub(vx, vy);
      IndexMut(IndexMut(v, x, difference), VF, if borrow then 0 else 1)
    case SubReverse =>
      var (difference, borrow) := OverflowingSub(vy, vx);
      IndexMut(IndexMut(v, x, difference), VF, if borrow then 0 else 1)
    case ShiftRight =>
      // `vy & 1` and `vy >> 1`
      IndexMut(IndexMut(v, x, vy / 2), VF, vy % 2)
    case ShiftLeft =>
      // `(vy >> 7) & 1` and `vy << 1`, which drops the top bit
      IndexMut(IndexMut(v, x, ((vy as int * 2) % 0x100) as u8), VF, vy / 0x80)
  }

  // --- Fx33, Fx55, Fx65 ---------------------------------------------------

  /** `*self.mem_get(addr)? = value`. */
  function Poke(m: Machine, addr: u16, value: u8): (s: Step)
    requires m.Valid()
    ensures s.next.Valid()
  {
    match MemGet(addr)
    case Err(e) => Transition(Err(e), m)
    case Ok(slot) => Continue(m.(memory := m.memory[slot := value]))
  }

  /** Fx33: the three decimal digits of the value at `i`, `i + 1` and `i + 2`. */
  function Bcd(m: Machine, value: u8): (s: Step)
    requires m.Valid()
    ensures s.next.Valid()
  {
    var s0 := Poke(m, m.i, value / 100);
    if s0.result.Err? then s0 else
    var s1 := Poke(s0.next, WrappingAdd16(m.i, 1), (value / 10) % 10);
    if s1.result.Err? then s1 else
    Poke(s1.next, WrappingAdd16(m.i, 2), value % 10)
  }

  /** Fx55 from register `reg` on: each register goes to `i`, then `i` moves on. */
  function StoreRegs(m: Machine, x: u4, reg: nat): (s: Step)
    requires m.Valid() && reg <= x as nat + 1
    ensures s.next.Valid()
    decreases x as nat + 1 - reg
  {
    if reg > x as nat then Continue(m)
    else match MemGet(m.i)
      case Err(e) => Transition(Err(e), m)
      case Ok(slot) =>
        StoreRegs(m.(memory := m.memory[slot := m.v[reg]], i := WrappingAdd16(m.i, 1)), x, reg + 1)
  }

  /** Fx65 from register `reg` on: each register is read from `i`, then `i` moves on. */
  function LoadRegs(m: Machine, x: u4, reg: nat): (s: Step)
    requires m.Valid() && reg <= x as nat + 1
    ensures s.next.Valid()
    decreases x as nat + 1 - reg
  {
    if reg > x as nat then Continue(m)
    else match MemGet(m.i)
      case Err(e) => Transition(Err(e), m)
      case Ok(slot) =>
        LoadRegs(m.(v := m.v[reg := m.memory[slot]], i := WrappingAdd16(m.i, 1)), x, reg + 1)
  }

  // --- Dxyn -----------------------------------------------------------------

  function Min(a: nat, b: nat): nat { if a <= b then a else b }

  /** Where a sprite lands and how much of it fits on the screen: the start
      wraps around the screen, the sprite itself is cut at the edges. */
  datatype Placement = Placement(xPos: nat, yPos: nat, rowCount: nat, colCount: nat)

  function Place(v: seq<u8>, x: u4, y: u4, n: u4): (p: Placement)
    requires |v| == REGISTER_COUNT
    ensures p.xPos < DISPLAY_X && p.yPos < DISPLAY_Y
    ensures p.yPos + p.rowCount <= DISPLAY_Y && p.xPos + p.colCount <= DISPLAY_X
    ensures p.rowCount <= 15 && p.colCount <= 8
  {
    var xPos := Index(v, x) as nat % DISPLAY_X;
    var yPos := Index(v, y) as nat % DISPLAY_Y;
    Placement(xPos, yPos, Min(ToUsize(n), DISPLAY_Y - yPos), Min(8, DISPLAY_X - xPos))
  }

  /** `i.wrapping_add(row)`: the address of sprite row `row`. */
  function RowAddress(i: u16, row: nat): u16
    requires row <= DISPLAY_Y
  {
    WrappingAdd16(i, row as u16)
  }

  /** The number of sprite rows read before the first sprite address outside
      memory (or all of them). */
  function ReadableRows(i: u16, rowCount: nat): (rows: nat)
    requires rowCount <= DISPLAY_Y
    ensures rows <= rowCount
    ensures forall row :: 0 <= row < rows ==> RowAddress(i, row) as nat < MEMORY_SIZE
    ensures rows < rowCount ==> RowAddress(i, rows) as nat >= MEMORY_SIZE
  {
    if i as nat >= MEMORY_SIZE then 0 else Min(rowCount, MEMORY_SIZE - i as nat)
  }

  /** `sprite_byte & (0x80 >> col) != 0`: bit `7 - col` of the sprite row. */
  function SpriteBit(spriteByte: u8, col: nat): bool
    requires col < 8
  {
    BitAnd(spriteByte as nat, Pow2(7 - col)) != 0
  }

  /** Whether the sprite covers a pixel: it is in the first `rows` rows of the
      placed rectangle and its sprite bit is set. */
  predicate Covered(memory: seq<u8>, i: u16, p: Placement, rows: nat, r: nat, c: nat)
    requires |memory| == MEMORY_SIZE && p.rowCount <= DISPLAY_Y && rows <= ReadableRows(i, p.rowCount)
  {
    && p.yPos <= r < p.yPos + rows
    && p.xPos <= c < p.xPos + p.colCount
    && c - p.xPos < 8
    && SpriteBit(memory[RowAddress(i, r - p.yPos)], c - p.xPos)
  }

  /** The display after XOR-ing the first `rows` sprite rows onto it. */
  function Drawn(before: Display, memory: seq<u8>, i: u16, p: Placement, rows: nat): (after: Display)
    requires IsDisplay(before) && |memory| == MEMORY_SIZE
    requires p.rowCount <= DISPLAY_Y && rows <= ReadableRows(i, p.rowCount)
    ensures IsDisplay(after)
  {
    seq(DISPLAY_Y, r requires 0 <= r < DISPLAY_Y =>
      seq(DISPLAY_X, c requires 0 <= c < DISPLAY_X =>
        before[r][c] != Covered(memory, i, p, rows, r, c)))
  }

  /** Some lit pixel was turned off. */
  predicate AnyErased(before: Display, after: Display)
    requires IsDisplay(before) && IsDisplay(after)
  {
    exists r, c :: 0 <= r < DISPLAY_Y && 0 <= c < DISPLAY_X && before[r][c] && !after[r][c]
  }

  /** `execute_draw`: rows are drawn until one cannot be read; VF is written
      only when every row was drawn. */
  function Draw(m: Machine, x: u4, y: u4, n: u4): (s: Step)
    requires m.Valid()
    ensures s.next.Valid()
  {
    var p := Place(m.v, x, y, n);
    var rows := ReadableRows(m.i, p.rowCount);
    var after := Drawn(m.display, m.memory, m.i, p, rows);
    if rows < p.rowCount then
      Transition(Err(MemoryOutOfBounds(RowAddress(m.i, rows))), m.(display := after))
    else
      Transition(Ok(WaitForNextFrame),
        m.(display := after, v := IndexMut(m.v, VF, if AnyErased(m.display, after) then 1 else 0)))
  }

  // --- Fx0A -----------------------------------------------------------------

  /** The lowest-numbered pressed key at or after `from`. */
  function FirstPressed(keypad: seq<bool>, from: nat): (r: Option<u8>)
    requires |keypad| == KEY_COUNT
    ensures r.Some? ==> from <= r.value as nat < KEY_COUNT && keypad[r.value]
    ensures r.Some? ==> forall k :: from <= k < r.value as nat ==> !keypad[k]
    ensures r.None? ==> forall k :: from <= k < KEY_COUNT ==> !keypad[k]
    decreases KEY_COUNT - from
  {
    if from >= KEY_COUNT then None
    else if keypad[from] then Some(from as u8)
    else FirstPressed(keypad, from + 1)
  }

  /** `execute_wait_for_key`: wait for a key to be pressed and then released.
      Until then `pc` is moved back so that the instruction runs again. */
  function WaitForKey(m: Machine, x: u4): (s: Step)
    requires m.Valid()
    ensures s.next.Valid()
  {
    if m.waitReleaseKey.Some? && !m.keypad[m.waitReleaseKey.value] then
      Continue(m.(v := IndexMut(m.v, x, m.waitReleaseKey.value), waitReleaseKey := None))
    else
      var tracked := if m.waitReleaseKey.None? then FirstPressed(m.keypad, 0) else m.waitReleaseKey;
      Transition(Ok(WaitForNextFrame), m.(waitReleaseKey := tracked, pc := WrappingSub16(m.pc, 2)))
  }
}
