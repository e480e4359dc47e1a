/** What src/execute.rs promises about each instruction, proved of the
    functions of module Semantics. */
module ExecuteProperties {
  import opened Primitives
  import opened Nibble
  import opened Wrappers
  import opened Types
  import opened Font
  import opened Opcodes
  import opened Semantics

  /** The address after pc, where the next instruction starts. */
  function After(pc: u16): u16 { WrappingAdd16(pc, 2) }

  // ---------------------------------------------------------------------
  // Program counter

  /** Instructions that touch neither `pc`, the stack, memory nor the
      awaited key, and cannot fail. */
  predicate Straight(op: Opcode) {
    || op.ClearDisplay? || op.SetRegImm? || op.AddRegImm? || op.ALU? || op.Random?
    || op.SetIndexImm? || op.AddIndexReg? || op.ReadDelayTimer? || op.SetDelayTimer?
    || op.SetSoundTimer? || op.FontChar?
  }

  /** A straight-line instruction continues at the next instruction. */
  lemma StraightAdvancesPc(m: Machine, op: Opcode, random: u8)
    requires m.Valid() && Straight(op)
    ensures Execute(m, op, random).result == Ok(Chip8Result.Continue)
    ensures Execute(m, op, random).next == m.(pc := After(m.pc), display := Execute(m, op, random).next.display,
      i := Execute(m, op, random).next.i, v := Execute(m, op, random).next.v,
      delayTimer := Execute(m, op, random).next.delayTimer, soundTimer := Execute(m, op, random).next.soundTimer)
  {
  }

  /** The condition a skip instruction tests, in terms of the registers and keys. */
  predicate SkipTaken(m: Machine, op: Opcode)
    requires m.Valid()
  {
    match op
    case SkipRegEqualImm(x, nn) => m.v[x] == nn
    case SkipRegNotEqualImm(x, nn) => m.v[x] != nn
    case SkipRegEqualReg(x, y) => m.v[x] == m.v[y]
    case SkipRegNotEqualReg(x, y) => m.v[x] != m.v[y]
    case SkipIfPressed(x) => m.keypad[m.v[x] as nat % 16]
    case SkipIfNotPressed(x) => !m.keypad[m.v[x] as nat % 16]
    case _ => false
  }

  predicate IsSkip(op: Opcode) {
    || op.SkipRegEqualImm? || op.SkipRegNotEqualImm? || op.SkipRegEqualReg?
    || op.SkipRegNotEqualReg? || op.SkipIfPressed? || op.SkipIfNotPressed?
  }

  /** A skip moves `pc` on by 4 when its condition holds and by 2 otherwise,
      and changes nothing else. */
  lemma SkipAdvance(m: Machine, op: Opcode, random: u8)
    requires m.Valid() && IsSkip(op)
    ensures Execute(m, op, random) ==
      Semantics.Continue(m.(pc := WrappingAdd16(m.pc, if SkipTaken(m, op) then 4 else 2)))
  {
  }

  /** `Call` pushes the address of the next instruction and jumps. */
  lemma CallPushes(m: Machine, nnn: u16, random: u8)
    requires m.Valid()
    ensures Execute(m, Opcode.Call(nnn), random) ==
      Semantics.Continue(m.(pc := nnn, stack := m.stack + [After(m.pc)]))
  {
  }

  /** `Return` right after a `Call` resumes after the `Call` with the stack
      as it was. */
  lemma ReturnAfterCall(m: Machine, nnn: u16, random: u8)
    requires m.Valid()
    ensures var called := Execute(m, Opcode.Call(nnn), random).next;
      Execute(called, Opcode.Return, random) == Semantics.Continue(m.(pc := After(m.pc)))
  {
    var called := Execute(m, Opcode.Call(nnn), random).next;
    assert called.stack[..|called.stack| - 1] == m.stack;
  }

  /** `Return` on an empty stack fails, after `pc` was already moved on. */
  lemma ReturnUnderflow(m: Machine, random: u8)
    requires m.Valid() && m.stack == []
    ensures Execute(m, Opcode.Return, random) == Transition(Err(StackUnderflow), m.(pc := After(m.pc)))
  {
  }

  /** `Unknown` and `UnknownALU` fail with the raw word, after `pc` was
      already moved on. */
  lemma UnknownFails(m: Machine, w: u16, random: u8)
    requires m.Valid()
    ensures Execute(m, Opcode.Unknown(w), random) == Transition(Err(UnknownOpcode(w)), m.(pc := After(m.pc)))
    ensures Execute(m, Opcode.UnknownALU(w), random) == Transition(Err(UnknownALUOpcode(w)), m.(pc := After(m.pc)))
  {
  }

  /** A word the decoder does not recognise stops `cpu_cycle` with that word. */
  lemma CpuCycleReportsUnknownWord(m: Machine, random: u8)
    requires m.Valid() && Fetch(m).Ok?
    requires Decode(Fetch(m).value).Unknown? || Decode(Fetch(m).value).UnknownALU?
    ensures CpuCycle(m, random).result.Err?
    ensures CpuCycle(m, random).result.error.UnknownOpcode? ==> CpuCycle(m, random).result.error.opcode == Fetch(m).value
    ensures CpuCycle(m, random).result.error.UnknownALUOpcode? ==> CpuCycle(m, random).result.error.opcode == Fetch(m).value
    ensures CpuCycle(m, random).next == m.(pc := After(m.pc))
  {
    DecodeWellFormed(Fetch(m).value);
  }

  // ---------------------------------------------------------------------
  // Registers

  /** `AddRegImm` adds modulo 256 and never touches VF (unless x is VF). */
  lemma AddRegImmWraps(m: Machine, x: u4, nn: u8, random: u8)
    requires m.Valid()
    ensures var v' := Execute(m, Opcode.AddRegImm(x, nn), random).next.v;
      && v'[x] as int == (m.v[x] as int + nn as int) % 0x100
      && forall k :: 0 <= k < REGISTER_COUNT && k != x as int ==> v'[k] == m.v[k]
  {
  }

  /** `Random` stores `random & nn` in Vx: a bit of Vx is set exactly when it
      is set in both the random byte and `nn`. */
  lemma RandomMasked(m: Machine, x: u4, nn: u8, random: u8)
    requires m.Valid()
    ensures var v' := Execute(m, Opcode.Random(x, nn), random).next.v;
      && v'[x] as nat == BitAnd(random as nat, nn as nat)
      && (forall k: nat :: Bit8(v'[x], k) <==> Bit8(random, k) && Bit8(nn, k))
      && v'[x] <= nn && v'[x] <= random
      && BitAnd(v'[x] as nat, nn as nat) == v'[x] as nat
  {
    BitAndIdempotent(random as nat, nn as nat);
  }

  /** `FontChar` points `i` at the glyph of the low digit of Vx. */
  lemma FontCharPointsAtGlyph(m: Machine, x: u4, random: u8)
    requires m.Valid()
    ensures var i' := Execute(m, Opcode.FontChar(x), random).next.i;
      && i' as nat == FONT_START_ADDRESS + GLYPH_SIZE * (m.v[x] as nat % 16)
      && i' as nat + GLYPH_SIZE <= FONT_END_ADDRESS
  {
  }

  // ---------------------------------------------------------------------
  // The arithmetic and logic unit

  /** Registers other than Vx and VF keep their values. */
  lemma AluOthersUnchanged(v: seq<u8>, x: u4, y: u4, op: OpcodeALU)
    requires |v| == REGISTER_COUNT
    ensures forall k :: 0 <= k < REGISTER_COUNT && k != x as int && k != VF as int ==> Alu(v, x, y, op)[k] == v[k]
    ensures op == OpcodeALU.Set ==> Alu(v, x, y, op)[x] == v[y]
    ensures op == OpcodeALU.Set && x != VF ==> Alu(v, x, y, op)[VF] == v[VF]
  {
  }

  /** What Vx ends up holding when it is not the flag register. */
  lemma AluValue(v: seq<u8>, x: u4, y: u4, op: OpcodeALU)
    requires |v| == REGISTER_COUNT && x != VF
    ensures var r, vx, vy := Alu(v, x, y, op)[x] as int, v[x] as int, v[y] as int;
      && (op == OpcodeALU.Add ==> r == (vx + vy) % 0x100)
      && (op == OpcodeALU.Sub ==> r == (vx - vy) % 0x100)
      && (op == OpcodeALU.SubReverse ==> r == (vy - vx) % 0x100)
      && (op == OpcodeALU.ShiftRight ==> r == vy / 2)
      && (op == OpcodeALU.ShiftLeft ==> r == (vy * 2) % 0x100)
      && (op == OpcodeALU.Or ==> r == BitOr(vx, vy))
      && (op == OpcodeALU.And ==> r == BitAnd(vx, vy))
      && (op == OpcodeALU.Xor ==> r == BitXor(vx, vy))
  {
  }

  /** The flag rules: Or, And and Xor clear VF, Add sets it to the carry,
      the subtractions to "no borrow", the shifts to the bit shifted out of Vy.
      VF is written last, so these hold even when x is VF. */
  lemma AluFlag(v: seq<u8>, x: u4, y: u4, op: OpcodeALU)
    requires |v| == REGISTER_COUNT && op != OpcodeALU.Set
    ensures var f, vx, vy := Alu(v, x, y, op)[VF], v[x] as int, v[y] as int;
      && (op == OpcodeALU.Or || op == OpcodeALU.And || op == OpcodeALU.Xor ==> f == 0)
      && (op == OpcodeALU.Add ==> (f == 1 <==> vx + vy >= 0x100) && f <= 1)
      && (op == OpcodeALU.Sub ==> (f == 1 <==> vx >= vy) && f <= 1)
      && (op == OpcodeALU.SubReverse ==> (f == 1 <==> vy >= vx) && f <= 1)
      && (op == OpcodeALU.ShiftRight ==> f as nat == BitAnd(vy, 1))
      && (op == OpcodeALU.ShiftLeft ==> (f == 1 <==> BitAnd(vy, 0x80) != 0) && f <= 1)
  {
    match op {
      case ShiftRight =>
        BitAndLowMask(v[y] as nat, 1);
        assert Pow2(1) == 2;
      case ShiftLeft =>
        BitAndPow2(v[y] as nat, 7);
        assert Pow2(7) == 0x80;
      case _ =>
    }
  }

  // ---------------------------------------------------------------------
  // Fx33: binary-coded decimal

  /** The three decimal digits of a byte, most significant first. */
  function DecimalDigits(value: u8): (d: seq<u8>)
    ensures |d| == 3 && forall k :: 0 <= k < 3 ==> d[k] < 10
    ensures d[0] as int * 100 + d[1] as int * 10 + d[2] as int == value as int
  {
    [value / 100, (value / 10) % 10, value % 10]
  }

  /** With `i + 2` inside memory, BCD writes the digits of Vx at `i`, `i + 1`,
      `i + 2` and changes nothing else but `pc`. */
  lemma BcdWritesDigits(m: Machine, x: u4, random: u8)
    requires m.Valid() && m.i as nat + 2 < MEMORY_SIZE
    ensures var s := Execute(m, Opcode.BCD(x), random);
      && s.result == Ok(Chip8Result.Continue)
      && (forall k :: 0 <= k < 3 ==> s.next.memory[m.i as nat + k] == DecimalDigits(m.v[x])[k])
      && (forall a :: 0 <= a < MEMORY_SIZE && !(m.i as nat <= a < m.i as nat + 3) ==> s.next.memory[a] == m.memory[a])
      && s.next == m.(pc := After(m.pc), memory := s.next.memory)
  {
  }

  /** Otherwise BCD fails at the first address outside memory; the digits
      written before it stay written. */
  lemma BcdOutOfBounds(m: Machine, x: u4, random: u8)
    requires m.Valid() && m.i as nat + 2 >= MEMORY_SIZE
    ensures var s := Execute(m, Opcode.BCD(x), random);
      var first := if m.i as nat >= MEMORY_SIZE then m.i as nat else MEMORY_SIZE;
      && s.result == Err(MemoryOutOfBounds(first as u16))
      && (forall k :: 0 <= k < 3 && m.i as nat + k < MEMORY_SIZE ==> s.next.memory[m.i as nat + k] == DecimalDigits(m.v[x])[k])
      && (forall a :: 0 <= a < MEMORY_SIZE && !(m.i as nat <= a) ==> s.next.memory[a] == m.memory[a])
      && s.next == m.(pc := After(m.pc), memory := s.next.memory)
  {
  }

  // ---------------------------------------------------------------------
  // Fx55 and Fx65

  /** How many of `count` consecutive addresses from `i` on lie inside memory
      before the first one that does not. */
  function Accessible(i: u16, count: nat): (n: nat)
    ensures n <= count
    ensures n < count ==> i as nat + n >= MEMORY_SIZE
    ensures i as nat < MEMORY_SIZE ==> i as nat + n <= MEMORY_SIZE
    ensures i as nat >= MEMORY_SIZE ==> n == 0
  {
    if i as nat >= MEMORY_SIZE then 0 else Min(count, MEMORY_SIZE - i as nat)
  }

  /** Storing from register `reg` on: each register that fits is written, the
      first address outside memory is the error, `i` ends past the last byte
      written. */
  lemma {:induction false} StoreRegsFrom(m: Machine, x: u4, reg: nat)
    requires m.Valid() && reg <= x as nat + 1
    decreases x as nat + 1 - reg
    ensures var s, count := Semantics.StoreRegs(m, x, reg), x as nat + 1 - reg;
      var done := Accessible(m.i, count);
      && s.result == (if done == count then Ok(Chip8Result.Continue) else Err(MemoryOutOfBounds((m.i as nat + done) as u16)))
      && s.next.i as nat == m.i as nat + done
      && (forall a :: m.i as nat <= a < m.i as nat + done ==> s.next.memory[a] == m.v[reg + (a - m.i as nat)])
      && (forall a :: 0 <= a < MEMORY_SIZE && !(m.i as nat <= a < m.i as nat + done) ==> s.next.memory[a] == m.memory[a])
      && s.next == m.(memory := s.next.memory, i := s.next.i)
  {
    if reg <= x as nat && m.i as nat < MEMORY_SIZE {
      var m' := m.(memory := m.memory[m.i := m.v[reg]], i := WrappingAdd16(m.i, 1));
      StoreRegsFrom(m', x, reg + 1);
      assert Accessible(m'.i, x as nat + 1 - (reg + 1)) == Accessible(m.i, x as nat + 1 - reg) - 1;
    }
  }

  /** Loading into register `reg` on: each register whose address fits is
      read, the first address outside memory is the error, `i` ends past the
      last byte read. */
  lemma {:induction false} LoadRegsFrom(m: Machine, x: u4, reg: nat)
    requires m.Valid() && reg <= x as nat + 1
    decreases x as nat + 1 - reg
    ensures var s, count := Semantics.LoadRegs(m, x, reg), x as nat + 1 - reg;
      var done := Accessible(m.i, count);
      && s.result == (if done == count then Ok(Chip8Result.Continue) else Err(MemoryOutOfBounds((m.i as nat + done) as u16)))
      && s.next.i as nat == m.i as nat + done
      && (forall k :: reg <= k < reg + done ==> s.next.v[k] == m.memory[m.i as nat + (k - reg)])
      && (forall k :: 0 <= k < REGISTER_COUNT && !(reg <= k < reg + done) ==> s.next.v[k] == m.v[k])
      && s.next == m.(v := s.next.v, i := s.next.i)
  {
    if reg <= x as nat && m.i as nat < MEMORY_SIZE {
      var m' := m.(v := m.v[reg := m.memory[m.i]], i := WrappingAdd16(m.i, 1));
      LoadRegsFrom(m', x, reg + 1);
      assert Accessible(m'.i, x as nat + 1 - (reg + 1)) == Accessible(m.i, x as nat + 1 - reg) - 1;
    }
  }

  /** `StoreRegs x` writes V0..=Vx from `i` on and leaves `i` past them. */
  lemma StoreRegsEffect(m: Machine, x: u4, random: u8)
    requires m.Valid() && m.i as nat + x as nat < MEMORY_SIZE
    ensures var s := Execute(m, Opcode.StoreRegs(x), random);
      && s.result == Ok(Chip8Result.Continue)
      && s.next.i as nat == m.i as nat + x as nat + 1
      && (forall k :: 0 <= k <= x as nat ==> s.next.memory[m.i as nat + k] == m.v[k])
      && (forall a :: 0 <= a < MEMORY_SIZE && !(m.i as nat <= a <= m.i as nat + x as nat) ==> s.next.memory[a] == m.memory[a])
      && s.next == m.(pc := After(m.pc), memory := s.next.memory, i := s.next.i)
  {
    StoreRegsFrom(m.(pc := After(m.pc)), x, 0);
  }

  /** `LoadRegs x` reads V0..=Vx from `i` on and leaves `i` past them. */
  lemma LoadRegsEffect(m: Machine, x: u4, random: u8)
    requires m.Valid() && m.i as nat + x as nat < MEMORY_SIZE
    ensures var s := Execute(m, Opcode.LoadRegs(x), random);
      && s.result == Ok(Chip8Result.Continue)
      && s.next.i as nat == m.i as nat + x as nat + 1
      && (forall k :: 0 <= k <= x as nat ==> s.next.v[k] == m.memory[m.i as nat + k])
      && (forall k :: x as nat < k < REGISTER_COUNT ==> s.next.v[k] == m.v[k])
      && s.next == m.(pc := After(m.pc), v := s.next.v, i := s.next.i)
  {
    LoadRegsFrom(m.(pc := After(m.pc)), x, 0);
  }

  /** When the registers run past the end of memory, the ones that fit are
      written and the error names the first address outside memory. */
  lemma StoreRegsOutOfBounds(m: Machine, x: u4, random: u8)
    requires m.Valid() && m.i as nat + x as nat >= MEMORY_SIZE
    ensures var s, done := Execute(m, Opcode.StoreRegs(x), random), Accessible(m.i, x as nat + 1);
      && s.result == Err(MemoryOutOfBounds((m.i as nat + done) as u16))
      && (m.i as nat < MEMORY_SIZE ==> done == MEMORY_SIZE - m.i as nat && s.next.i as nat == MEMORY_SIZE)
      && (forall k :: 0 <= k < done ==> s.next.memory[m.i as nat + k] == m.v[k])
      && (forall a :: 0 <= a < m.i as nat && a < MEMORY_SIZE ==> s.next.memory[a] == m.memory[a])
  {
    StoreRegsFrom(m.(pc := After(m.pc)), x, 0);
  }

  /** The same for loading. */
  lemma LoadRegsOutOfBounds(m: Machine, x: u4, random: u8)
    requires m.Valid() && m.i as nat + x as nat >= MEMORY_SIZE
    ensures var s, done := Execute(m, Opcode.LoadRegs(x), random), Accessible(m.i, x as nat + 1);
      && s.result == Err(MemoryOutOfBounds((m.i as nat + done) as u16))
      && (m.i as nat < MEMORY_SIZE ==> done == MEMORY_SIZE - m.i as nat && s.next.i as nat == MEMORY_SIZE)
      && (forall k :: 0 <= k < done ==> s.next.v[k] == m.memory[m.i as nat + k])
      && (forall k :: done <= k < REGISTER_COUNT ==> s.next.v[k] == m.v[k])
  {
    LoadRegsFrom(m.(pc := After(m.pc)), x, 0);
  }

  /** Storing V0..=Vx and loading them back from the same `i` restores them,
      whatever the registers held in between. */
  lemma StoreThenLoad(m: Machine, x: u4, w: seq<u8>, random: u8)
    requires m.Valid() && m.i as nat + x as nat < MEMORY_SIZE && |w| == REGISTER_COUNT
    ensures var stored := Execute(m, Opcode.StoreRegs(x), random).next;
      var loaded := Execute(stored.(v := w, i := m.i), Opcode.LoadRegs(x), random);
      && loaded.result == Ok(Chip8Result.Continue)
      && (forall k :: 0 <= k <= x as nat ==> loaded.next.v[k] == m.v[k])
      && (forall k :: x as nat < k < REGISTER_COUNT ==> loaded.next.v[k] == w[k])
  {
    var stored := Execute(m, Opcode.StoreRegs(x), random).next;
    StoreRegsEffect(m, x, random);
    LoadRegsEffect(stored.(v := w, i := m.i), x, random);
  }

  // ---------------------------------------------------------------------
  // Dxyn

  /** Only pixels inside the clipped rectangle at (Vx % 64, Vy % 32) change,
      on success and on failure alike. */
  lemma DrawOutsideUnchanged(m: Machine, x: u4, y: u4, n: u4)
    requires m.Valid()
    ensures var p, d := Place(m.v, x, y, n), Semantics.Draw(m, x, y, n).next.display;
      && p.xPos == m.v[x] as nat % DISPLAY_X && p.yPos == m.v[y] as nat % DISPLAY_Y
      && p.rowCount == Min(n as nat, DISPLAY_Y - p.yPos) && p.colCount == Min(8, DISPLAY_X - p.xPos)
      && forall r, c ::
           (0 <= r < DISPLAY_Y && 0 <= c < DISPLAY_X
            && !(p.yPos <= r < p.yPos + p.rowCount && p.xPos <= c < p.xPos + p.colCount))
           ==> d[r][c] == m.display[r][c]
  {
  }

  /** Inside the rectangle, each pixel of a row that could be read is XOR-ed
      with its sprite bit, read at `i + row`; the rows after an unreadable one
      are left alone. */
  lemma DrawXorsSprite(m: Machine, x: u4, y: u4, n: u4)
    requires m.Valid()
    ensures var p, d := Place(m.v, x, y, n), Semantics.Draw(m, x, y, n).next.display;
      var rows := ReadableRows(m.i, p.rowCount);
      && (forall r, c :: p.yPos <= r < p.yPos + rows && p.xPos <= c < p.xPos + p.colCount ==>
            d[r][c] == (m.display[r][c] != SpriteBit(m.memory[WrappingAdd16(m.i, (r - p.yPos) as u16)], c - p.xPos)))
      && (forall r, c :: p.yPos + rows <= r < DISPLAY_Y && 0 <= c < DISPLAY_X ==> d[r][c] == m.display[r][c])
  {
  }

  /** Draw succeeds exactly when every sprite row lies inside memory; then it
      asks for the next frame and sets VF to 1 exactly when a lit pixel went
      dark. On failure the registers are untouched. */
  lemma DrawResult(m: Machine, x: u4, y: u4, n: u4)
    requires m.Valid()
    ensures var p, s := Place(m.v, x, y, n), Semantics.Draw(m, x, y, n);
      && (s.result.Ok? <==> forall row: nat :: row < p.rowCount ==> RowAddress(m.i, row) as nat < MEMORY_SIZE)
      && (s.result.Ok? ==> s.result.value == WaitForNextFrame)
      && (s.result.Ok? ==>
            (s.next.v[VF] == 1 <==>
               (exists r, c :: 0 <= r < DISPLAY_Y && 0 <= c < DISPLAY_X && m.display[r][c] && !s.next.display[r][c])))
      && (s.result.Ok? ==> s.next.v[VF] <= 1 && forall k :: 0 <= k < VF as int ==> s.next.v[k] == m.v[k])
      && (s.result.Err? ==> s.next.v == m.v)
      && s.next == m.(display := s.next.display, v := s.next.v)
  {
    var rows := ReadableRows(m.i, Place(m.v, x, y, n).rowCount);
    if rows < Place(m.v, x, y, n).rowCount {
      assert RowAddress(m.i, rows) as nat >= MEMORY_SIZE;
    }
  }

  /** Drawing the same sprite twice at the same place restores the display,
      whether or not the draws fail part-way (VF being neither coordinate). */
  lemma DrawTwiceRestores(m: Machine, x: u4, y: u4, n: u4)
    requires m.Valid() && x != VF && y != VF
    ensures Semantics.Draw(Semantics.Draw(m, x, y, n).next, x, y, n).next.display == m.display
  {
    var once := Semantics.Draw(m, x, y, n).next;
    assert once.v[x] == m.v[x] && once.v[y] == m.v[y];
    var p := Place(m.v, x, y, n);
    assert Place(once.v, x, y, n) == p;
    var twice := Semantics.Draw(once, x, y, n).next;
    forall r, c | 0 <= r < DISPLAY_Y && 0 <= c < DISPLAY_X
      ensures twice.display[r][c] == m.display[r][c]
    {
    }
    DisplayExtensionality(twice.display, m.display);
  }

  // ---------------------------------------------------------------------
  // Fx0A

  /** With no key tracked, the lowest pressed key is tracked (or none) and the
      instruction repeats: `pc` is left where it was. */
  lemma WaitForKeyStarts(m: Machine, x: u4, random: u8)
    requires m.Valid() && m.waitReleaseKey.None?
    ensures Execute(m, Opcode.WaitForKey(x), random) ==
      Transition(Ok(WaitForNextFrame), m.(waitReleaseKey := FirstPressed(m.keypad, 0)))
  {
    WrappingSubAdd16(m.pc, 2);
  }

  /** While the tracked key is held, nothing changes and the instruction repeats. */
  lemma WaitForKeyHeld(m: Machine, x: u4, random: u8)
    requires m.Valid() && m.waitReleaseKey.Some? && m.keypad[m.waitReleaseKey.value]
    ensures Execute(m, Opcode.WaitForKey(x), random) == Transition(Ok(WaitForNextFrame), m)
  {
    WrappingSubAdd16(m.pc, 2);
  }

  /** Once the tracked key is released it lands in Vx and execution goes on. */
  lemma WaitForKeyReleased(m: Machine, x: u4, random: u8)
    requires m.Valid() && m.waitReleaseKey.Some? && !m.keypad[m.waitReleaseKey.value]
    ensures Execute(m, Opcode.WaitForKey(x), random) ==
      Semantics.Continue(m.(pc := After(m.pc), v := m.v[x := m.waitReleaseKey.value], waitReleaseKey := None))
  {
  }

  /** Press a key, run `WaitForKey`, release the key, run it again: Vx holds
      the key and execution has moved past the instruction. */
  lemma WaitForKeyPressThenRelease(m: Machine, x: u4, key: u4, random: u8)
    requires m.Valid() && m.waitReleaseKey.None?
    requires forall k :: 0 <= k < KEY_COUNT ==> m.keypad[k] == (k == key as int)
    ensures var waiting := Execute(m, Opcode.WaitForKey(x), random).next;
      var released := SetKey(waiting, key, false);
      var s := Execute(released, Opcode.WaitForKey(x), random);
      && waiting.pc == m.pc && waiting.waitReleaseKey == Some(key as u8)
      && s.result == Ok(Chip8Result.Continue)
      && s.next.v[x] == key as u8 && s.next.pc == After(m.pc) && s.next.waitReleaseKey == None
  {
    WaitForKeyStarts(m, x, random);
    assert m.keypad[key];
    var first := FirstPressed(m.keypad, 0);
    assert first.Some? && first.value as int == key as int;
    var waiting := Execute(m, Opcode.WaitForKey(x), random).next;
    WaitForKeyReleased(SetKey(waiting, key, false), x, random);
  }
}
