/** What src/emu/chip8.rs promises about construction, loading, the timers,
    the keypad and the fetch-decode-execute cycle, proved of the functions of
    module Semantics. */
module MachineProperties {
  import opened Primitives
  import opened Nibble
  import opened Wrappers
  import opened Types
  import opened Font
  import opened Opcodes
  import opened Semantics

  /** `new`: everything starts at zero, empty or released, except `pc`. */
  lemma NewIsReset()
    ensures Semantics.New().pc == 0x200 && Semantics.New().i == 0
    ensures forall a :: 0 <= a < MEMORY_SIZE ==> Semantics.New().memory[a] == 0
    ensures forall k :: 0 <= k < REGISTER_COUNT ==> Semantics.New().v[k] == 0
    ensures Semantics.New().stack == [] && Semantics.New().delayTimer == 0 && Semantics.New().soundTimer == 0
    ensures Semantics.New().waitReleaseKey == None
    ensures forall k :: 0 <= k < KEY_COUNT ==> !Semantics.New().keypad[k]
    ensures forall r, c :: 0 <= r < DISPLAY_Y && 0 <= c < DISPLAY_X ==> !Semantics.New().display[r][c]
  {
  }

  /** The font and the ROM area do not overlap. */
  lemma FontBelowRom()
    ensures FONT_START_ADDRESS + |FONT| == FONT_END_ADDRESS <= ROM_START_ADDRESS
  {
  }

  /** The glyph of every digit lies inside the font. */
  lemma GlyphInFont(value: u8)
    ensures FONT_START_ADDRESS <= FontAddress(value) as nat
    ensures FontAddress(value) as nat + GLYPH_SIZE <= FONT_END_ADDRESS
    ensures FontAddress(value) as nat == FONT_START_ADDRESS + (value as nat % 16) * GLYPH_SIZE
  {
  }

  /** `load` of a ROM that fits: the font at its place, the ROM at 0x200,
      `pc` at 0x200, every other byte and every other field as it was. */
  lemma LoadFits(m: Machine, rom: seq<u8>)
    requires m.Valid() && |rom| <= MAX_ROM_SIZE
    ensures Load(m, rom).result == Ok(())
    ensures forall k :: 0 <= k < |rom| ==> Load(m, rom).next.memory[ROM_START_ADDRESS + k] == rom[k]
    ensures forall k :: 0 <= k < |FONT| ==> Load(m, rom).next.memory[FONT_START_ADDRESS + k] == FONT[k]
    ensures forall a ::
              (0 <= a < MEMORY_SIZE && !(FONT_START_ADDRESS <= a < FONT_END_ADDRESS)
               && !(ROM_START_ADDRESS <= a < ROM_START_ADDRESS + |rom|))
              ==> Load(m, rom).next.memory[a] == m.memory[a]
    ensures Load(m, rom).next == m.(memory := Load(m, rom).next.memory, pc := ROM_START_ADDRESS as u16)
  {
    var withFont := m.memory[..FONT_START_ADDRESS] + FONT + m.memory[FONT_END_ADDRESS..];
    var memory := Load(m, rom).next.memory;
    assert memory == withFont[..ROM_START_ADDRESS] + rom + withFont[ROM_START_ADDRESS + |rom|..];
    forall k | 0 <= k < |FONT|
      ensures memory[FONT_START_ADDRESS + k] == FONT[k]
    {
      assert withFont[FONT_START_ADDRESS + k] == FONT[k];
    }
  }

  /** `load` of a ROM that does not fit: the error names the size and the
      limit, the font is already in place, nothing else changed. */
  lemma LoadTooLarge(m: Machine, rom: seq<u8>)
    requires m.Valid() && |rom| > MAX_ROM_SIZE
    ensures Load(m, rom).result == Err(RomLoadError(|rom|, 3584))
    ensures forall k :: 0 <= k < |FONT| ==> Load(m, rom).next.memory[FONT_START_ADDRESS + k] == FONT[k]
    ensures forall a :: 0 <= a < MEMORY_SIZE && !(FONT_START_ADDRESS <= a < FONT_END_ADDRESS) ==>
              Load(m, rom).next.memory[a] == m.memory[a]
    ensures Load(m, rom).next == m.(memory := Load(m, rom).next.memory)
  {
    var memory := Load(m, rom).next.memory;
    forall k | 0 <= k < |FONT|
      ensures memory[FONT_START_ADDRESS + k] == FONT[k]
    {
      assert memory[FONT_START_ADDRESS + k] == (m.memory[..FONT_START_ADDRESS] + FONT)[FONT_START_ADDRESS + k];
    }
  }

  /** `n` calls of `timers_cycle`. */
  function TimersCycles(m: Machine, n: nat): (m': Machine)
    requires m.Valid()
    ensures m'.Valid()
    decreases n
  {
    if n == 0 then m else TimersCycles(TimersCycle(m), n - 1)
  }

  /** Both timers count down by one per tick and stop at zero; nothing else
      changes. */
  lemma {:induction false} TimersCountDown(m: Machine, n: nat)
    requires m.Valid()
    decreases n
    ensures TimersCycles(m, n).delayTimer as int == if n < m.delayTimer as int then m.delayTimer as int - n else 0
    ensures TimersCycles(m, n).soundTimer as int == if n < m.soundTimer as int then m.soundTimer as int - n else 0
    ensures TimersCycles(m, n) == m.(delayTimer := TimersCycles(m, n).delayTimer,
                                     soundTimer := TimersCycles(m, n).soundTimer)
  {
    if n > 0 {
      TimersCountDown(TimersCycle(m), n - 1);
    }
  }

  /** The beeper sounds for exactly as many timer ticks as the sound timer
      was set to. */
  lemma BeepLasts(m: Machine, n: nat)
    requires m.Valid()
    ensures ShouldBeep(TimersCycles(m, n)) <==> n < m.soundTimer as nat
  {
    TimersCountDown(m, n);
  }

  /** `set_key` changes that one key and nothing else. */
  lemma SetKeyOnly(m: Machine, key: u4, pressed: bool)
    requires m.Valid()
    ensures SetKey(m, key, pressed).keypad[key] == pressed
    ensures forall k :: 0 <= k < KEY_COUNT && k != key as int ==> SetKey(m, key, pressed).keypad[k] == m.keypad[k]
    ensures SetKey(m, key, pressed) == m.(keypad := SetKey(m, key, pressed).keypad)
  {
  }

  /** `cpu_cycle` is `execute(decode(fetch()))`; a failed fetch changes nothing. */
  lemma CpuCycleIsFetchDecodeExecute(m: Machine, random: u8)
    requires m.Valid()
    ensures Fetch(m).Err? ==> CpuCycle(m, random) == Transition(Err(Fetch(m).error), m)
    ensures Fetch(m).Ok? ==> CpuCycle(m, random) == Execute(m, Decode(Fetch(m).value), random)
  {
  }

  /** A program whose next two bytes encode `op` runs `op`. */
  lemma CpuCycleRunsEncoded(m: Machine, op: Opcode, random: u8)
    requires m.Valid() && WellFormed(op) && m.pc as nat + 1 < MEMORY_SIZE
    requires m.memory[m.pc] as int == Encode(op) as int / 0x100
    requires m.memory[m.pc as nat + 1] as int == Encode(op) as int % 0x100
    ensures CpuCycle(m, random) == Execute(m, op, random)
  {
    assert Fetch(m) == Ok(Encode(op));
    DecodeEncode(op);
  }

  /** A jump to itself is a fixed point of `cpu_cycle`: the idle loop that
      ends most CHIP-8 programs. */
  lemma JumpToSelfIsFixedPoint(m: Machine, random: u8)
    requires m.Valid() && m.pc as nat + 1 < MEMORY_SIZE
    requires m.memory[m.pc] as int == 0x10 + m.pc as int / 0x100
    requires m.memory[m.pc as nat + 1] as int == m.pc as int % 0x100
    ensures CpuCycle(m, random) == Semantics.Continue(m)
  {
    assert WellFormed(Opcode.Jump(m.pc));
    assert Encode(Opcode.Jump(m.pc)) as int == 0x1000 + m.pc as int by {
      DecodeWordNNN(0x1, m.pc);
    }
    CpuCycleRunsEncoded(m, Opcode.Jump(m.pc), random);
  }
}
