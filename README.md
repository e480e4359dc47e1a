# CHIP-8 interpreter core, modelled in Dafny

This project models the interpreter core of the `chip8-rust` CHIP-8 virtual
machine and proves properties of that model. It covers:

- the 4-bit register index `u4` (src/nibble.rs);
- the opcode decoder `Opcode::decode`. Its two identical copies,
  src/chip8/opcode.rs and src/opcode.rs, are modelled by one function;
- the instruction semantics of `Chip8::execute` (src/execute.rs);
- the machine itself, with `new`, `load`, `fetch`, `cpu_cycle`, the timers
  and the keypad (src/emu/chip8.rs);
- the older standalone six-instruction machine of src/chip8.rs;
- the two timing runners, src/emu/runner.rs and src/runner.rs, which turn
  elapsed time into timer ticks and CPU cycles;
- the debugger's `Executor` (src/debugger/executor.rs).

The model has two layers.

- **Specification functions** give each operation as a function from one
  machine state to the next. They live in modules `Semantics` (machine and
  instructions), `Opcodes` (decoder), `Timing` (runner loops),
  `DebuggerModel` (executor) and `LegacyModel` (the old machine). A
  `Transition` pairs an operation's result with the state it leaves behind.
  A failing operation therefore still shows every write it made before the
  error.
- **Imperative classes** do what the Rust code does, in place: fixed arrays
  for memory, registers, keypad and framebuffer, loops with invariants for
  `StoreRegs` and `LoadRegs`, the nested draw loops and the key scan, and
  the runner loops over two accumulator fields. These classes are
  `Emu.Chip8`, `Legacy.Chip8`, `EmuRunner.Chip8Runner`,
  `LegacyRunner.Chip8Runner` and `Debugger.Executor`. Every method is proved
  to leave exactly the state its specification function gives. The
  behavioural properties are proved as lemmas about those functions, in the
  modules `ExecuteProperties`, `MachineProperties` and `Opcodes`, and in the
  specification modules themselves.

Integers are Dafny integers in subset types `u8`, `u16` and `u4`. Rust's
`wrapping_add`, `overflowing_add`, `overflowing_sub` and `saturating_sub`
are written out in module `Primitives`, along with the bitwise operators on
naturals. `pc` and `i` wrap modulo 65536. An address of 4096 or more is
rejected only when memory is accessed.

The random byte of `Cxnn` is a parameter. Each runner takes a function
`random: nat -> u8` that gives the byte for the k-th cycle of a call.
Elapsed time is counted in whole ticks of 1/2100 s. One CPU step (700 Hz)
is then exactly 3 ticks and one timer step (60 Hz) exactly 35.

In three places the repository's files do not fit together, and the model
follows the code of the operation itself:

- src/execute.rs has no arm for `Opcode::UnknownALU`, although the decoder
  produces it. Here it fails with `UnknownALUOpcode { opcode }`, the error
  src/chip8/types.rs declares for it.
- src/debugger/executor.rs uses `Command::Set`, `SetTarget`,
  `CommandResult::BreakpointList` and `CommandError`. None of these appears
  in src/debugger/commands.rs. The model follows executor.rs, and
  `CommandError` carries the emulator error.
- src/runner.rs drives a machine with `cpu_cycle`, `timers_cycle` and
  `should_beep`. Only the machine of src/emu/chip8.rs has these, so
  `LegacyRunner.Chip8Runner` owns an `Emu.Chip8`.

## Model

| member | source | states |
|---|---|---|
| Nibble.New | src/nibble.rs:8-10 | the stored nibble is the value modulo 16, and a value below 16 is kept unchanged |
| Nibble.NewIdempotent | src/nibble.rs:8-10 | masking an already-masked nibble gives the same nibble |
| Nibble.ToUsize | src/nibble.rs:13-17 | `usize::from` returns the stored nibble unchanged, so the result is below 16 |
| Nibble.Index | src/nibble.rs:19-25 | indexing 16 registers by a nibble is always in bounds and reads the element at the nibble |
| Nibble.IndexMut | src/nibble.rs:27-31 | writing through a nibble sets that register and leaves the other 15 unchanged |
| Types.BlankDisplay | src/emu/chip8.rs:42 | the cleared display is 32 rows of 64 pixels, all off |
| Types.DisplayExtensionality | src/chip8/types.rs:29-32 | two 64×32 displays that agree on every pixel are equal |
| Primitives.WrappingAdd16 | src/execute.rs:8 | `u16::wrapping_add`: the sum, less 65536 when it overflows |
| Primitives.WrappingSub16 | src/execute.rs:216 | `u16::wrapping_sub`: the difference, plus 65536 when it underflows |
| Primitives.WrappingSubAdd16 | src/execute.rs:216 | moving `pc` back by 2 undoes moving it on by 2, across the wrap too |
| Primitives.OverflowingAdd | src/execute.rs:137 | the flag is set exactly when the sum reaches 256, and result plus 256·flag is the exact sum |
| Primitives.OverflowingSub | src/execute.rs:142 | the borrow is set exactly when a < b, and result minus 256·borrow is the exact difference |
| Primitives.WrappingAdd8 | src/execute.rs:51 | `u8::wrapping_add` is the value part of `overflowing_add` |
| Primitives.SaturatingDecrement | src/emu/chip8.rs:84-85 | `saturating_sub(1)` keeps 0 at 0 and otherwise subtracts one |
| Primitives.BitAnd | src/execute.rs:58 | `&` on naturals: the result is at most either operand |
| Primitives.BitOr | src/execute.rs:125 | `\|` on naturals: the result is at least either operand |
| Primitives.And8 | src/execute.rs:129 | `&=` on bytes works bit by bit: bit k of the result is set exactly when it is set in both operands, so the result is at most either operand |
| Primitives.Or8 | src/execute.rs:125 | `\|=` on bytes works bit by bit: bit k of the result is set exactly when it is set in either operand, so the result is at least either operand |
| Primitives.Xor8 | src/execute.rs:133 | `^=` on bytes works bit by bit: bit k of the result is set exactly when it is set in one operand but not the other, and XOR-ing the result with b again gives a back |
| Primitives.BitAndLowMask | src/execute.rs:152 | masking with 2^k − 1 is the remainder modulo 2^k, so `v & 1` is the low bit |
| Primitives.BitAndPow2 | src/execute.rs:178 | `a & 2^k` is non-zero exactly when bit k of a is set |
| Primitives.BitOrXorBound | src/execute.rs:125-133 | OR and XOR of two values below 2^k stay below 2^k |
| Primitives.BitXorInvolution | src/execute.rs:182 | XOR-ing the same bits twice restores the value |
| Primitives.BitAndBits | src/execute.rs:58 | `&` on naturals works bit by bit: bit k of `a & b` is set exactly when it is set in both |
| Primitives.BitOrBits | src/execute.rs:125 | `\|` on naturals works bit by bit: bit k of `a \| b` is set exactly when it is set in at least one of them |
| Primitives.BitXorBits | src/execute.rs:133 | `^` on naturals works bit by bit: bit k of `a ^ b` is set exactly when it is set in exactly one of them |
| Opcodes.OperandSlices | src/opcode.rs:60-71 | `x`, `y` and `n` are nibbles, `nn` is the low byte and `nnn` ≤ 0xFFF, and the slices put back together give the word |
| Opcodes.Digits | src/chip8/opcode.rs:100-105 | a word built from four nibbles gives those four nibbles back |
| Opcodes.AluCodeRoundTrip | src/chip8/opcode.rs:123-138 | the low nibbles 0 to 7 and E are exactly the ones naming an ALU operation, and each operation's code maps back to it |
| Opcodes.DecodeFamily0 | src/chip8/opcode.rs:114-115 | 0x00E0 and only it decodes to `ClearDisplay`, 0x00EE and only it to `Return`, and every other 0??? word to `Unknown(word)` |
| Opcodes.DecodeOperandFamilies | src/opcode.rs:76-103 | families 1, 2, 3, 4, 6, 7, A, B, C and D decode to their variant with the word's slices as operands, whatever the low nibbles |
| Opcodes.DecodeFamily8 | src/opcode.rs:83-98 | 8xyN with N in 0..7 or E is `ALU { x, y, op }` with the op coded by N, any other N is `UnknownALU(word)`, and family 8 never gives plain `Unknown` |
| Opcodes.DecodeFamilies5And9 | src/chip8/opcode.rs:120-156 | 5xy0 and 9xy0 are the register-compare skips, and any other low nibble gives `Unknown(word)` |
| Opcodes.DecodeFamiliesEAndF | src/chip8/opcode.rs:144-156 | in families E and F exactly the second bytes 9E, A1 and 0A, 07, 15, 18, 1E, 29, 33, 55, 65 are recognised, with `x` the second nibble; every other word is `Unknown(word)` |
| Opcodes.DecodeWellFormed | src/opcode.rs:58-118 | decoding is total: every word decodes to a well-formed instruction, `Unknown(word)` or `UnknownALU(word)` |
| Opcodes.EncodeDecode | src/opcode.rs:58-118 | re-encoding the decoded instruction gives the word back, for all 65536 words |
| Opcodes.EncodeDecodeNNN | src/opcode.rs:76-101 | the same round trip for families 1, 2, A and B |
| Opcodes.EncodeDecodeXNN | src/opcode.rs:78-102 | the same round trip for families 3, 4, 6, 7 and C |
| Opcodes.EncodeDecodeXYN | src/opcode.rs:80-103 | the same round trip for families 5, 9 and D, including the `Unknown` words of 5 and 9 |
| Opcodes.EncodeDecodeAlu | src/opcode.rs:83-98 | the same round trip for family 8, including `UnknownALU` |
| Opcodes.EncodeDecodeKeyed | src/opcode.rs:104-116 | the same round trip for families E and F |
| Opcodes.EncodeDecodeKeys | src/opcode.rs:104-105 | the same round trip for family E |
| Opcodes.EncodeDecodeMisc | src/opcode.rs:106-116 | the same round trip for family F |
| Opcodes.EncodeDecodeTimers | src/opcode.rs:106-110 | the same round trip for family F with third nibble 0 or 1 |
| Opcodes.EncodeDecodeTimerWrites | src/opcode.rs:108-110 | the same round trip for family F with third nibble 1 |
| Opcodes.EncodeDecodeMemory | src/opcode.rs:111-116 | the same round trip for family F with third nibble 2 or more |
| Opcodes.WordOfSlices | src/opcode.rs:60-71 | encoding a word's own slices as NNN, XNN or XYN operands rebuilds the word |
| Opcodes.DecodeInjective | src/opcode.rs:58-118 | two words that decode to the same instruction are equal |
| Opcodes.DecodeEncode | src/chip8/opcode.rs:6-73 | every well-formed instruction decodes back from its documented encoding |
| Opcodes.DecodeEncodeNNN | src/chip8/opcode.rs:7-31 | the same for 1nnn, Bnnn, 2nnn and Annn |
| Opcodes.DecodeEncodeXNN | src/chip8/opcode.rs:17-38 | the same for 3xnn, 4xnn, 6xnn, 7xnn and Cxnn |
| Opcodes.DecodeEncodeXYN | src/chip8/opcode.rs:21-43 | the same for 5xy0, 9xy0, Dxyn and every 8xyN operation |
| Opcodes.DecodeEncodeKeyed | src/chip8/opcode.rs:32-67 | the same for the E and F instructions |
| Opcodes.DecodeEncodeKeys | src/chip8/opcode.rs:45-48 | the same for Ex9E and ExA1 |
| Opcodes.DecodeEncodeTimers | src/chip8/opcode.rs:49-57 | the same for Fx0A, Fx07, Fx15 and Fx18 |
| Opcodes.DecodeEncodeIndex | src/chip8/opcode.rs:32-60 | the same for Fx1E and Fx29 |
| Opcodes.DecodeEncodeMemory | src/chip8/opcode.rs:61-67 | the same for Fx33, Fx55 and Fx65 |
| Opcodes.DecodeWordNNN | src/chip8/opcode.rs:101-111 | the family and `nnn` of a word built from them are read back |
| Opcodes.DecodeWordXNN | src/chip8/opcode.rs:101-110 | the family, `x` and `nn` of a word built from them are read back |
| Opcodes.DecodeWordXYN | src/chip8/opcode.rs:101-109 | the family, `x`, `y` and `n` of a word built from them are read back |
| Semantics.New | src/emu/chip8.rs:39-52 | the new machine is well-formed: 4096 bytes, a 64×32 display, 16 registers, 16 keys |
| MachineProperties.NewIsReset | src/emu/chip8.rs:39-52 | `pc` = 0x200 and `i` = 0; memory, registers and timers are zero; the stack is empty; no key is awaited or pressed; the display is blank |
| Semantics.MemGet | src/emu/chip8.rs:112-116 | succeeds exactly for addresses below 4096 and otherwise reports `MemoryOutOfBounds` with that address |
| Semantics.Fetch | src/emu/chip8.rs:104-109 | succeeds exactly when `pc + 1` < 4096, with `memory[pc]·256 + memory[pc+1]`, and otherwise reports the first address out of memory |
| Semantics.Load | src/emu/chip8.rs:55-73 | the machine after `load` is well-formed |
| MachineProperties.LoadFits | src/emu/chip8.rs:55-73 | a ROM of at most 3584 bytes lands at 0x200, the font at its addresses, `pc` = 0x200, and all other memory and state are unchanged |
| MachineProperties.LoadTooLarge | src/emu/chip8.rs:57-67 | a larger ROM fails with `RomLoadError { size, max_size: 3584 }` after the font was copied, with no other change, not even to `pc` |
| MachineProperties.FontBelowRom | src/emu/chip8.rs:57 | the font occupies `FONT_START_ADDRESS..FONT_END_ADDRESS`, exactly its own length, and lies below 0x200 |
| MachineProperties.GlyphInFont | src/execute.rs:91-94 | the glyph address of any register value lies inside the font, at `FONT_START_ADDRESS + 5·(v mod 16)` |
| Semantics.CpuCycle | src/emu/chip8.rs:76-80 | the machine after a cycle is well-formed |
| MachineProperties.CpuCycleIsFetchDecodeExecute | src/emu/chip8.rs:76-80 | a cycle is `execute(decode(fetch()))`, and a failed fetch returns its error with the state unchanged |
| MachineProperties.CpuCycleRunsEncoded | src/emu/chip8.rs:76-80 | a cycle at a well-formed instruction's encoding executes that instruction |
| MachineProperties.JumpToSelfIsFixedPoint | src/execute.rs:14-16 | a cycle at a jump to its own address continues with the machine unchanged |
| Semantics.TimersCycle | src/emu/chip8.rs:83-86 | the machine after a timer tick is well-formed |
| MachineProperties.TimersCycles | src/emu/chip8.rs:83-86 | n timer ticks keep the machine well-formed |
| MachineProperties.TimersCountDown | src/emu/chip8.rs:83-86 | after n ticks each timer is max(t − n, 0), and nothing else changes |
| MachineProperties.BeepLasts | src/emu/chip8.rs:89-91 | the machine beeps after n ticks exactly when n is below the sound timer |
| Semantics.SetKey | src/emu/chip8.rs:94-96 | the machine after `set_key` is well-formed |
| MachineProperties.SetKeyOnly | src/emu/chip8.rs:94-96 | `set_key` sets that key and changes no other key and nothing else |
| Semantics.Execute | src/execute.rs:7-119 | the machine after any instruction is well-formed |
| Semantics.Perform | src/execute.rs:10-116 | the machine after the instruction's own effect is well-formed |
| Semantics.PerformGroups | src/execute.rs:14-94 | the flow, skip, register-write and index/timer arms are the group functions `Flow`, `Skip`, `WriteRegister` and `IndexAndTimers` |
| Semantics.PerformMemoryArms | src/execute.rs:66-112 | the Draw, WaitForKey, BCD, StoreRegs and LoadRegs arms are `Draw`, `WaitForKey`, `Bcd(v[x])`, `StoreRegs` and `LoadRegs` from V0 |
| ExecuteProperties.StraightAdvancesPc | src/execute.rs:8 | an instruction that does not write `pc` returns `Continue` with `pc` = old + 2, the stack, memory, keypad and awaited key unchanged |
| ExecuteProperties.SkipAdvance | src/execute.rs:27-46 | each of the six skips continues with `pc` = old + 4 when its condition holds and old + 2 otherwise, and changes nothing else |
| ExecuteProperties.CallPushes | src/execute.rs:20-23 | `Call` pushes old + 2 and jumps to `nnn` |
| ExecuteProperties.ReturnAfterCall | src/execute.rs:24-26 | `Return` right after `Call` restores the stack and continues at the call's old + 2 |
| ExecuteProperties.ReturnUnderflow | src/execute.rs:25 | `Return` on an empty stack fails with `StackUnderflow`, after `pc` has moved on |
| ExecuteProperties.UnknownFails | src/execute.rs:113-115 | `Unknown(w)` fails with `UnknownOpcode { opcode: w }`, and `UnknownALU(w)` with `UnknownALUOpcode { opcode: w }` |
| ExecuteProperties.CpuCycleReportsUnknownWord | src/emu/chip8.rs:76-80 | a cycle at an unrecognised word fails with that word as the opcode, with only `pc` moved on |
| ExecuteProperties.AddRegImmWraps | src/execute.rs:50-52 | 7xnn makes Vx = (Vx + nn) mod 256, and VF is not touched unless x is F |
| ExecuteProperties.RandomMasked | src/execute.rs:56-59 | Cxnn stores `random & nn` in Vx: a bit of Vx is set exactly when it is set in both the random byte and `nn`, so Vx is at most either |
| ExecuteProperties.FontCharPointsAtGlyph | src/execute.rs:91-94 | Fx29 sets `i` = `FONT_START_ADDRESS + 5·(Vx mod 16)`, inside the font |
| Semantics.Alu | src/execute.rs:121-162 | the ALU keeps 16 registers |
| ExecuteProperties.AluOthersUnchanged | src/execute.rs:121-162 | the ALU writes only Vx and VF, and `Set` copies Vy into Vx without touching VF |
| ExecuteProperties.AluValue | src/execute.rs:121-162 | for x ≠ F, Vx is the OR, AND, XOR, the sum and both differences mod 256, Vy >> 1, or Vy << 1 mod 256 |
| ExecuteProperties.AluFlag | src/execute.rs:121-162 | VF is written last: 0 for OR/AND/XOR, the carry for `Add`, 1 iff Vx ≥ Vy for `Sub`, 1 iff Vy ≥ Vx for `SubReverse`, and the bit of Vy shifted out for the shifts |
| ExecuteProperties.DecimalDigits | src/execute.rs:95-100 | the three decimal digits are below 10 and worth the value |
| Semantics.Poke | src/execute.rs:97 | a checked write through `mem_get` keeps the machine well-formed |
| Semantics.Bcd | src/execute.rs:95-100 | the machine after Fx33 is well-formed |
| ExecuteProperties.BcdWritesDigits | src/execute.rs:95-100 | with `i + 2` < 4096, Fx33 writes the hundreds, tens and units at `i`, `i+1`, `i+2`, leaves `i` and all other memory as they were, and continues |
| ExecuteProperties.BcdOutOfBounds | src/execute.rs:97-99 | otherwise Fx33 fails with the first address out of memory, and the digits written before it persist |
| ExecuteProperties.Accessible | src/execute.rs:101-112 | the number of registers transferred before `i` leaves memory |
| Semantics.StoreRegs | src/execute.rs:101-106 | the machine after Fx55 from any register is well-formed |
| Semantics.LoadRegs | src/execute.rs:107-112 | the machine after Fx65 from any register is well-formed |
| ExecuteProperties.StoreRegsFrom | src/execute.rs:101-106 | the Fx55 loop from register `reg` writes the registers that fit, advances `i` past them, fails at the first address out of memory, and changes nothing else |
| ExecuteProperties.LoadRegsFrom | src/execute.rs:107-112 | the Fx65 loop from register `reg` reads the registers that fit, advances `i`, fails at the first address out of memory, and changes nothing else |
| ExecuteProperties.StoreRegsEffect | src/execute.rs:101-106 | within memory, Fx55 copies V0..=Vx to `i..=i+x`, leaves `i` = old + x + 1 and other memory unchanged, and continues |
| ExecuteProperties.LoadRegsEffect | src/execute.rs:107-112 | within memory, Fx65 copies `i..=i+x` into V0..=Vx, leaves `i` = old + x + 1 and other registers unchanged, and continues |
| ExecuteProperties.StoreRegsOutOfBounds | src/execute.rs:103 | past the end of memory, Fx55 fails with `MemoryOutOfBounds` and the registers already stored persist |
| ExecuteProperties.LoadRegsOutOfBounds | src/execute.rs:109 | past the end of memory, Fx65 fails with `MemoryOutOfBounds` and the registers already loaded persist |
| ExecuteProperties.StoreThenLoad | src/execute.rs:101-112 | loading back what Fx55 stored restores V0..=Vx |
| Semantics.Place | src/execute.rs:165-170 | the sprite starts on the screen and its clipped rectangle, at most 15 rows and 8 columns, fits inside it |
| Semantics.ReadableRows | src/execute.rs:173-174 | the rows before the first sprite row whose address is out of memory, or all rows |
| Semantics.Drawn | src/execute.rs:173-189 | XOR-ing sprite rows onto a display gives a 64×32 display |
| Semantics.Draw | src/execute.rs:164-193 | the machine after Dxyn is well-formed |
| ExecuteProperties.DrawOutsideUnchanged | src/execute.rs:165-170 | the rectangle starts at (Vx mod 64, Vy mod 32) and is min(n, 32 − y) by min(8, 64 − x); no pixel outside it changes |
| ExecuteProperties.DrawXorsSprite | src/execute.rs:173-189 | each pixel of the readable rows is XOR-ed with its sprite bit from `memory[i + row]` |
| ExecuteProperties.DrawResult | src/execute.rs:174-192 | Dxyn succeeds exactly when every row is readable, with `WaitForNextFrame` and VF = 1 iff a lit pixel went off; on failure the registers are unchanged and the rows before it stay drawn |
| ExecuteProperties.DrawTwiceRestores | src/execute.rs:182 | drawing the same sprite twice restores the display |
| Semantics.FirstPressed | src/execute.rs:207-212 | the lowest-numbered pressed key at or after `from`, or none when no such key is pressed |
| Semantics.WaitForKey | src/execute.rs:195-218 | the machine after Fx0A is well-formed, so an awaited key is a key number |
| ExecuteProperties.WaitForKeyStarts | src/execute.rs:205-217 | with no awaited key, Fx0A records the lowest pressed key, or none, keeps `pc` and returns `WaitForNextFrame` |
| ExecuteProperties.WaitForKeyHeld | src/execute.rs:196-217 | while the awaited key is held, Fx0A changes nothing and returns `WaitForNextFrame` |
| ExecuteProperties.WaitForKeyReleased | src/execute.rs:196-203 | once the awaited key is released, Fx0A sets Vx to it, clears the slot and continues at old + 2 |
| ExecuteProperties.WaitForKeyPressThenRelease | src/execute.rs:195-218 | pressing a key and releasing it across two Fx0A runs stores that key in Vx |
| Emu.Chip8.constructor | src/emu/chip8.rs:39-52 | the fresh machine holds `Semantics.New()` |
| Emu.Chip8.Load | src/emu/chip8.rs:55-73 | `load` copies in place and leaves the result and state of `Semantics.Load` |
| Emu.Chip8.CpuCycle | src/emu/chip8.rs:76-80 | `cpu_cycle` leaves the result and state of `Semantics.CpuCycle` |
| Emu.Chip8.TimersCycle | src/emu/chip8.rs:83-86 | `timers_cycle` leaves the state of `Semantics.TimersCycle` |
| Emu.Chip8.ShouldBeep | src/emu/chip8.rs:89-91 | `should_beep` is `Semantics.ShouldBeep` of the state |
| Emu.Chip8.SetKey | src/emu/chip8.rs:94-96 | `set_key` leaves the state of `Semantics.SetKey` |
| Emu.Chip8.GetDisplayPixel | src/emu/chip8.rs:99-101 | the pixel at row y and column x of the state |
| Emu.Chip8.Fetch | src/emu/chip8.rs:104-109 | `fetch` returns `Semantics.Fetch` of the state and changes nothing |
| Emu.Chip8.Execute | src/execute.rs:7-119 | `execute` leaves the result and state of `Semantics.Execute` |
| Emu.Chip8.Perform | src/execute.rs:10-116 | the `match` of `execute` leaves the result and state of `Semantics.Perform` |
| Emu.Chip8.PerformRegisters | src/execute.rs:11-94 | the same for the arms that touch only `pc`, `i`, the stack, the timers, the display clear and the registers |
| Emu.Chip8.PerformMemoryAndInput | src/execute.rs:66-112 | the same for the Draw, WaitForKey, BCD, StoreRegs and LoadRegs arms |
| Emu.Chip8.ExecuteClearDisplay | src/execute.rs:11-13 | 00E0 turns every pixel off and changes nothing else |
| Emu.Chip8.ExecuteFlow | src/execute.rs:14-26 | the jumps, `Call` and `Return` leave the result and state of `Semantics.Flow` |
| Emu.Chip8.ExecuteSkip | src/execute.rs:27-46 | the six skips leave the state of `Semantics.Skip` |
| Emu.Chip8.ExecuteRegisters | src/execute.rs:47-59 | 6xnn, 7xnn, Cxnn and Fx07 write the register `Semantics.WriteRegister` gives and nothing else |
| Emu.Chip8.ExecuteIndexAndTimers | src/execute.rs:60-94 | Annn, Fx1E, Fx15, Fx18 and Fx29 leave the state of `Semantics.IndexAndTimers` |
| Emu.Chip8.ExecuteAlu | src/execute.rs:121-162 | `execute_alu` updates the register array to `Semantics.Alu` and changes nothing else |
| Emu.Chip8.ExecuteBcd | src/execute.rs:95-100 | Fx33 leaves the result and state of `Semantics.Bcd` |
| Emu.Chip8.ExecuteStoreRegs | src/execute.rs:101-106 | the Fx55 loop leaves the result and state of `Semantics.StoreRegs` from V0 |
| Emu.Chip8.ExecuteLoadRegs | src/execute.rs:107-112 | the Fx65 loop leaves the result and state of `Semantics.LoadRegs` from V0 |
| Emu.Chip8.ExecuteWaitForKey | src/execute.rs:195-218 | the key scan leaves the result and state of `Semantics.WaitForKey` |
| Emu.Chip8.DrawPixel | src/execute.rs:178-186 | flips one covered pixel and reports whether it turned off a lit pixel |
| Emu.Chip8.DrawRow | src/execute.rs:176-188 | the column loop draws one sprite row and keeps the erased flag of the pixels seen |
| Emu.Chip8.DrawSpriteRow | src/execute.rs:173-189 | one iteration of the row loop extends the drawn rows and the erased flag by one row |
| Emu.Chip8.PaintedRowsScreen | src/execute.rs:173-189 | a display painted row by row is the `Semantics.Drawn` display |
| Emu.ErasedRowsMeansAnyErased | src/execute.rs:172-191 | the accumulated `any_erased` is true exactly when a lit pixel went off |
| Emu.Chip8.ExecuteDraw | src/execute.rs:164-193 | `execute_draw` leaves the result and state of `Semantics.Draw` |
| Timing.DrainTimers | src/emu/runner.rs:49-52 | the timer loop leaves a well-formed machine and less than one timer step |
| Timing.DrainTimersCounts | src/emu/runner.rs:49-52 | the timer loop ticks the timers exactly acc / step times and keeps acc mod step |
| Timing.CpuCycleKeepsValid | src/emu/chip8.rs:76-80 | `cpu_cycle` keeps any machine well-formed, so the runner loops apply to it |
| Timing.RunCpu | src/emu/runner.rs:54-75 | the CPU loop leaves a well-formed machine |
| Timing.Iteration | src/emu/runner.rs:55-74 | one iteration of the CPU loop leaves a well-formed machine |
| Timing.AfterCycle | src/emu/runner.rs:59-74 | the checks after one cycle leave a well-formed machine |
| Timing.IterationEnds | src/emu/runner.rs:55-74 | an iteration takes a step off, runs exactly one cycle, then stops on an error, a breakpoint at `pc` (accumulator 0) or `WaitForNextFrame` (accumulator 0), or loops |
| Timing.IterationContinues | src/emu/runner.rs:73 | a `Continue` with no breakpoint hit goes on with one step less |
| Timing.RunCpuCounts | src/emu/runner.rs:54-75 | the loop drains to acc mod step after exactly acc / step cycles, or stops earlier; a frame wait or breakpoint zeroes the accumulator, an error keeps it, and a breakpoint needs `pc` in the set |
| Timing.AfterCycleCounts | src/emu/runner.rs:57-75 | the same counts from just after a cycle |
| Timing.NewRunner | src/emu/runner.rs:24-30 | a new runner holds the machine with both accumulators at 0 |
| Timing.UpdateWithBreakpoints | src/emu/runner.rs:41-78 | the update leaves a well-formed machine; `Timing.UpdateWithBreakpointsReports` gives its closed form, with the timer loop before the CPU loop |
| Timing.UpdateWithBreakpointsReports | src/emu/runner.rs:41-78 | the timers tick (timerAcc + dt) / 35 times BEFORE the first CPU cycle: the result and new state are the report and state of the CPU loop started on the ticked machine, whatever the breakpoints; the timer accumulator ends at (acc + dt) mod step; `HitBreakpoint` comes with `pc` in the set and a zero CPU accumulator; `Ok` leaves less than one CPU step |
| Timing.Report | src/emu/runner.rs:57-77 | an error is reported exactly for a failed cycle, and `HitBreakpoint` exactly for a breakpoint stop |
| Timing.Update | src/emu/runner.rs:36-38 | `update` leaves a well-formed machine |
| Timing.UpdateNeverHitsBreakpoint | src/emu/runner.rs:36-38 | `update` passes no breakpoints and never returns `HitBreakpoint` |
| Timing.LegacyUpdate | src/runner.rs:29-52 | the older `update` leaves a well-formed machine; `Timing.LegacyUpdateReports` gives its closed form, with the timer loop (src/runner.rs:33-36) before the CPU loop (src/runner.rs:38-49) |
| Timing.LegacyUpdateReports | src/runner.rs:29-52 | the timers tick (timerAcc + dt) / 35 times BEFORE the first CPU cycle: the result and new state are the legacy report and state of the breakpoint-free CPU loop started on the ticked machine; the timers keep (acc + dt) mod step; `WaitForNextFrame` zeroes the CPU accumulator; `Continue` leaves it at (acc + dt) mod step |
| Timing.LegacyReport | src/runner.rs:40-51 | an error exactly for a failed cycle, `WaitForNextFrame` exactly for a frame wait |
| EmuRunner.Chip8Runner.constructor | src/emu/runner.rs:24-30 | the runner takes the machine over with both accumulators at 0 |
| EmuRunner.Chip8Runner.DrainTimers | src/emu/runner.rs:49-52 | the timer `while` loop leaves the machine and accumulator of `Timing.DrainTimers` and keeps the CPU accumulator |
| EmuRunner.Chip8Runner.CpuIteration | src/emu/runner.rs:55-74 | one loop body: the same stop, machine and accumulator as `Timing.RunCpu`, or one step less and one cycle more |
| EmuRunner.Chip8Runner.RunCpu | src/emu/runner.rs:54-75 | the CPU `while` loop stops as `Timing.RunCpu` does, with its machine and accumulator |
| EmuRunner.Chip8Runner.UpdateWithBreakpoints | src/emu/runner.rs:41-78 | the in-place update leaves the result and runner state of `Timing.UpdateWithBreakpoints` |
| EmuRunner.Chip8Runner.Update | src/emu/runner.rs:36-38 | leaves the result and state of `Timing.Update` |
| EmuRunner.Chip8Runner.ShouldBeep | src/emu/runner.rs:81-83 | delegates to the machine |
| EmuRunner.Chip8Runner.SetKey | src/emu/runner.rs:86-88 | sets the key on the machine and keeps both accumulators |
| EmuRunner.Chip8Runner.GetDisplayPixel | src/emu/runner.rs:91-93 | the machine's pixel |
| LegacyRunner.Chip8Runner.constructor | src/runner.rs:17-23 | the runner takes the machine over with both accumulators at 0 |
| LegacyRunner.Chip8Runner.DrainTimers | src/runner.rs:33-36 | the timer loop leaves the machine and accumulator of `Timing.DrainTimers` |
| LegacyRunner.Chip8Runner.CpuIteration | src/runner.rs:39-48 | one loop body, against `Timing.RunCpu` with no breakpoints |
| LegacyRunner.Chip8Runner.RunCpu | src/runner.rs:38-49 | the CPU loop stops as `Timing.RunCpu` with no breakpoints does |
| LegacyRunner.Chip8Runner.Update | src/runner.rs:29-52 | leaves the result and runner state of `Timing.LegacyUpdate` |
| LegacyRunner.Chip8Runner.ShouldBeep | src/runner.rs:55-57 | delegates to the machine |
| LegacyRunner.Chip8Runner.SetKey | src/runner.rs:60-62 | sets the key on the machine and keeps both accumulators |
| LegacyRunner.Chip8Runner.GetDisplayPixel | src/runner.rs:65-67 | the machine's pixel |
| DebuggerModel.NewExecutor | src/debugger/executor.rs:12-18 | a new executor is paused with no breakpoints |
| DebuggerModel.Poll | src/debugger/executor.rs:20-34 | paused: `Ok(Ok)` and no change; running: the result and runner are exactly `Timing.UpdateWithBreakpoints` with `Some` of the executor's own breakpoints, pausing exactly on an error or `HitBreakpoint`; the breakpoints stay |
| DebuggerModel.PollPausesAtBreakpoint | src/debugger/executor.rs:25-31 | a running poll with a CPU step to run whose first cycle, on the timer-ticked machine, lands `pc` on a breakpoint reports `HitBreakpoint`, pauses, and keeps that cycle's machine with a zero CPU accumulator |
| DebuggerModel.PausedPollIsIdle | src/debugger/executor.rs:21-23 | polling a paused executor changes nothing, and `Run` sets it running |
| DebuggerModel.StepCycle | src/debugger/executor.rs:61-64 | `step` runs exactly one `cpu_cycle`, whatever the running flag, and passes on its error |
| DebuggerModel.Ascending | src/debugger/executor.rs:120-128 | the breakpoints from `from` on, strictly ascending |
| DebuggerModel.SortedBreakpoints | src/debugger/executor.rs:120-128 | exactly the set's members, strictly ascending |
| DebuggerModel.HandleBreakpoint | src/debugger/executor.rs:106-132 | `Set` inserts, `Clear` removes, `ClearAll` empties, and `List` returns the sorted members without changing the set |
| DebuggerModel.SetThenClear | src/debugger/executor.rs:113-118 | setting then clearing an address removes it, and leaves the set as it was when the address was absent |
| DebuggerModel.HandleSet | src/debugger/executor.rs:134-150 | `v[reg]` = value mod 256, `i` = value or `pc` = value, and nothing else changes |
| DebuggerModel.SetOwnValue | src/debugger/executor.rs:140-142 | setting a register to its own value changes nothing |
| DebuggerModel.Execute | src/debugger/executor.rs:36-51 | only `Step` can fail; `Quit` exactly gives `Quit`; `Run`/`Pause` set the flag; nothing else touches the flag or the accumulators, and only breakpoint commands touch the set; `Quit` changes nothing; `Set` is exactly `HandleSet` on the machine, `Breakpoint` exactly `HandleBreakpoint` on the set, and `Step` exactly `StepCycle` |
| Debugger.Executor.constructor | src/debugger/executor.rs:12-18 | the executor holds `NewExecutor` of the runner |
| Debugger.Executor.Poll | src/debugger/executor.rs:20-34 | leaves the result and state of `DebuggerModel.Poll` |
| Debugger.Executor.Execute | src/debugger/executor.rs:36-51 | leaves the result and state of `DebuggerModel.Execute` |
| Debugger.Executor.ExecuteRun | src/debugger/executor.rs:53-55 | sets running and changes nothing else |
| Debugger.Executor.ExecutePause | src/debugger/executor.rs:57-59 | sets paused and changes nothing else |
| Debugger.Executor.ExecuteStep | src/debugger/executor.rs:61-64 | leaves the result and state of `DebuggerModel.StepCycle` |
| Debugger.Executor.HandleBreakpoint | src/debugger/executor.rs:106-132 | updates the breakpoint set in place to `DebuggerModel.HandleBreakpoint` and never fails |
| Debugger.Executor.HandleSet | src/debugger/executor.rs:134-150 | writes the machine field in place as `DebuggerModel.HandleSet` says and returns `Ok` |
| Debugger.Executor.IsRunning | src/debugger/executor.rs:66-68 | the running flag |
| Debugger.Executor.GetDisplay | src/debugger/executor.rs:70-72 | the machine's 64×32 display |
| Debugger.Executor.GetPc | src/debugger/executor.rs:74-76 | the machine's `pc` |
| Debugger.Executor.GetI | src/debugger/executor.rs:78-80 | the machine's `i` |
| Debugger.Executor.GetV | src/debugger/executor.rs:82-84 | the machine's 16 registers |
| Debugger.Executor.GetStack | src/debugger/executor.rs:86-88 | the machine's stack |
| Debugger.Executor.GetDelayTimer | src/debugger/executor.rs:90-92 | the machine's delay timer |
| Debugger.Executor.GetSoundTimer | src/debugger/executor.rs:94-96 | the machine's sound timer |
| Debugger.Executor.GetKeypad | src/debugger/executor.rs:98-100 | the machine's 16 keys |
| LegacyModel.Decode | src/chip8.rs:50-74 | recognises exactly 00E0 and families 1, 6, 7, A and D, with the operands sliced from the word; everything else is `Unknown` |
| LegacyModel.DecodeAgrees | src/chip8.rs:64-70 | each recognised word decodes to the same instruction as the current decoder |
| LegacyModel.DecodedOperandsInRange | src/chip8.rs:58-60 | decoded register operands are below 16, so only `Draw` can panic in `execute` |
| LegacyModel.New | src/chip8.rs:19-30 | `pc` = 0x200, `i` = 0, zeroed memory, registers and timers, an empty stack and a blank flat display |
| LegacyModel.LoadRom | src/chip8.rs:32-35 | copies min(len, 3584) bytes to 0x200, silently truncating; nothing else changes, not even `pc` |
| LegacyModel.Fetch | src/chip8.rs:43-48 | with `pc + 2` ≤ 4096, the big-endian word at `pc`, and `pc` advanced by 2 |
| LegacyModel.Place | src/chip8.rs:103-107 | the sprite starts on the screen and is clipped at the right and bottom edges |
| LegacyModel.DrawSprite | src/chip8.rs:102-126 | the machine after the old draw is well-formed |
| LegacyModel.DrawOutsideUnchanged | src/chip8.rs:106-117 | only pixels `(y + row)·64 + (x + col)` inside the clipped rectangle change, and only VF among the registers |
| LegacyModel.DrawFlag | src/chip8.rs:119-122 | VF becomes 1 when a lit pixel is erased and otherwise keeps its old value |
| LegacyModel.StaleCollisionFlag | src/chip8.rs:119-122 | a draw on a blank screen with VF = 1 leaves VF = 1 though nothing was erased |
| LegacyModel.DrawTwiceRestores | src/chip8.rs:113-117 | drawing the same sprite twice restores the flat display |
| LegacyModel.Execute | src/chip8.rs:76-100 | a well-formed machine; `Unknown` is a no-op, and only `Jump` writes `pc` |
| LegacyModel.AddWraps | src/chip8.rs:87-89 | 7xnn makes Vx = (Vx + nn) mod 256 and leaves every other register, VF included, untouched |
| LegacyModel.Cycle | src/chip8.rs:37-41 | a well-formed machine after fetch, decode and execute |
| LegacyModel.UnknownSkips | src/chip8.rs:96-98 | a cycle at an unrecognised word only moves `pc` on by 2 |
| LegacyModel.JumpToSelfIsFixedPoint | src/chip8.rs:81-83 | a cycle at a jump to its own address leaves the machine unchanged |
| Legacy.Chip8.constructor | src/chip8.rs:19-30 | the fresh machine holds `LegacyModel.New()` |
| Legacy.Chip8.LoadRom | src/chip8.rs:32-35 | the in-place copy leaves `LegacyModel.LoadRom` |
| Legacy.Chip8.Cycle | src/chip8.rs:37-41 | `cycle` leaves `LegacyModel.Cycle` |
| Legacy.Chip8.Fetch | src/chip8.rs:43-48 | `fetch` returns the word and leaves the state of `LegacyModel.Fetch` |
| Legacy.Chip8.Execute | src/chip8.rs:76-100 | `execute` leaves `LegacyModel.Execute`, with `display.fill(false)` for 00E0 |
| Legacy.Chip8.DrawPixel | src/chip8.rs:113-118 | flips one covered pixel of the flat display and reports whether it was lit |
| Legacy.Chip8.DrawRow | src/chip8.rs:111-124 | the column loop draws one row and sets VF to 1 on each erasure |
| Legacy.ErasedStep | src/chip8.rs:119-122 | one column step keeps track of whether, and where, a lit pixel was erased |
| Legacy.Chip8.ExecuteDraw | src/chip8.rs:102-126 | the nested loops leave `LegacyModel.DrawSprite` |

## Left out

- The terminal and graphical front ends (src/bin/dbg.rs, src/bin/emu.rs), the argument grammar of src/debugger/commands.rs, and the module wiring of src/lib.rs and src/emu/mod.rs are not modelled; they are user interface and library glue.
- src/font.rs is not part of this model: module `Font` holds the conventional sixteen CHIP-8 glyphs at 0x50, and no property depends on their bytes, only on their number and placement.
- `rand::random` is a parameter: the random byte of one `execute`, or a function from cycle number to byte for the runners.
- `f32` time: the accumulators count whole ticks of 1/2100 s, so the CPU and timer steps are exact and IEEE rounding is not modelled.
- `u12` breakpoint addresses are `u16` values; the range parsing lives in the command grammar.
- The `Mem`, `Disasm`, `SetKey`, `SetDt`, `SetSt`, `Push` and `Pop` commands have no handler in src/debugger/executor.rs and are not invented here.
- `runner_mut`, `chip8_ref` and `chip8_mut` hand out references; the model reads and writes through the owning objects instead.
- `Timing.RunCpu`, `Timing.UpdateWithBreakpoints`, `Timing.Update` and `Timing.LegacyUpdate` are proved for any cycle function that keeps the machine well-formed, and used with `Semantics.CpuCycle`.
- Semantics.GetDisplayPixel, Emu.Chip8.GetDisplayPixel, EmuRunner.Chip8Runner.GetDisplayPixel and LegacyRunner.Chip8Runner.GetDisplayPixel require `y < 32` and `x < 64`: `get_display_pixel` (src/emu/chip8.rs:99-101, src/emu/runner.rs:91-93, src/runner.rs:65-67) panics on an index outside the 64×32 display, and a panic is not modelled.
- LegacyModel.Fetch, LegacyModel.Execute, LegacyModel.Cycle, LegacyModel.DrawSprite and the matching `Legacy.Chip8` methods require `pc + 2 ≤ 4096`, sprite rows inside memory and register operands below 16: src/chip8.rs panics (slice or array index out of range) where these fail, and a panic is not modelled.
- `Opcodes.Decode` groups the patterns of `Opcode::decode` by family; the first-match order of the Rust `match` is kept within each family, so the meaning is the same.

## Findings

| source | as written | input that shows it | evidently intended | confidence | as-written member | corrected member |
|---|---|---|---|---|---|---|
| src/chip8.rs:119-122 | `execute_draw` only ever sets VF to 1, so a flag left over from an earlier collision or an `Add`/`Set` of VF survives a draw that erases nothing | VF = 1, blank display, any Dxyn: VF is still 1 after the draw | VF = 1 exactly when some lit pixel went off and 0 otherwise, as src/execute.rs:191 does | medium, not executed | LegacyModel.StaleCollisionFlag | ExecuteProperties.DrawResult |
