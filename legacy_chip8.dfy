/** The older standalone machine of src/chip8.rs as values: six instructions,
    a flat framebuffer, a ROM load that truncates instead of failing, and
    operations that panic instead of reporting errors. A panic is a
    precondition here. */
module LegacyModel {
  import opened Primitives
  import opened Types
  import opened Nibble
  import Opcodes
  import Semantics

  const START_ADDRESS: nat := 0x200
  const MEMORY_SIZE: nat := 4096
  /** `DISPLAY_X * DISPLAY_Y` pixels, row by row. */
  const DISPLAY_SIZE: nat := 2048
  const VF: nat := 0xF

  /** The six instructions this machine knows, and everything else. */
  datatype Opcode =
    | ClearDisplay               // 00E0
    | Jump(nnn: u16)             // 1nnn
    | Set(x: u8, nn: u8)         // 6xnn
    | Add(x: u8, nn: u8)         // 7xnn
    | SetI(nnn: u16)             // Annn
    | Draw(x: u8, y: u8, n: u8)  // Dxyn
    | Unknown

  /** `decode`: 00E0 exactly, and families 1, 6, 7, A and D whatever their
      operands; nothing else is recognised. */
  function Decode(word: u16): (op: Opcode)
    ensures !op.Unknown? <==> (word == 0x00E0 || Opcodes.Family(word) in {0x1, 0x6, 0x7, 0xA, 0xD})
    ensures (op.Jump? || op.SetI?) ==> op.nnn == word % 0x1000
    ensures (op.Set? || op.Add?) ==> op.x as int == word as int / 0x100 % 0x10 && op.nn as int == word as int % 0x100
    ensures op.Draw? ==>
      && op.x as int == word as int / 0x100 % 0x10
      && op.y as int == word as int / 0x10 % 0x10
      && op.n as int == word as int % 0x10
  {
    var family := Opcodes.Family(word);
    var x := Opcodes.Nibble1(word);
    var y := Opcodes.Nibble2(word);
    var n := Opcodes.Nibble3(word);
    var nn := Opcodes.LowByte(word);
    var nnn := Opcodes.Address(word);
    if family == 0x0 && x == 0x0 && y == 0xE && n == 0x0 then ClearDisplay
    else if family == 0x1 then Jump(nnn)
    else if family == 0x6 then Set(x, nn)
    else if family == 0x7 then Add(x, nn)
    else if family == 0xA then SetI(nnn)
    else if family == 0xD then Draw(x, y, n)
    else Unknown
  }

  /** The instruction of the current decoder with the same meaning. */
  function Modern(op: Opcode): Opcodes.Opcode
    requires !op.Unknown?
    requires (op.Set? || op.Add?) ==> op.x < 16
    requires op.Draw? ==> op.x < 16 && op.y < 16 && op.n < 16
  {
    match op
    case ClearDisplay => Opcodes.Opcode.ClearDisplay
    case Jump(nnn) => Opcodes.Opcode.Jump(nnn)
    case Set(x, nn) => Opcodes.Opcode.SetRegImm(x as u4, nn)
    case Add(x, nn) => Opcodes.Opcode.AddRegImm(x as u4, nn)
    case SetI(nnn) => Opcodes.Opcode.SetIndexImm(nnn)
    case Draw(x, y, n) => Opcodes.Opcode.Draw(x as u4, y as u4, n as u4)
  }

  /** Every word this decoder recognises means the same to the decoder of
      src/opcode.rs. */
  lemma DecodeAgrees(word: u16)
    requires !Decode(word).Unknown?
    ensures Opcodes.Decode(word) == Modern(Decode(word))
  {
  }

  datatype Machine = Machine(
    memory: seq<u8>,
    display: seq<bool>,
    pc: u16,
    i: u16,
    v: seq<u8>,
    stack: seq<u16>,
    delayTimer: u8,
    soundTimer: u8)
  {
    predicate Valid() {
      |memory| == MEMORY_SIZE && |display| == DISPLAY_SIZE && |v| == 16
    }
  }

  /** `new`: `pc` at the ROM start, everything else zero, empty or off. */
  function New(): (m: Machine)
    ensures m.Valid() && m.pc as nat == START_ADDRESS && m.i == 0
    ensures forall a :: 0 <= a < MEMORY_SIZE ==> m.memory[a] == 0
    ensures forall k :: 0 <= k < DISPLAY_SIZE ==> !m.display[k]
    ensures forall k :: 0 <= k < 16 ==> m.v[k] == 0
    ensures m.stack == [] && m.delayTimer == 0 && m.soundTimer == 0
  {
    Machine(seq(MEMORY_SIZE, _ => 0), seq(DISPLAY_SIZE, _ => false), START_ADDRESS as u16, 0,
            seq(16, _ => 0), [], 0, 0)
  }

  /** `load_rom`: as much of the ROM as fits above 0x200 is copied, the rest
      is dropped without an error; nothing else changes, `pc` included. */
  function LoadRom(m: Machine, rom: seq<u8>): (m': Machine)
    requires m.Valid()
    ensures m'.Valid() && m' == m.(memory := m'.memory)
    ensures forall k :: 0 <= k < |rom| && k < MEMORY_SIZE - START_ADDRESS ==> m'.memory[START_ADDRESS + k] == rom[k]
    ensures forall a :: 0 <= a < MEMORY_SIZE && !(START_ADDRESS <= a < START_ADDRESS + |rom|) ==> m'.memory[a] == m.memory[a]
  {
    var copySize := Semantics.Min(|rom|, MEMORY_SIZE - START_ADDRESS);
    m.(memory := m.memory[..START_ADDRESS] + rom[..copySize] + m.memory[START_ADDRESS + copySize..])
  }

  /** `fetch` panics unless both bytes at `pc` are in memory. */
  predicate CanFetch(m: Machine) {
    m.pc as nat + 2 <= MEMORY_SIZE
  }

  /** `fetch`: the big-endian word at `pc`, and `pc` moved past it. */
  function Fetch(m: Machine): (r: (u16, Machine))
    requires m.Valid() && CanFetch(m)
    ensures r.0 as int == m.memory[m.pc] as int * 0x100 + m.memory[m.pc as nat + 1] as int
    ensures r.1 == m.(pc := r.1.pc) && r.1.pc as nat == m.pc as nat + 2
  {
    var word := m.memory[m.pc] as int * 0x100 + m.memory[m.pc as nat + 1] as int;
    (word as u16, m.(pc := (m.pc as nat + 2) as u16))
  }

  /** Where a sprite lands: the start wraps around the screen, the sprite is
      cut at the right and bottom edges. */
  function Place(v: seq<u8>, x: u8, y: u8, n: u8): (p: Semantics.Placement)
    requires |v| == 16 && x < 16 && y < 16
    ensures p.xPos < DISPLAY_X && p.yPos < DISPLAY_Y
    ensures p.yPos + p.rowCount <= DISPLAY_Y && p.xPos + p.colCount <= DISPLAY_X && p.colCount <= 8
  {
    var xPos := v[x] as nat % DISPLAY_X;
    var yPos := v[y] as nat % DISPLAY_Y;
    Semantics.Placement(xPos, yPos, Semantics.Min(n as nat, DISPLAY_Y - yPos), Semantics.Min(8, DISPLAY_X - xPos))
  }

  /** `execute_draw` reads memory at `i + row` (with no wrap-around) for each
      drawn row, and panics if that is outside memory. */
  predicate SpriteReadable(i: u16, rows: nat) {
    rows == 0 || i as nat + rows <= MEMORY_SIZE
  }

  /** Whether the first `rows` sprite rows cover pixel `k` of the flat display. */
  predicate Covered(memory: seq<u8>, i: u16, p: Semantics.Placement, rows: nat, k: nat)
    requires |memory| == MEMORY_SIZE && p.colCount <= 8 && SpriteReadable(i, rows)
  {
    && p.yPos <= k / DISPLAY_X < p.yPos + rows
    && p.xPos <= k % DISPLAY_X < p.xPos + p.colCount
    && Semantics.SpriteBit(memory[i as nat + (k / DISPLAY_X - p.yPos)], k % DISPLAY_X - p.xPos)
  }

  /** Some lit pixel is covered, so drawing turns it off. */
  predicate Erases(m: Machine, p: Semantics.Placement)
    requires m.Valid() && p.colCount <= 8 && SpriteReadable(m.i, p.rowCount)
  {
    exists k :: 0 <= k < DISPLAY_SIZE && m.display[k] && Covered(m.memory, m.i, p, p.rowCount, k)
  }

  /** `execute_draw`: the covered pixels are flipped; VF is set to 1 when a
      lit pixel was turned off and is otherwise left as it was. */
  function DrawSprite(m: Machine, x: u8, y: u8, n: u8): (m': Machine)
    requires m.Valid() && x < 16 && y < 16 && SpriteReadable(m.i, Place(m.v, x, y, n).rowCount)
    ensures m'.Valid()
  {
    var p := Place(m.v, x, y, n);
    var display := seq(DISPLAY_SIZE, k requires 0 <= k < DISPLAY_SIZE =>
                         m.display[k] != Covered(m.memory, m.i, p, p.rowCount, k));
    m.(display := display, v := if Erases(m, p) then m.v[VF := 1] else m.v)
  }

  /** What `execute` needs not to panic: register operands below 16 and, for
      a draw, a sprite inside memory. */
  predicate CanExecute(m: Machine, op: Opcode)
    requires m.Valid()
  {
    match op
    case Set(x, _) => x < 16
    case Add(x, _) => x < 16
    case Draw(x, y, n) => x < 16 && y < 16 && SpriteReadable(m.i, Place(m.v, x, y, n).rowCount)
    case _ => true
  }

  /** `execute`; `Unknown` does nothing. */
  function Execute(m: Machine, op: Opcode): (m': Machine)
    requires m.Valid() && CanExecute(m, op)
    ensures m'.Valid()
    ensures op.Unknown? ==> m' == m
    ensures !op.Jump? ==> m'.pc == m.pc
  {
    match op
    case ClearDisplay => m.(display := seq(DISPLAY_SIZE, _ => false))
    case Jump(nnn) => m.(pc := nnn)
    case Set(x, nn) => m.(v := m.v[x := nn])
    case Add(x, nn) => m.(v := m.v[x := WrappingAdd8(m.v[x], nn)])
    case SetI(nnn) => m.(i := nnn)
    case Draw(x, y, n) => DrawSprite(m, x, y, n)
    case Unknown => m
  }

  /** `cycle` does not panic. */
  predicate CanCycle(m: Machine)
    requires m.Valid()
  {
    CanFetch(m) && CanExecute(Fetch(m).1, Decode(Fetch(m).0))
  }

  /** `cycle`: fetch (moving `pc` on), decode, execute. */
  function Cycle(m: Machine): (m': Machine)
    requires m.Valid() && CanCycle(m)
    ensures m'.Valid()
  {
    var (word, fetched) := Fetch(m);
    Execute(fetched, Decode(word))
  }

  // ---------------------------------------------------------------------
  // Properties

  /** Every word decodes to an instruction whose operands are in range, so
      `execute` can only panic on a draw. */
  lemma DecodedOperandsInRange(word: u16, m: Machine)
    requires m.Valid() && !Decode(word).Draw?
    ensures CanExecute(m, Decode(word))
  {
  }

  /** `Add` wraps modulo 256 and never touches VF (unless VF is the target). */
  lemma AddWraps(m: Machine, x: u8, nn: u8)
    requires m.Valid() && x < 16
    ensures Execute(m, Add(x, nn)).v[x] as int == (m.v[x] as int + nn as int) % 0x100
    ensures forall k :: 0 <= k < 16 && k != x as int ==> Execute(m, Add(x, nn)).v[k] == m.v[k]
  {
  }

  /** A cycle on an unrecognised word only moves `pc` past it. */
  lemma UnknownSkips(m: Machine)
    requires m.Valid() && CanFetch(m) && Decode(Fetch(m).0).Unknown?
    ensures CanCycle(m) && Cycle(m) == m.(pc := m.pc + 2)
  {
  }

  /** A jump to itself is a fixed point of `cycle`. */
  lemma JumpToSelfIsFixedPoint(m: Machine)
    requires m.Valid() && CanFetch(m) && m.pc as nat < 0x1000
    requires m.memory[m.pc] as int == 0x10 + m.pc as int / 0x100
    requires m.memory[m.pc as nat + 1] as int == m.pc as int % 0x100
    ensures CanCycle(m) && Cycle(m) == m
  {
    var word := Fetch(m).0;
    assert word as int == 0x1000 + m.pc as int;
    assert Decode(word) == Jump(m.pc);
  }

  /** A draw changes no pixel outside the clipped sprite rectangle, and only
      the display and VF. */
  lemma DrawOutsideUnchanged(m: Machine, x: u8, y: u8, n: u8)
    requires m.Valid() && x < 16 && y < 16 && SpriteReadable(m.i, Place(m.v, x, y, n).rowCount)
    ensures var p := Place(m.v, x, y, n);
      forall k :: (0 <= k < DISPLAY_SIZE && !(p.yPos <= k / DISPLAY_X < p.yPos + p.rowCount
                                               && p.xPos <= k % DISPLAY_X < p.xPos + p.colCount))
        ==> DrawSprite(m, x, y, n).display[k] == m.display[k]
    ensures forall k :: 0 <= k < 16 && k != VF ==> DrawSprite(m, x, y, n).v[k] == m.v[k]
    ensures DrawSprite(m, x, y, n) == m.(display := DrawSprite(m, x, y, n).display, v := DrawSprite(m, x, y, n).v)
  {
  }

  /** VF after a draw: 1 when a lit pixel was turned off, its old value
      otherwise. */
  lemma DrawFlag(m: Machine, x: u8, y: u8, n: u8)
    requires m.Valid() && x < 16 && y < 16 && SpriteReadable(m.i, Place(m.v, x, y, n).rowCount)
    ensures var p := Place(m.v, x, y, n);
      DrawSprite(m, x, y, n).v[VF] == if Erases(m, p) then 1 else m.v[VF]
    ensures (exists k :: 0 <= k < DISPLAY_SIZE && m.display[k] && !DrawSprite(m, x, y, n).display[k])
        <==> Erases(m, Place(m.v, x, y, n))
  {
    var p := Place(m.v, x, y, n);
    var after := DrawSprite(m, x, y, n).display;
    if exists k :: 0 <= k < DISPLAY_SIZE && m.display[k] && !after[k] {
      var k :| 0 <= k < DISPLAY_SIZE && m.display[k] && !after[k];
      assert Covered(m.memory, m.i, p, p.rowCount, k);
    }
    if Erases(m, p) {
      var k :| 0 <= k < DISPLAY_SIZE && m.display[k] && Covered(m.memory, m.i, p, p.rowCount, k);
      assert !after[k];
    }
  }

  /** With no lit pixel turned off, a VF of 1 left by an earlier instruction
      is reported again as a collision. */
  lemma StaleCollisionFlag(m: Machine, x: u8, y: u8, n: u8)
    requires m.Valid() && x < 16 && y < 16 && SpriteReadable(m.i, Place(m.v, x, y, n).rowCount)
    requires m.v[VF] == 1 && forall k :: 0 <= k < DISPLAY_SIZE ==> !m.display[k]
    ensures DrawSprite(m, x, y, n).v[VF] == 1
    ensures forall k :: 0 <= k < DISPLAY_SIZE ==> m.display[k] ==> DrawSprite(m, x, y, n).display[k]
  {
  }

  /** Drawing the same sprite twice restores the display, when neither
      coordinate register is VF. */
  lemma DrawTwiceRestores(m: Machine, x: u8, y: u8, n: u8)
    requires m.Valid() && x < 15 && y < 15 && SpriteReadable(m.i, Place(m.v, x, y, n).rowCount)
    ensures var once := DrawSprite(m, x, y, n);
      SpriteReadable(once.i, Place(once.v, x, y, n).rowCount) && DrawSprite(once, x, y, n).display == m.display
  {
    var once := DrawSprite(m, x, y, n);
    assert Place(once.v, x, y, n) == Place(m.v, x, y, n);
  }
}

/** The older `Chip8` itself: a class with a flat framebuffer array, proved
    against the functions of module LegacyModel. */
module Legacy {
  import opened Primitives
  import opened Types
  import Semantics
  import opened LegacyModel

  /** The pixels the sprite covers once `row` whole rows and the first `col`
      pixels of the next row have been drawn. */
  ghost predicate CoveredUpTo(memory: seq<u8>, i: u16, p: Semantics.Placement, row: nat, col: nat, k: nat)
    requires |memory| == MEMORY_SIZE && p.colCount <= 8 && SpriteReadable(i, row + 1)
  {
    || Covered(memory, i, p, row, k)
    || (k / DISPLAY_X == p.yPos + row && k % DISPLAY_X < p.xPos + col && Covered(memory, i, p, row + 1, k))
  }

  /** Drawing no pixel of a row covers what the previous rows covered, and
      drawing all of them covers one row more. */
  lemma CoveredUpToBounds(memory: seq<u8>, i: u16, p: Semantics.Placement, row: nat)
    requires |memory| == MEMORY_SIZE && p.colCount <= 8 && SpriteReadable(i, row + 1)
    ensures forall k :: CoveredUpTo(memory, i, p, row, 0, k) == Covered(memory, i, p, row, k)
    ensures forall k :: CoveredUpTo(memory, i, p, row, p.colCount, k) == Covered(memory, i, p, row + 1, k)
  {
  }

  /** Drawing pixel `col` of sprite row `row` covers that one pixel, at flat
      index `(yPos + row) * 64 + xPos + col`, if its sprite bit is set. */
  lemma CoveredUpToStep(memory: seq<u8>, i: u16, p: Semantics.Placement, row: nat, col: nat)
    requires |memory| == MEMORY_SIZE && p.colCount <= 8 && SpriteReadable(i, row + 1)
    requires p.yPos + row < DISPLAY_Y && col < p.colCount && p.xPos + p.colCount <= DISPLAY_X
    ensures var index := (p.yPos + row) * DISPLAY_X + (p.xPos + col);
      && index < DISPLAY_SIZE
      && !CoveredUpTo(memory, i, p, row, col, index)
      && forall k :: 0 <= k < DISPLAY_SIZE ==>
           CoveredUpTo(memory, i, p, row, col + 1, k)
           == (CoveredUpTo(memory, i, p, row, col, k)
               || (k == index && Semantics.SpriteBit(memory[i as nat + row], col)))
  {
    var index := (p.yPos + row) * DISPLAY_X + (p.xPos + col);
    assert index / DISPLAY_X == p.yPos + row && index % DISPLAY_X == p.xPos + col;
    forall k | 0 <= k < DISPLAY_SIZE && k / DISPLAY_X == p.yPos + row && k % DISPLAY_X == p.xPos + col
      ensures k == index
    {
      assert k == k / DISPLAY_X * DISPLAY_X + k % DISPLAY_X;
    }
  }
  /** Whether a covered pixel was lit before, with a witness when one was. */
  ghost predicate ErasedSoFar(erased: bool, erasedAt: nat, before: seq<bool>, memory: seq<u8>, i: u16,
                              p: Semantics.Placement, row: nat, col: nat)
    requires |before| == DISPLAY_SIZE && |memory| == MEMORY_SIZE && p.colCount <= 8 && SpriteReadable(i, row + 1)
  {
    && (erased ==> erasedAt < DISPLAY_SIZE && before[erasedAt] && CoveredUpTo(memory, i, p, row, col, erasedAt))
    && (!erased ==>
          forall k :: 0 <= k < DISPLAY_SIZE && CoveredUpTo(memory, i, p, row, col, k) ==> !before[k])
  }

  /** Pixel `col` of the row adds an erased pixel exactly when its sprite bit
      is set and it was lit before. */
  lemma ErasedStep(erased: bool, erasedAt: nat, before: seq<bool>, memory: seq<u8>, i: u16,
                   p: Semantics.Placement, row: nat, col: nat)
    requires |before| == DISPLAY_SIZE && |memory| == MEMORY_SIZE && p.colCount <= 8 && SpriteReadable(i, row + 1)
    requires p.yPos + row < DISPLAY_Y && col < p.colCount && p.xPos + p.colCount <= DISPLAY_X
    requires ErasedSoFar(erased, erasedAt, before, memory, i, p, row, col)
    ensures var index := (p.yPos + row) * DISPLAY_X + (p.xPos + col);
      if Semantics.SpriteBit(memory[i as nat + row], col) && before[index]
      then ErasedSoFar(true, index, before, memory, i, p, row, col + 1)
      else ErasedSoFar(erased, erasedAt, before, memory, i, p, row, col + 1)
  {
    CoveredUpToStep(memory, i, p, row, col);
  }


  class Chip8 {
    const memory: array<u8>
    const display: array<bool>
    var pc: u16
    var i: u16
    const v: array<u8>
    var stack: seq<u16>
    var delayTimer: u8
    var soundTimer: u8

    /** The objects this machine consists of. */
    ghost const Repr: set<object> := {this, memory, display, v}

    ghost predicate Valid()
      reads this, Repr
    {
      memory.Length == MEMORY_SIZE && display.Length == DISPLAY_SIZE && v.Length == 16 && memory != v
    }

    /** The machine state this object holds. */
    ghost function State(): (m: Machine)
      requires Valid()
      reads this, Repr
      ensures m.Valid()
    {
      Machine(memory[..], display[..], pc, i, v[..], stack, delayTimer, soundTimer)
    }

    /** `Chip8::new`. */
    constructor ()
      ensures Valid() && fresh(Repr)
      ensures State() == LegacyModel.New()
    {
      memory := new u8[MEMORY_SIZE](_ => 0);
      display := new bool[DISPLAY_SIZE](_ => false);
      pc := START_ADDRESS as u16;
      i := 0;
      v := new u8[16](_ => 0);
      stack := [];
      delayTimer := 0;
      soundTimer := 0;
      new;
      assert memory[..] == seq(MEMORY_SIZE, _ => 0);
      assert display[..] == seq(DISPLAY_SIZE, _ => false);
      assert v[..] == seq(16, _ => 0);
    }

    /** `load_rom`. */
    method LoadRom(rom: seq<u8>)
      requires Valid()
      modifies memory
      ensures Valid() && State() == LegacyModel.LoadRom(old(State()), rom)
    {
      var copySize := Semantics.Min(|rom|, MEMORY_SIZE - START_ADDRESS);
      forall a | START_ADDRESS <= a < START_ADDRESS + copySize {
        memory[a] := rom[a - START_ADDRESS];
      }
      assert memory[..] == old(memory[..])[..START_ADDRESS] + rom[..copySize] + old(memory[..])[START_ADDRESS + copySize..];
    }

    /** `cycle`. */
    method Cycle()
      requires Valid() && CanCycle(State())
      modifies Repr
      ensures Valid() && State() == LegacyModel.Cycle(old(State()))
    {
      var opcode := Fetch();
      var decoded := Decode(opcode);
      Execute(decoded);
    }

    /** `fetch`. */
    method Fetch() returns (word: u16)
      requires Valid() && CanFetch(State())
      modifies this
      ensures Valid() && (word, State()) == LegacyModel.Fetch(old(State()))
    {
      word := (memory[pc] as int * 0x100 + memory[pc as nat + 1] as int) as u16;
      pc := pc + 2;
    }

    /** `execute`. */
    method Execute(op: Opcode)
      requires Valid() && CanExecute(State(), op)
      modifies this, display, v
      ensures Valid() && State() == LegacyModel.Execute(old(State()), op)
    {
      match op {
        case ClearDisplay =>
          forall k | 0 <= k < DISPLAY_SIZE {
            display[k] := false;
          }
          assert display[..] == seq(DISPLAY_SIZE, _ => false);
        case Jump(nnn) =>
          pc := nnn;
        case Set(x, nn) =>
          v[x] := nn;
        case Add(x, nn) =>
          v[x] := WrappingAdd8(v[x], nn);
        case SetI(nnn) =>
          i := nnn;
        case Draw(x, y, n) =>
          ExecuteDraw(x, y, n);
        case Unknown =>
      }
    }

    /** The display so far: the pixels covered up to (`row`, `col`) flipped. */
    ghost predicate Painted(before: seq<bool>, memory: seq<u8>, i: u16, p: Semantics.Placement, row: nat, col: nat)
      requires display.Length == DISPLAY_SIZE && |before| == DISPLAY_SIZE
      requires |memory| == MEMORY_SIZE && p.colCount <= 8 && SpriteReadable(i, row + 1)
      reads display
    {
      forall k :: 0 <= k < DISPLAY_SIZE ==> display[k] == (before[k] != CoveredUpTo(memory, i, p, row, col, k))
    }

    /** VF so far: 1 once a covered pixel was lit before, otherwise every
        register as before. */
    ghost predicate FlagSoFar(erased: bool, erasedAt: nat, before: seq<bool>, beforeV: seq<u8>,
                              p: Semantics.Placement, row: nat, col: nat)
      requires Valid() && |before| == DISPLAY_SIZE && |beforeV| == 16
      requires p.colCount <= 8 && SpriteReadable(i, row + 1)
      reads this, Repr
    {
      && v[..] == (if erased then beforeV[VF := 1] else beforeV)
      && ErasedSoFar(erased, erasedAt, before, memory[..], i, p, row, col)
    }

    /** One pixel of the inner loop of `execute_draw`: a set sprite bit
        flips the pixel; `erasedHere` tells whether a lit pixel went dark. */
    method DrawPixel(ghost before: seq<bool>, p: Semantics.Placement, row: nat, col: nat, spriteByte: u8)
      returns (erasedHere: bool)
      requires Valid() && |before| == DISPLAY_SIZE
      requires p.yPos + row < DISPLAY_Y && p.xPos + p.colCount <= DISPLAY_X && col < p.colCount <= 8
      requires SpriteReadable(i, row + 1) && spriteByte == memory[i as nat + row]
      requires Painted(before, memory[..], i, p, row, col)
      modifies display
      ensures Valid()
      ensures Painted(before, memory[..], i, p, row, col + 1)
      ensures var index := (p.yPos + row) * DISPLAY_X + (p.xPos + col);
        erasedHere <==> Semantics.SpriteBit(spriteByte, col) && before[index]
    {
      CoveredUpToStep(memory[..], i, p, row, col);
      erasedHere := false;
      if Semantics.SpriteBit(spriteByte, col) {
        var index := (p.yPos + row) * DISPLAY_X + (p.xPos + col);
        display[index] := !display[index];
        erasedHere := !display[index];
      }
    }

    /** The inner loop of `execute_draw`: XOR one sprite row onto the display. */
    method DrawRow(ghost before: seq<bool>, ghost beforeV: seq<u8>, p: Semantics.Placement, row: nat,
                   ghost erased: bool, ghost erasedAt: nat)
      returns (ghost erased': bool, ghost erasedAt': nat)
      requires Valid() && |before| == DISPLAY_SIZE && |beforeV| == 16
      requires p.yPos + p.rowCount <= DISPLAY_Y && p.xPos + p.colCount <= DISPLAY_X && p.colCount <= 8
      requires row < p.rowCount && SpriteReadable(i, row + 1)
      requires Painted(before, memory[..], i, p, row, 0)
      requires FlagSoFar(erased, erasedAt, before, beforeV, p, row, 0)
      modifies display, v
      ensures Valid()
      ensures Painted(before, memory[..], i, p, row, p.colCount)
      ensures FlagSoFar(erased', erasedAt', before, beforeV, p, row, p.colCount)
    {
      erased', erasedAt' := erased, erasedAt;
      var spriteByte := memory[i as nat + row];
      for col := 0 to p.colCount
        invariant Painted(before, memory[..], i, p, row, col)
        invariant FlagSoFar(erased', erasedAt', before, beforeV, p, row, col)
      {
        ErasedStep(erased', erasedAt', before, memory[..], i, p, row, col);
        var erasedHere := DrawPixel(before, p, row, col, spriteByte);
        if erasedHere {
          v[VF] := 1;
          erased', erasedAt' := true, (p.yPos + row) * DISPLAY_X + (p.xPos + col);
        }
      }
    }

    /** `execute_draw`: row by row. */
    method ExecuteDraw(x: u8, y: u8, n: u8)
      requires Valid() && x < 16 && y < 16 && SpriteReadable(i, Place(v[..], x, y, n).rowCount)
      modifies display, v
      ensures Valid() && State() == DrawSprite(old(State()), x, y, n)
    {
      ghost var m := State();
      var xPos := v[x] as nat % DISPLAY_X;
      var yPos := v[y] as nat % DISPLAY_Y;
      var rowCount := Semantics.Min(n as nat, DISPLAY_Y - yPos);
      var colCount := Semantics.Min(8, DISPLAY_X - xPos);
      var p := Semantics.Placement(xPos, yPos, rowCount, colCount);
      assert p == Place(m.v, x, y, n);
      ghost var erased, erasedAt: nat := false, 0;
      for row := 0 to rowCount
        invariant memory[..] == m.memory
        invariant forall k :: 0 <= k < DISPLAY_SIZE ==>
          display[k] == (m.display[k] != Covered(m.memory, i, p, row, k))
        invariant v[..] == (if erased then m.v[VF := 1] else m.v)
        invariant erased ==> erasedAt < DISPLAY_SIZE && m.display[erasedAt] && Covered(m.memory, i, p, row, erasedAt)
        invariant !erased ==> forall k :: 0 <= k < DISPLAY_SIZE && Covered(m.memory, i, p, row, k) ==> !m.display[k]
      {
        CoveredUpToBounds(m.memory, i, p, row);
        erased, erasedAt := DrawRow(m.display, m.v, p, row, erased, erasedAt);
      }
      assert erased <==> Erases(m, p);
      assert display[..] == DrawSprite(m, x, y, n).display;
    }
  }
}
