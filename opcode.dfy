/** The instruction decoder of src/opcode.rs (repeated with documentation in
    src/chip8/opcode.rs): a total map from a 16-bit word to one instruction,
    together with an encoder that serves as its inverse. */
module Opcodes {
  import opened Primitives
  import opened Nibble
  import opened Wrappers

  /** The nine operations of the 8xyN family. */
  datatype OpcodeALU =
    | Set        // 8xy0 - Vx = Vy
    | Or         // 8xy1 - Vx = Vx OR Vy
    | And        // 8xy2 - Vx = Vx AND Vy
    | Xor        // 8xy3 - Vx = Vx XOR Vy
    | Add        // 8xy4 - Vx = Vx + Vy
    | Sub        // 8xy5 - Vx = Vx - Vy
    | ShiftRight // 8xy6 - Vx = Vy SHR 1
    | SubReverse // 8xy7 - Vx = Vy - Vx
    | ShiftLeft  // 8xyE - Vx = Vy SHL 1

  datatype Opcode =
    | Jump(nnn: u16)                    // 1nnn
    | JumpWithOffset(nnn: u16)          // Bnnn
    | Call(nnn: u16)                    // 2nnn
    | Return                            // 00EE
    | SkipRegEqualImm(x: u4, nn: u8)    // 3xnn
    | SkipRegNotEqualImm(x: u4, nn: u8) // 4xnn
    | SkipRegEqualReg(x: u4, y: u4)     // 5xy0
    | SkipRegNotEqualReg(x: u4, y: u4)  // 9xy0
    | SetRegImm(x: u4, nn: u8)          // 6xnn
    | AddRegImm(x: u4, nn: u8)          // 7xnn
    | SetIndexImm(nnn: u16)             // Annn
    | AddIndexReg(x: u4)                // Fx1E
    | ALU(x: u4, y: u4, op: OpcodeALU)  // 8xyN
    | Random(x: u4, nn: u8)             // Cxnn
    | ClearDisplay                      // 00E0
    | Draw(x: u4, y: u4, n: u4)         // Dxyn
    | SkipIfPressed(x: u4)              // Ex9E
    | SkipIfNotPressed(x: u4)           // ExA1
    | WaitForKey(x: u4)                 // Fx0A
    | ReadDelayTimer(x: u4)             // Fx07
    | SetDelayTimer(x: u4)              // Fx15
    | SetSoundTimer(x: u4)              // Fx18
    | FontChar(x: u4)                   // Fx29
    | BCD(x: u4)                        // Fx33
    | StoreRegs(x: u4)                  // Fx55
    | LoadRegs(x: u4)                   // Fx65
    | Unknown(opcode: u16)
    | UnknownALU(opcode: u16)           // 8xyN with N not an ALU operation

  // ---------------------------------------------------------------------
  // Bit slices of an instruction word. `(w & 0x0F00) >> 8` and friends are
  // written as division and remainder by powers of two.

  /** Bits 12-15: the instruction family. */
  function Family(w: u16): u8 { (w / 0x1000) as u8 }
  /** Bits 8-11. */
  function Nibble1(w: u16): u8 { ((w / 0x100) % 0x10) as u8 }
  /** Bits 4-7. */
  function Nibble2(w: u16): u8 { ((w / 0x10) % 0x10) as u8 }
  /** Bits 0-3. */
  function Nibble3(w: u16): u8 { (w % 0x10) as u8 }
  /** `opcode & 0x00FF`, the low byte. */
  function LowByte(w: u16): u8 { (w % 0x100) as u8 }
  /** `opcode & 0x0FFF`, the low twelve bits. */
  function Address(w: u16): u16 { w % 0x1000 }

  /** The slices are nibbles, bytes and 12-bit values, and put back together
      they give the whole word. */
  lemma OperandSlices(w: u16)
    ensures Family(w) <= 0x0F && Nibble1(w) <= 0x0F && Nibble2(w) <= 0x0F && Nibble3(w) <= 0x0F
    ensures Address(w) <= 0x0FFF
    ensures w as int == 0x1000 * Family(w) as int + Address(w) as int
    ensures Address(w) as int == 0x100 * Nibble1(w) as int + LowByte(w) as int
    ensures LowByte(w) as int == 0x10 * Nibble2(w) as int + Nibble3(w) as int
    ensures New(Nibble1(w)) == Nibble1(w) && New(Nibble2(w)) == Nibble2(w)
  {
    var a := w as nat;
    var family, address := a / 0x1000, a % 0x1000;
    var n1, low := address / 0x100, address % 0x100;
    var n2, n3 := low / 0x10, low % 0x10;
    DivModQuotient(a, 0x100, 0x10 * family + n1, low);
    DivModUnique(a, 0x100, 0x10 * family + n1, low);
    DivModUnique(0x10 * family + n1, 0x10, family, n1);
    DivModQuotient(a, 0x10, 0x100 * family + 0x10 * n1 + n2, n3);
    DivModUnique(a, 0x10, 0x100 * family + 0x10 * n1 + n2, n3);
    DivModUnique(0x100 * family + 0x10 * n1 + n2, 0x10, 0x10 * family + n1, n2);
  }

  /** The ALU operation selected by the low nibble of an 8xyN word. */
  function AluOp(n: u8): Option<OpcodeALU>
  {
    match n
    case 0x0 => Some(Set)
    case 0x1 => Some(Or)
    case 0x2 => Some(And)
    case 0x3 => Some(Xor)
    case 0x4 => Some(Add)
    case 0x5 => Some(Sub)
    case 0x6 => Some(ShiftRight)
    case 0x7 => Some(SubReverse)
    case 0xE => Some(ShiftLeft)
    case _ => None
  }

  /** The low nibble that selects an ALU operation. */
  function AluCode(op: OpcodeALU): (n: u4)
  {
    match op
    case Set => 0x0
    case Or => 0x1
    case And => 0x2
    case Xor => 0x3
    case Add => 0x4
    case Sub => 0x5
    case ShiftRight => 0x6
    case SubReverse => 0x7
    case ShiftLeft => 0xE
  }

  /** The selector nibble names each operation exactly once, and only the
      nibbles 0-7 and E name one. */
  lemma AluCodeRoundTrip(op: OpcodeALU, n: u8)
    ensures AluOp(AluCode(op)) == Some(op)
    ensures AluOp(n).Some? <==> n <= 0x7 || n == 0xE
    ensures AluOp(n).Some? ==> AluCode(AluOp(n).value) == n
  {
  }

  /** `Opcode::decode`: the first matching pattern of the nibble tuple wins. */
  function Decode(opcode: u16): Opcode
  {
    var x := New(Nibble1(opcode));
    var y := New(Nibble2(opcode));
    var n := New(Nibble3(opcode));
    var nn := LowByte(opcode);
    var nnn := Address(opcode);
    var n2, n3 := Nibble2(opcode), Nibble3(opcode);
    match Family(opcode)
    case 0x0 =>
      if Nibble1(opcode) == 0x0 && n2 == 0xE && n3 == 0x0 then ClearDisplay
      else if Nibble1(opcode) == 0x0 && n2 == 0xE && n3 == 0xE then Return
      else Unknown(opcode)
    case 0x1 => Jump(nnn)
    case 0x2 => Call(nnn)
    case 0x3 => SkipRegEqualImm(x, nn)
    case 0x4 => SkipRegNotEqualImm(x, nn)
    case 0x5 => if n3 == 0x0 then SkipRegEqualReg(x, y) else Unknown(opcode)
    case 0x6 => SetRegImm(x, nn)
    case 0x7 => AddRegImm(x, nn)
    case 0x8 =>
      (match AluOp(n3)
       case Some(op) => ALU(x, y, op)
       case None => UnknownALU(opcode))
    case 0x9 => if n3 == 0x0 then SkipRegNotEqualReg(x, y) else Unknown(opcode)
    case 0xA => SetIndexImm(nnn)
    case 0xB => JumpWithOffset(nnn)
    case 0xC => Random(x, nn)
    case 0xD => Draw(x, y, n)
    case 0xE =>
      if n2 == 0x9 && n3 == 0xE then SkipIfPressed(x)
      else if n2 == 0xA && n3 == 0x1 then SkipIfNotPressed(x)
      else Unknown(opcode)
    case 0xF =>
      if n2 == 0x0 && n3 == 0xA then WaitForKey(x)
      else if n2 == 0x0 && n3 == 0x7 then ReadDelayTimer(x)
      else if n2 == 0x1 && n3 == 0x5 then SetDelayTimer(x)
      else if n2 == 0x1 && n3 == 0x8 then SetSoundTimer(x)
      else if n2 == 0x1 && n3 == 0xE then AddIndexReg(x)
      else if n2 == 0x2 && n3 == 0x9 then FontChar(x)
      else if n2 == 0x3 && n3 == 0x3 then BCD(x)
      else if n2 == 0x5 && n3 == 0x5 then StoreRegs(x)
      else if n2 == 0x6 && n3 == 0x5 then LoadRegs(x)
      else Unknown(opcode)
    case _ => Unknown(opcode)
  }

  // ---------------------------------------------------------------------
  // Encoding, the inverse of decoding

  /** A word from its family and its low twelve bits. */
  function WordNNN(family: u8, nnn: u16): (w: u16)
    requires family <= 0x0F
  {
    (family as int * 0x1000 + nnn as int % 0x1000) as u16
  }

  /** A word from its four nibbles. */
  function WordXYN(family: u8, x: u4, y: u4, n: u4): (w: u16)
    requires family <= 0x0F
  {
    (family as int * 0x1000 + x as int * 0x100 + y as int * 0x10 + n as int) as u16
  }

  /** A word from its family, the x nibble and the low byte. */
  function WordXNN(family: u8, x: u4, nn: u8): (w: u16)
    requires family <= 0x0F
  {
    (family as int * 0x1000 + x as int * 0x100 + nn as int) as u16
  }

  /** The documented instruction word of each instruction. */
  function Encode(op: Opcode): u16
  {
    match op
    case ClearDisplay => 0x00E0
    case Return => 0x00EE
    case Jump(nnn) => WordNNN(0x1, nnn)
    case Call(nnn) => WordNNN(0x2, nnn)
    case SkipRegEqualImm(x, nn) => WordXNN(0x3, x, nn)
    case SkipRegNotEqualImm(x, nn) => WordXNN(0x4, x, nn)
    case SkipRegEqualReg(x, y) => WordXYN(0x5, x, y, 0x0)
    case SetRegImm(x, nn) => WordXNN(0x6, x, nn)
    case AddRegImm(x, nn) => WordXNN(0x7, x, nn)
    case ALU(x, y, aluOp) => WordXYN(0x8, x, y, AluCode(aluOp))
    case SkipRegNotEqualReg(x, y) => WordXYN(0x9, x, y, 0x0)
    case SetIndexImm(nnn) => WordNNN(0xA, nnn)
    case JumpWithOffset(nnn) => WordNNN(0xB, nnn)
    case Random(x, nn) => WordXNN(0xC, x, nn)
    case Draw(x, y, n) => WordXYN(0xD, x, y, n)
    case SkipIfPressed(x) => WordXYN(0xE, x, 0x9, 0xE)
    case SkipIfNotPressed(x) => WordXYN(0xE, x, 0xA, 0x1)
    case WaitForKey(x) => WordXYN(0xF, x, 0x0, 0xA)
    case ReadDelayTimer(x) => WordXYN(0xF, x, 0x0, 0x7)
    case SetDelayTimer(x) => WordXYN(0xF, x, 0x1, 0x5)
    case SetSoundTimer(x) => WordXYN(0xF, x, 0x1, 0x8)
    case AddIndexReg(x) => WordXYN(0xF, x, 0x1, 0xE)
    case FontChar(x) => WordXYN(0xF, x, 0x2, 0x9)
    case BCD(x) => WordXYN(0xF, x, 0x3, 0x3)
    case StoreRegs(x) => WordXYN(0xF, x, 0x5, 0x5)
    case LoadRegs(x) => WordXYN(0xF, x, 0x6, 0x5)
    case Unknown(w) => w
    case UnknownALU(w) => w
  }

  /** The instructions `decode` can produce from their documented words:
      address operands fit in twelve bits, and the two catch-all variants are
      excluded (they hold whatever word they were decoded from). */
  predicate WellFormed(op: Opcode)
  {
    match op
    case Jump(nnn) => nnn <= 0x0FFF
    case Call(nnn) => nnn <= 0x0FFF
    case SetIndexImm(nnn) => nnn <= 0x0FFF
    case JumpWithOffset(nnn) => nnn <= 0x0FFF
    case Unknown(_) => false
    case UnknownALU(_) => false
    case _ => true
  }

  /** The four nibbles of a word assembled from four nibbles. */
  lemma Digits(a: int, b: int, c: int, d: int)
    requires 0 <= a < 0x10 && 0 <= b < 0x10 && 0 <= c < 0x10 && 0 <= d < 0x10
    ensures var w := a * 0x1000 + b * 0x100 + c * 0x10 + d;
      w / 0x1000 == a && (w / 0x100) % 0x10 == b && (w / 0x10) % 0x10 == c && w % 0x10 == d
  {
    var w := a * 0x1000 + b * 0x100 + c * 0x10 + d;
    assert w / 0x1000 == a;
    assert w / 0x100 == a * 0x10 + b;
    assert w / 0x10 == a * 0x100 + b * 0x10 + c;
  }

  /** Re-encoding a decoded word gives the word back, for all 65536 words. */
  lemma EncodeDecode(w: u16)
    ensures Encode(Decode(w)) == w
  {
    OperandSlices(w);
    var f := Family(w);
    if f == 0x0 {
      assert Encode(Decode(w)) == w;
    } else if f in {0x1, 0x2, 0xA, 0xB} {
      EncodeDecodeNNN(w);
    } else if f in {0x3, 0x4, 0x6, 0x7, 0xC} {
      EncodeDecodeXNN(w);
    } else if f in {0x5, 0x9, 0xD} {
      EncodeDecodeXYN(w);
    } else if f == 0x8 {
      EncodeDecodeAlu(w);
    } else {
      EncodeDecodeKeyed(w);
    }
  }

  lemma EncodeDecodeNNN(w: u16)
    requires Family(w) in {0x1, 0x2, 0xA, 0xB}
    ensures Encode(Decode(w)) == w
  {
    WordOfSlices(w);
    var f, nnn := Family(w), Address(w);
    if f == 0x1 {
      assert Decode(w) == Jump(nnn);
    } else if f == 0x2 {
      assert Decode(w) == Call(nnn);
    } else if f == 0xA {
      assert Decode(w) == SetIndexImm(nnn);
    } else {
      assert Decode(w) == JumpWithOffset(nnn);
    }
  }

  lemma EncodeDecodeXNN(w: u16)
    requires Family(w) in {0x3, 0x4, 0x6, 0x7, 0xC}
    ensures Encode(Decode(w)) == w
  {
    WordOfSlices(w);
    var f, x, nn := Family(w), New(Nibble1(w)), LowByte(w);
    if f == 0x3 {
      assert Decode(w) == SkipRegEqualImm(x, nn);
    } else if f == 0x4 {
      assert Decode(w) == SkipRegNotEqualImm(x, nn);
    } else if f == 0x6 {
      assert Decode(w) == SetRegImm(x, nn);
    } else if f == 0x7 {
      assert Decode(w) == AddRegImm(x, nn);
    } else {
      assert Decode(w) == Random(x, nn);
    }
  }

  lemma EncodeDecodeXYN(w: u16)
    requires Family(w) in {0x5, 0x9, 0xD}
    ensures Encode(Decode(w)) == w
  {
    WordOfSlices(w);
    var f, x, y, n := Family(w), New(Nibble1(w)), New(Nibble2(w)), New(Nibble3(w));
    if f == 0xD {
      assert Decode(w) == Draw(x, y, n);
    } else if n != 0x0 {
      assert Decode(w) == Unknown(w);
    } else if f == 0x5 {
      assert Decode(w) == SkipRegEqualReg(x, y);
    } else {
      assert Decode(w) == SkipRegNotEqualReg(x, y);
    }
  }

  lemma EncodeDecodeAlu(w: u16)
    requires Family(w) == 0x8
    ensures Encode(Decode(w)) == w
  {
    WordOfSlices(w);
    var x, y, selector := New(Nibble1(w)), New(Nibble2(w)), AluOp(Nibble3(w));
    if selector.Some? {
      assert Decode(w) == ALU(x, y, selector.value);
      AluCodeRoundTrip(selector.value, Nibble3(w));
    } else {
      assert Decode(w) == UnknownALU(w);
    }
  }

  lemma EncodeDecodeKeyed(w: u16)
    requires Family(w) in {0xE, 0xF}
    ensures Encode(Decode(w)) == w
  {
    if Family(w) == 0xE {
      EncodeDecodeKeys(w);
    } else {
      EncodeDecodeMisc(w);
    }
  }

  lemma EncodeDecodeKeys(w: u16)
    requires Family(w) == 0xE
    ensures Encode(Decode(w)) == w
  {
    WordOfSlices(w);
    var x, y, n := New(Nibble1(w)), Nibble2(w), Nibble3(w);
    if y == 0x9 && n == 0xE {
      assert Decode(w) == SkipIfPressed(x);
    } else if y == 0xA && n == 0x1 {
      assert Decode(w) == SkipIfNotPressed(x);
    } else {
      assert Decode(w) == Unknown(w);
    }
  }

  lemma EncodeDecodeMisc(w: u16)
    requires Family(w) == 0xF
    ensures Encode(Decode(w)) == w
  {
    if Nibble2(w) <= 0x1 {
      EncodeDecodeTimers(w);
    } else {
      EncodeDecodeMemory(w);
    }
  }

  lemma EncodeDecodeTimers(w: u16)
    requires Family(w) == 0xF && Nibble2(w) <= 0x1
    ensures Encode(Decode(w)) == w
  {
    WordOfSlices(w);
    var x, y, n := New(Nibble1(w)), Nibble2(w), Nibble3(w);
    if y == 0x0 {
      if n == 0xA {
        assert Decode(w) == WaitForKey(x);
      } else if n == 0x7 {
        assert Decode(w) == ReadDelayTimer(x);
      } else {
        assert Decode(w) == Unknown(w);
      }
    } else {
      EncodeDecodeTimerWrites(w);
    }
  }

  lemma EncodeDecodeTimerWrites(w: u16)
    requires Family(w) == 0xF && Nibble2(w) == 0x1
    ensures Encode(Decode(w)) == w
  {
    WordOfSlices(w);
    var x, n := New(Nibble1(w)), Nibble3(w);
    if n == 0x5 {
      assert Decode(w) == SetDelayTimer(x);
    } else if n == 0x8 {
      assert Decode(w) == SetSoundTimer(x);
    } else if n == 0xE {
      assert Decode(w) == AddIndexReg(x);
    } else {
      assert Decode(w) == Unknown(w);
    }
  }

  lemma EncodeDecodeMemory(w: u16)
    requires Family(w) == 0xF && Nibble2(w) > 0x1
    ensures Encode(Decode(w)) == w
  {
    WordOfSlices(w);
    var x, y, n := New(Nibble1(w)), Nibble2(w), Nibble3(w);
    if y == 0x2 && n == 0x9 {
      assert Decode(w) == FontChar(x);
    } else if y == 0x3 && n == 0x3 {
      assert Decode(w) == BCD(x);
    } else if y == 0x5 && n == 0x5 {
      assert Decode(w) == StoreRegs(x);
    } else if y == 0x6 && n == 0x5 {
      assert Decode(w) == LoadRegs(x);
    } else {
      assert Decode(w) == Unknown(w);
    }
  }

  /** A word is the word assembled from its own slices, in each of the
      three layouts. */
  lemma WordOfSlices(w: u16)
    ensures Family(w) <= 0x0F && New(Nibble1(w)) == Nibble1(w) && New(Nibble2(w)) == Nibble2(w)
    ensures New(Nibble3(w)) == Nibble3(w)
    ensures WordNNN(Family(w), Address(w)) == w
    ensures WordXNN(Family(w), New(Nibble1(w)), LowByte(w)) == w
    ensures WordXYN(Family(w), New(Nibble1(w)), New(Nibble2(w)), New(Nibble3(w))) == w
  {
    OperandSlices(w);
  }

  /** So distinct words decode to distinct instructions. */
  lemma DecodeInjective(w1: u16, w2: u16)
    requires Decode(w1) == Decode(w2)
    ensures w1 == w2
  {
    EncodeDecode(w1);
    EncodeDecode(w2);
  }

  /** Every instruction word the decoder produces carries its operands within
      range, and the catch-all variants carry the raw word they came from. */
  lemma DecodeWellFormed(w: u16)
    ensures WellFormed(Decode(w)) || Decode(w) == Unknown(w) || Decode(w) == UnknownALU(w)
  {
    OperandSlices(w);
  }

  /** Decoding the documented word of a well-formed instruction gives that
      instruction back. */
  lemma DecodeEncode(op: Opcode)
    requires WellFormed(op)
    ensures Decode(Encode(op)) == op
  {
    match op
    case Jump(_) => DecodeEncodeNNN(op);
    case Call(_) => DecodeEncodeNNN(op);
    case SetIndexImm(_) => DecodeEncodeNNN(op);
    case JumpWithOffset(_) => DecodeEncodeNNN(op);
    case ClearDisplay =>
    case Return =>
    case SkipRegEqualImm(_, _) => DecodeEncodeXNN(op);
    case SkipRegNotEqualImm(_, _) => DecodeEncodeXNN(op);
    case SetRegImm(_, _) => DecodeEncodeXNN(op);
    case AddRegImm(_, _) => DecodeEncodeXNN(op);
    case Random(_, _) => DecodeEncodeXNN(op);
    case SkipRegEqualReg(_, _) => DecodeEncodeXYN(op);
    case SkipRegNotEqualReg(_, _) => DecodeEncodeXYN(op);
    case Draw(_, _, _) => DecodeEncodeXYN(op);
    case ALU(_, _, _) => DecodeEncodeXYN(op);
    case SkipIfPressed(_) => DecodeEncodeKeyed(op);
    case SkipIfNotPressed(_) => DecodeEncodeKeyed(op);
    case WaitForKey(_) => DecodeEncodeKeyed(op);
    case ReadDelayTimer(_) => DecodeEncodeKeyed(op);
    case SetDelayTimer(_) => DecodeEncodeKeyed(op);
    case SetSoundTimer(_) => DecodeEncodeKeyed(op);
    case AddIndexReg(_) => DecodeEncodeKeyed(op);
    case FontChar(_) => DecodeEncodeKeyed(op);
    case BCD(_) => DecodeEncodeKeyed(op);
    case StoreRegs(_) => DecodeEncodeKeyed(op);
    case LoadRegs(_) => DecodeEncodeKeyed(op);
  }

  lemma DecodeEncodeNNN(op: Opcode)
    requires op.Jump? || op.Call? || op.SetIndexImm? || op.JumpWithOffset?
    requires WellFormed(op)
    ensures Decode(Encode(op)) == op
  {
    var f: u8 := if op.Jump? then 0x1 else if op.Call? then 0x2 else if op.SetIndexImm? then 0xA else 0xB;
    DecodeWordNNN(f, op.nnn);
  }

  lemma DecodeEncodeXNN(op: Opcode)
    requires op.SkipRegEqualImm? || op.SkipRegNotEqualImm? || op.SetRegImm? || op.AddRegImm? || op.Random?
    ensures Decode(Encode(op)) == op
  {
    var f: u8 := if op.SkipRegEqualImm? then 0x3 else if op.SkipRegNotEqualImm? then 0x4
      else if op.SetRegImm? then 0x6 else if op.AddRegImm? then 0x7 else 0xC;
    DecodeWordXNN(f, op.x, op.nn);
  }

  lemma DecodeEncodeXYN(op: Opcode)
    requires op.SkipRegEqualReg? || op.SkipRegNotEqualReg? || op.Draw? || op.ALU?
    ensures Decode(Encode(op)) == op
  {
    match op
    case SkipRegEqualReg(x, y) =>
      assert Encode(op) == WordXYN(0x5, x, y, 0x0);
      DecodeWordXYN(0x5, x, y, 0x0);
    case SkipRegNotEqualReg(x, y) =>
      assert Encode(op) == WordXYN(0x9, x, y, 0x0);
      DecodeWordXYN(0x9, x, y, 0x0);
    case Draw(x, y, n) =>
      assert Encode(op) == WordXYN(0xD, x, y, n);
      DecodeWordXYN(0xD, x, y, n);
    case ALU(x, y, aluOp) =>
      assert Encode(op) == WordXYN(0x8, x, y, AluCode(aluOp));
      DecodeWordXYN(0x8, x, y, AluCode(aluOp));
      AluCodeRoundTrip(aluOp, 0);
  }

  lemma DecodeEncodeKeyed(op: Opcode)
    requires op.SkipIfPressed? || op.SkipIfNotPressed? || op.WaitForKey? || op.ReadDelayTimer?
      || op.SetDelayTimer? || op.SetSoundTimer? || op.AddIndexReg? || op.FontChar? || op.BCD?
      || op.StoreRegs? || op.LoadRegs?
    ensures Decode(Encode(op)) == op
  {
    if op.SkipIfPressed? || op.SkipIfNotPressed? {
      DecodeEncodeKeys(op);
    } else if op.WaitForKey? || op.ReadDelayTimer? || op.SetDelayTimer? || op.SetSoundTimer? {
      DecodeEncodeTimers(op);
    } else if op.AddIndexReg? || op.FontChar? {
      DecodeEncodeIndex(op);
    } else {
      DecodeEncodeMemory(op);
    }
  }

  lemma DecodeEncodeKeys(op: Opcode)
    requires op.SkipIfPressed? || op.SkipIfNotPressed?
    ensures Decode(Encode(op)) == op
  {
    match op
    case SkipIfPressed(x) =>
      assert Encode(op) == WordXYN(0xE, x, 0x9, 0xE);
      DecodeWordXYN(0xE, x, 0x9, 0xE);
    case SkipIfNotPressed(x) =>
      assert Encode(op) == WordXYN(0xE, x, 0xA, 0x1);
      DecodeWordXYN(0xE, x, 0xA, 0x1);
  }

  lemma DecodeEncodeTimers(op: Opcode)
    requires op.WaitForKey? || op.ReadDelayTimer? || op.SetDelayTimer? || op.SetSoundTimer?
    ensures Decode(Encode(op)) == op
  {
    match op
    case WaitForKey(x) =>
      assert Encode(op) == WordXYN(0xF, x, 0x0, 0xA);
      DecodeWordXYN(0xF, x, 0x0, 0xA);
    case ReadDelayTimer(x) =>
      assert Encode(op) == WordXYN(0xF, x, 0x0, 0x7);
      DecodeWordXYN(0xF, x, 0x0, 0x7);
    case SetDelayTimer(x) =>
      assert Encode(op) == WordXYN(0xF, x, 0x1, 0x5);
      DecodeWordXYN(0xF, x, 0x1, 0x5);
    case SetSoundTimer(x) =>
      assert Encode(op) == WordXYN(0xF, x, 0x1, 0x8);
      DecodeWordXYN(0xF, x, 0x1, 0x8);
  }

  lemma DecodeEncodeIndex(op: Opcode)
    requires op.AddIndexReg? || op.FontChar?
    ensures Decode(Encode(op)) == op
  {
    match op
    case AddIndexReg(x) =>
      assert Encode(op) == WordXYN(0xF, x, 0x1, 0xE);
      DecodeWordXYN(0xF, x, 0x1, 0xE);
    case FontChar(x) =>
      assert Encode(op) == WordXYN(0xF, x, 0x2, 0x9);
      DecodeWordXYN(0xF, x, 0x2, 0x9);
  }

  lemma DecodeEncodeMemory(op: Opcode)
    requires op.BCD? || op.StoreRegs? || op.LoadRegs?
    ensures Decode(Encode(op)) == op
  {
    match op
    case BCD(x) =>
      assert Encode(op) == WordXYN(0xF, x, 0x3, 0x3);
      DecodeWordXYN(0xF, x, 0x3, 0x3);
    case StoreRegs(x) =>
      assert Encode(op) == WordXYN(0xF, x, 0x5, 0x5);
      DecodeWordXYN(0xF, x, 0x5, 0x5);
    case LoadRegs(x) =>
      assert Encode(op) == WordXYN(0xF, x, 0x6, 0x5);
      DecodeWordXYN(0xF, x, 0x6, 0x5);
  }

  lemma DecodeWordNNN(family: u8, nnn: u16)
    requires 0x0 < family <= 0x0F && nnn <= 0x0FFF
    ensures var w := WordNNN(family, nnn);
      Family(w) == family && Address(w) == nnn
  {
    OperandSlices(WordNNN(family, nnn));
  }

  lemma DecodeWordXYN(family: u8, x: u4, y: u4, n: u4)
    requires family <= 0x0F
    ensures var w := WordXYN(family, x, y, n);
      Family(w) == family && Nibble1(w) == x && Nibble2(w) == y && Nibble3(w) == n
      && LowByte(w) as int == 0x10 * y as int + n as int
  {
    Digits(family as int, x as int, y as int, n as int);
    OperandSlices(WordXYN(family, x, y, n));
  }

  lemma DecodeWordXNN(family: u8, x: u4, nn: u8)
    requires family <= 0x0F
    ensures var w := WordXNN(family, x, nn);
      Family(w) == family && Nibble1(w) == x && LowByte(w) == nn
  {
    Digits(family as int, x as int, nn as int / 0x10, nn as int % 0x10);
    assert WordXNN(family, x, nn) as int
      == family as int * 0x1000 + x as int * 0x100 + (nn as int / 0x10) * 0x10 + nn as int % 0x10;
    OperandSlices(WordXNN(family, x, nn));
  }

  // ---------------------------------------------------------------------
  // Properties of the decoder, family by family

  /** Family 0: only 00E0 and 00EE are instructions. */
  lemma DecodeFamily0(w: u16)
    requires Family(w) == 0x0
    ensures Decode(w) == ClearDisplay <==> w == 0x00E0
    ensures Decode(w) == Return <==> w == 0x00EE
    ensures w != 0x00E0 && w != 0x00EE ==> Decode(w) == Unknown(w)
  {
    OperandSlices(w);
  }

  /** Families whose low nibbles are pure operands always decode to their
      variant, with the operands sliced from the word. */
  lemma DecodeOperandFamilies(w: u16)
    ensures Family(w) == 0x1 ==> Decode(w) == Jump(Address(w))
    ensures Family(w) == 0x2 ==> Decode(w) == Call(Address(w))
    ensures Family(w) == 0x3 ==> Decode(w) == SkipRegEqualImm(Nibble1(w), LowByte(w))
    ensures Family(w) == 0x4 ==> Decode(w) == SkipRegNotEqualImm(Nibble1(w), LowByte(w))
    ensures Family(w) == 0x6 ==> Decode(w) == SetRegImm(Nibble1(w), LowByte(w))
    ensures Family(w) == 0x7 ==> Decode(w) == AddRegImm(Nibble1(w), LowByte(w))
    ensures Family(w) == 0xA ==> Decode(w) == SetIndexImm(Address(w))
    ensures Family(w) == 0xB ==> Decode(w) == JumpWithOffset(Address(w))
    ensures Family(w) == 0xC ==> Decode(w) == Random(Nibble1(w), LowByte(w))
    ensures Family(w) == 0xD ==> Decode(w) == Draw(Nibble1(w), Nibble2(w), Nibble3(w))
  {
    OperandSlices(w);
  }

  /** Family 8: an ALU instruction when the low nibble names an operation, and
      otherwise UnknownALU holding the word, never plain Unknown. */
  lemma DecodeFamily8(w: u16)
    requires Family(w) == 0x8
    ensures Nibble3(w) <= 0x7 || Nibble3(w) == 0xE ==>
      Decode(w).ALU? && Decode(w).x == Nibble1(w) && Decode(w).y == Nibble2(w)
      && AluCode(Decode(w).op) == Nibble3(w)
    ensures Nibble3(w) > 0x7 && Nibble3(w) != 0xE ==> Decode(w) == UnknownALU(w)
    ensures !Decode(w).Unknown?
  {
    OperandSlices(w);
    AluCodeRoundTrip(Set, Nibble3(w));
  }

  /** Families 5 and 9 compare registers only when the low nibble is 0. */
  lemma DecodeFamilies5And9(w: u16)
    requires Family(w) == 0x5 || Family(w) == 0x9
    ensures Nibble3(w) == 0x0 && Family(w) == 0x5 ==> Decode(w) == SkipRegEqualReg(Nibble1(w), Nibble2(w))
    ensures Nibble3(w) == 0x0 && Family(w) == 0x9 ==> Decode(w) == SkipRegNotEqualReg(Nibble1(w), Nibble2(w))
    ensures Nibble3(w) != 0x0 ==> Decode(w) == Unknown(w)
  {
    OperandSlices(w);
  }

  /** The second bytes families E and F recognise. */
  predicate RecognisedLowByte(family: u8, nn: u8)
  {
    if family == 0xE then nn in {0x9E, 0xA1}
    else if family == 0xF then nn in {0x0A, 0x07, 0x15, 0x18, 0x1E, 0x29, 0x33, 0x55, 0x65}
    else false
  }

  /** Families E and F: a recognised second byte selects the instruction on
      register x, and any other second byte is Unknown. */
  lemma DecodeFamiliesEAndF(w: u16)
    requires Family(w) == 0xE || Family(w) == 0xF
    ensures RecognisedLowByte(Family(w), LowByte(w)) <==> !Decode(w).Unknown?
    ensures !RecognisedLowByte(Family(w), LowByte(w)) ==> Decode(w) == Unknown(w)
    ensures RecognisedLowByte(Family(w), LowByte(w)) ==> Decode(w).x == Nibble1(w)
  {
    OperandSlices(w);
  }
}
