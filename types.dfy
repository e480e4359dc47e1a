/** Result, error and display definitions shared by the interpreter
    (src/chip8/types.rs; src/types.rs is the same without `UnknownALUOpcode`). */
module Types {
  import opened Primitives

  /** How the CPU loop should go on after one instruction. */
  datatype Chip8Result = Continue | WaitForNextFrame

  datatype Chip8Error =
    | RomLoadError(size: nat, maxSize: nat)
    | MemoryOutOfBounds(address: u16)
    | StackUnderflow
    | UnknownOpcode(opcode: u16)
    | UnknownALUOpcode(opcode: u16)

  const DISPLAY_X: nat := 64
  const DISPLAY_Y: nat := 32

  /** `Display<bool>`: DISPLAY_Y rows of DISPLAY_X pixels, row-major, origin top-left. */
  type Display = seq<seq<bool>>

  predicate IsDisplay(d: Display) {
    |d| == DISPLAY_Y && forall r :: 0 <= r < DISPLAY_Y ==> |d[r]| == DISPLAY_X
  }

  /** A display with every pixel off. */
  function BlankDisplay(): (d: Display)
    ensures IsDisplay(d)
    ensures forall r, c :: 0 <= r < DISPLAY_Y && 0 <= c < DISPLAY_X ==> !d[r][c]
  {
    seq(DISPLAY_Y, _ => seq(DISPLAY_X, _ => false))
  }

  /** Two displays with the same pixels are the same display. */
  lemma DisplayExtensionality(a: Display, b: Display)
    requires IsDisplay(a) && IsDisplay(b)
    requires forall r, c :: 0 <= r < DISPLAY_Y && 0 <= c < DISPLAY_X ==> a[r][c] == b[r][c]
    ensures a == b
  {
    forall r | 0 <= r < DISPLAY_Y
      ensures a[r] == b[r]
    {
      assert forall c :: 0 <= c < DISPLAY_X ==> a[r][c] == b[r][c];
    }
  }
}
