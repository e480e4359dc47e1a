/** The `u4` type of src/nibble.rs: a byte whose value has been masked to its
    low four bits, used to name one of the sixteen `V` registers. */
module Nibble {
  import opened Primitives

  /** Values of `u4` are exactly the bytes `u4::new` can produce. */
  type u4 = x: u8 | x <= 0x0F

  /** `u4::new`: keep the low nibble. */
  function New(value: u8): (r: u4)
    ensures r == value % 0x10
    ensures value <= 0x0F ==> r == value
  {
    BitAndLowMask(value as nat, 4);
    assert Pow2(4) == 0x10;
    BitAnd(value as nat, 0x0F) as u4
  }

  /** Masking twice is masking once. */
  lemma NewIdempotent(value: u8)
    ensures New(New(value)) == New(value)
  {
  }

  /** `usize::from(u4)`: the stored nibble, unchanged. */
  function ToUsize(n: u4): (r: nat)
    ensures r < 16
    ensures r as u8 == n
  {
    n as int
  }

  /** `Index<u4> for [u8; 16]`: every nibble is a valid register number. */
  function Index(regs: seq<u8>, index: u4): (r: u8)
    requires |regs| == 16
    ensures r == regs[ToUsize(index)]
  {
    regs[index]
  }

  /** `IndexMut<u4> for [u8; 16]`, followed by a store through the reference:
      only the addressed register changes. */
  function IndexMut(regs: seq<u8>, index: u4, value: u8): (r: seq<u8>)
    requires |regs| == 16
    ensures |r| == 16
    ensures Index(r, index) == value
    ensures forall k :: 0 <= k < 16 && k != ToUsize(index) ==> r[k] == regs[k]
  {
    regs[index := value]
  }
}
