/** Rust's fixed-width unsigned integers as bounded integers, with the
    wrapping, overflowing and saturating arithmetic and the bitwise operators
    the interpreter uses written out explicitly. */
module Primitives {

  newtype u8 = x: int | 0 <= x < 0x100
  newtype u16 = x: int | 0 <= x < 0x1_0000

  /** 2 to the power k. */
  function Pow2(k: nat): (r: nat)
    ensures r >= 1
  {
    if k == 0 then 1 else 2 * Pow2(k - 1)
  }

  // ---------------------------------------------------------------------
  // Arithmetic

  /** `u16::wrapping_add`. */
  function WrappingAdd16(a: u16, b: u16): (r: u16)
    ensures a as int + b as int < 0x1_0000 ==> r as int == a as int + b as int
    ensures a as int + b as int >= 0x1_0000 ==> r as int == a as int + b as int - 0x1_0000
  {
    ((a as int + b as int) % 0x1_0000) as u16
  }

  /** `u16::wrapping_sub`. */
  function WrappingSub16(a: u16, b: u16): (r: u16)
    ensures b <= a ==> r as int == a as int - b as int
    ensures a < b ==> r as int == a as int - b as int + 0x1_0000
  {
    ((a as int - b as int) % 0x1_0000) as u16
  }

  /** Subtracting what was added gives back the start, whatever wrapped. */
  lemma WrappingSubAdd16(a: u16, b: u16)
    ensures WrappingSub16(WrappingAdd16(a, b), b) == a
  {
  }

  /** `u8::overflowing_add`: the wrapped sum and whether it carried out of 8 bits. */
  function OverflowingAdd(a: u8, b: u8): (r: (u8, bool))
    ensures r.1 <==> a as int + b as int >= 0x100
    ensures r.0 as int + (if r.1 then 0x100 else 0) == a as int + b as int
  {
    var sum := a as int + b as int;
    ((sum % 0x100) as u8, sum >= 0x100)
  }

  /** `u8::overflowing_sub`: the wrapped difference and whether it borrowed. */
  function OverflowingSub(a: u8, b: u8): (r: (u8, bool))
    ensures r.1 <==> a < b
    ensures r.0 as int - (if r.1 then 0x100 else 0) == a as int - b as int
  {
    var difference := a as int - b as int;
    ((difference % 0x100) as u8, difference < 0)
  }

  /** `u8::wrapping_add`: the sum half of `overflowing_add`. */
  function WrappingAdd8(a: u8, b: u8): (r: u8)
    ensures r == OverflowingAdd(a, b).0
  {
    ((a as int + b as int) % 0x100) as u8
  }

  /** `u8::saturating_sub(1)`: one less, but never below zero. */
  function SaturatingDecrement(a: u8): (r: u8)
    ensures a == 0 ==> r == 0
    ensures a > 0 ==> r as int == a as int - 1
  {
    if a == 0 then 0 else a - 1
  }

  // ---------------------------------------------------------------------
  // Bitwise operators, defined one binary digit at a time

  /** `a & b`. */
  function BitAnd(a: nat, b: nat): (r: nat)
    ensures r <= a && r <= b
    decreases a
  {
    if a == 0 || b == 0 then 0
    else 2 * BitAnd(a / 2, b / 2) + (if a % 2 == 1 && b % 2 == 1 then 1 else 0)
  }

  /** `a | b`. */
  function BitOr(a: nat, b: nat): (r: nat)
    ensures a <= r && b <= r
    decreases a + b
  {
    if a == 0 then b
    else if b == 0 then a
    else 2 * BitOr(a / 2, b / 2) + (if a % 2 == 1 || b % 2 == 1 then 1 else 0)
  }

  /** `a ^ b`. */
  function BitXor(a: nat, b: nat): (r: nat)
    decreases a + b
  {
    if a == 0 then b
    else if b == 0 then a
    else 2 * BitXor(a / 2, b / 2) + (if a % 2 != b % 2 then 1 else 0)
  }

  /** Masking with k one-bits keeps the low k binary digits. */
  lemma {:induction false} BitAndLowMask(a: nat, k: nat)
    ensures BitAnd(a, Pow2(k) - 1) == a % Pow2(k)
  {
    if k == 0 {
      assert BitAnd(a, 0) == 0;
    } else if a == 0 {
      assert BitAnd(0, Pow2(k) - 1) == 0;
    } else {
      var p := Pow2(k - 1);
      var mask, half := 2 * p - 1, p - 1;
      assert mask / 2 == half && mask % 2 == 1;
      calc {
        BitAnd(a, Pow2(k) - 1);
        BitAnd(a, mask);
        2 * BitAnd(a / 2, half) + a % 2;
        { BitAndLowMask(a / 2, k - 1); }
        2 * ((a / 2) % p) + a % 2;
        { DivModPow2(a, k); }
        a % Pow2(k);
      }
    }
  }

  /** a mod 2^k, one binary digit at a time. */
  lemma DivModPow2(a: nat, k: nat)
    requires k > 0
    ensures a % Pow2(k) == 2 * ((a / 2) % Pow2(k - 1)) + a % 2
  {
    var p := Pow2(k - 1);
    var q := (a / 2) / p;
    var s := (a / 2) % p;
    assert a / 2 == q * p + s;
    assert a == q * (2 * p) + (2 * s + a % 2);
    assert 0 <= 2 * s + a % 2 < 2 * p;
    DivModUnique(a, 2 * p, q, 2 * s + a % 2);
  }

  /** Division with remainder has one answer. */
  lemma DivModUnique(a: nat, d: nat, q: nat, s: nat)
    requires d > 0 && a == q * d + s && s < d
    ensures a % d == s
  {
    var q', s' := a / d, a % d;
    assert q' * d + s' == q * d + s;
    if q' < q {
      assert (q - q') * d == s' - s;
      MulAtLeast(q - q', d);
    } else if q < q' {
      assert (q' - q) * d == s - s';
      MulAtLeast(q' - q, d);
    }
  }

  lemma MulAtLeast(m: nat, d: nat)
    requires m >= 1
    ensures m * d >= d
  {
  }

  /** Both BitOr and BitXor stay below any power of two both operands are below. */
  lemma {:induction false} BitOrXorBound(a: nat, b: nat, k: nat)
    requires a < Pow2(k) && b < Pow2(k)
    ensures BitOr(a, b) < Pow2(k) && BitXor(a, b) < Pow2(k)
    decreases k
  {
    if a != 0 && b != 0 {
      assert k > 0;
      BitOrXorBound(a / 2, b / 2, k - 1);
    }
  }

  /** `a & b` on bytes, as a byte. */
  function And8(a: u8, b: u8): (r: u8)
    ensures r <= a && r <= b
    ensures forall k: nat :: Bit8(r, k) <==> Bit8(a, k) && Bit8(b, k)
  {
    BitAndBits(a as nat, b as nat);
    BitAnd(a as nat, b as nat) as u8
  }

  /** `a | b` on bytes, as a byte. */
  function Or8(a: u8, b: u8): (r: u8)
    ensures a <= r && b <= r
    ensures forall k: nat :: Bit8(r, k) <==> Bit8(a, k) || Bit8(b, k)
  {
    BitOrXorBound(a as nat, b as nat, 8);
    BitOrBits(a as nat, b as nat);
    BitOr(a as nat, b as nat) as u8
  }

  /** `a ^ b` on bytes, as a byte. */
  function Xor8(a: u8, b: u8): (r: u8)
    ensures forall k: nat :: Bit8(r, k) <==> Bit8(a, k) != Bit8(b, k)
    ensures BitXor(r as nat, b as nat) == a as nat
  {
    BitOrXorBound(a as nat, b as nat, 8);
    BitXorBits(a as nat, b as nat);
    BitXorInvolution(a as nat, b as nat);
    BitXor(a as nat, b as nat) as u8
  }

  /** Masking twice with the same mask is masking once: every one-bit of
      `a & b` is a one-bit of `b`. */
  lemma {:induction false} BitAndIdempotent(a: nat, b: nat)
    ensures BitAnd(BitAnd(a, b), b) == BitAnd(a, b)
    decreases a
  {
    if a != 0 && b != 0 {
      BitAndIdempotent(a / 2, b / 2);
      var r := BitAnd(a, b);
      assert r / 2 == BitAnd(a / 2, b / 2);
      assert r % 2 == (if a % 2 == 1 && b % 2 == 1 then 1 else 0);
    }
  }

  /** Exclusive or with the same value twice gives the start back. */
  lemma {:induction false} BitXorInvolution(a: nat, b: nat)
    ensures BitXor(BitXor(a, b), b) == a
    decreases a + b
  {
    if a != 0 && b != 0 {
      BitXorInvolution(a / 2, b / 2);
      var r := BitXor(a, b);
      assert r / 2 == BitXor(a / 2, b / 2);
      assert r % 2 == (if a % 2 != b % 2 then 1 else 0);
      if r != 0 {
        assert BitXor(r, b) == 2 * BitXor(r / 2, b / 2) + (if r % 2 != b % 2 then 1 else 0);
        assert BitXor(r / 2, b / 2) == a / 2;
        assert (if r % 2 != b % 2 then 1 else 0) == a % 2;
      } else {
        BitXorZero(a / 2, b / 2);
      }
    } else if a == 0 {
      BitXorSelf(b);
    }
  }

  /** Only equal values have a zero exclusive or. */
  lemma {:induction false} BitXorZero(a: nat, b: nat)
    requires BitXor(a, b) == 0
    ensures a == b
    decreases a + b
  {
    if a != 0 && b != 0 {
      BitXorZero(a / 2, b / 2);
    }
  }

  /** Exclusive or of a value with itself is zero. */
  lemma {:induction false} BitXorSelf(a: nat)
    ensures BitXor(a, a) == 0
    decreases a
  {
    if a != 0 {
      BitXorSelf(a / 2);
    }
  }

  /** Bit `k` of `a`. */
  predicate Bit(a: nat, k: nat) {
    (a / Pow2(k)) % 2 == 1
  }

  /** Bit `k` of a byte. */
  predicate Bit8(a: u8, k: nat) {
    Bit(a as nat, k)
  }

  /** Bit `k` of `a` is bit `k - 1` of `a / 2`. */
  lemma BitOfHalf(a: nat, k: nat)
    requires k > 0
    ensures Bit(a, k) == Bit(a / 2, k - 1)
  {
    DivDiv(a, Pow2(k - 1));
  }

  /** Bit `k` of `a & b` is set exactly when it is set in both. */
  lemma {:induction false} BitAndBit(a: nat, b: nat, k: nat)
    ensures Bit(BitAnd(a, b), k) <==> Bit(a, k) && Bit(b, k)
    decreases k
  {
    var r := BitAnd(a, b);
    assert r / 2 == BitAnd(a / 2, b / 2) && r % 2 == (if a % 2 == 1 && b % 2 == 1 then 1 else 0);
    if k > 0 {
      BitAndBit(a / 2, b / 2, k - 1);
      BitOfHalf(a, k);
      BitOfHalf(b, k);
      BitOfHalf(r, k);
    }
  }

  /** `&` works bit by bit. */
  lemma BitAndBits(a: nat, b: nat)
    ensures forall k: nat :: Bit(BitAnd(a, b), k) <==> Bit(a, k) && Bit(b, k)
  {
    forall k: nat
      ensures Bit(BitAnd(a, b), k) <==> Bit(a, k) && Bit(b, k)
    {
      BitAndBit(a, b, k);
    }
  }

  /** Bit `k` of `a | b` is set exactly when it is set in either. */
  lemma {:induction false} BitOrBit(a: nat, b: nat, k: nat)
    ensures Bit(BitOr(a, b), k) <==> Bit(a, k) || Bit(b, k)
    decreases k
  {
    var r := BitOr(a, b);
    assert r / 2 == BitOr(a / 2, b / 2) && r % 2 == (if a % 2 == 1 || b % 2 == 1 then 1 else 0);
    if k > 0 {
      BitOrBit(a / 2, b / 2, k - 1);
      BitOfHalf(a, k);
      BitOfHalf(b, k);
      BitOfHalf(r, k);
    }
  }

  /** `|` works bit by bit. */
  lemma BitOrBits(a: nat, b: nat)
    ensures forall k: nat :: Bit(BitOr(a, b), k) <==> Bit(a, k) || Bit(b, k)
  {
    forall k: nat
      ensures Bit(BitOr(a, b), k) <==> Bit(a, k) || Bit(b, k)
    {
      BitOrBit(a, b, k);
    }
  }

  /** Bit `k` of `a ^ b` is set exactly when it is set in one of them. */
  lemma {:induction false} BitXorBit(a: nat, b: nat, k: nat)
    ensures Bit(BitXor(a, b), k) <==> Bit(a, k) != Bit(b, k)
    decreases k
  {
    var r := BitXor(a, b);
    assert r / 2 == BitXor(a / 2, b / 2) && r % 2 == (if a % 2 != b % 2 then 1 else 0);
    if k > 0 {
      BitXorBit(a / 2, b / 2, k - 1);
      BitOfHalf(a, k);
      BitOfHalf(b, k);
      BitOfHalf(r, k);
    }
  }

  /** `^` works bit by bit. */
  lemma BitXorBits(a: nat, b: nat)
    ensures forall k: nat :: Bit(BitXor(a, b), k) <==> Bit(a, k) != Bit(b, k)
  {
    forall k: nat
      ensures Bit(BitXor(a, b), k) <==> Bit(a, k) != Bit(b, k)
    {
      BitXorBit(a, b, k);
    }
  }

  /** Testing a single bit `a & 2^k` is reading binary digit k. */
  lemma {:induction false} BitAndPow2(a: nat, k: nat)
    ensures BitAnd(a, Pow2(k)) != 0 <==> (a / Pow2(k)) % 2 == 1
    decreases k
  {
    if k == 0 {
      if a != 0 {
        assert BitAnd(a / 2, 0) == 0;
      }
    } else if a != 0 {
      BitAndPow2(a / 2, k - 1);
      assert Pow2(k) / 2 == Pow2(k - 1) && Pow2(k) % 2 == 0;
      DivDiv(a, Pow2(k - 1));
    }
  }

  /** a / (2 p) == (a / 2) / p. */
  lemma DivDiv(a: nat, p: nat)
    requires p >= 1
    ensures a / (2 * p) == (a / 2) / p
  {
    var q := (a / 2) / p;
    var s := (a / 2) % p;
    assert a == q * (2 * p) + (2 * s + a % 2);
    DivModQuotient(a, 2 * p, q, 2 * s + a % 2);
  }

  lemma DivModQuotient(a: nat, d: nat, q: nat, s: nat)
    requires d > 0 && a == q * d + s && s < d
    ensures a / d == q
  {
    DivModUnique(a, d, q, s);
  }
}
