/** Exact values of the IEEE 754 binary interchange formats (section 3.6 of
    IEEE 754-2008). Widening a binary16 value to binary32, which the LLVM
    intrinsic behind `f16_to_f32` does, is exact, so a decoded half is described
    by its real value. */
module Floats {
  datatype Float = Finite(value: real) | Infinite(negative: bool) | NaN

  function PowNat(b: nat, k: nat): (r: nat)
    ensures b >= 1 ==> r >= 1
  {
    if k == 0 then 1 else b * PowNat(b, k - 1)
  }

  /** `m * 2^k` for any integer exponent. */
  function Scale(m: real, k: int): real
  {
    if k >= 0 then m * PowNat(2, k) as real else m / PowNat(2, -k) as real
  }

  /** The value of a pattern split into its sign, biased exponent and
      fraction (section 3.4 of IEEE 754-2008: infinities and NaNs, signed
      zeros, subnormal and normal numbers), in a format with `expSpan` exponent values and `fracSpan`
      fraction values (two to the number of bits of each field). */
  function FromFields(negative: bool, exp: nat, frac: nat, expSpan: nat, fracSpan: nat): Float
    requires expSpan >= 4 && fracSpan >= 1
  {
    var bias := expSpan / 2 - 1;
    if exp == expSpan - 1 then
      if frac == 0 then Infinite(negative) else NaN
    else if exp == 0 && frac == 0 then Finite(0.0)
    else
      var fraction := frac as real / fracSpan as real;
      var magnitude :=
        if exp == 0 then Scale(fraction, 1 - bias)
        else Scale(1.0 + fraction, exp - bias);
      Finite(if negative then -magnitude else magnitude)
  }

  /** The value of the bit pattern `bits`: fraction in the low bits, then the
      exponent, then the sign. */
  function DecodeBits(bits: nat, expSpan: nat, fracSpan: nat): Float
    requires expSpan >= 4 && fracSpan >= 1
  {
    FromFields((bits / fracSpan / expSpan) % 2 == 1, (bits / fracSpan) % expSpan, bits % fracSpan, expSpan, fracSpan)
  }

  /** binary16: 5 exponent bits and 10 fraction bits, from the 16-bit pattern
      (a Rust `i16` is taken modulo 2^16). */
  function Half(bits: int): Float
  {
    DecodeBits(bits % 0x1_0000, 0x20, 0x400)
  }

  /** binary32: 8 exponent bits and 23 fraction bits, from the 32-bit
      pattern. */
  function Single(bits: int): Float
  {
    DecodeBits(bits % 0x1_0000_0000, 0x100, 0x80_0000)
  }

  /** Zero and one in binary16, the patterns the source's view tests rely on. */
  lemma HalfPatterns()
    ensures Half(0) == Finite(0.0)
    ensures Half(0x3C00) == Finite(1.0)
  {
    HalfOne();
  }

  lemma HalfOne()
    ensures Half(0x3C00) == Finite(1.0)
  {
    assert 0x3C00 / 0x400 == 15 && 0x3C00 % 0x400 == 0 && 15 / 0x20 == 0;
    assert Scale(1.0, 0) == 1.0;
  }

  /** Zero and one in binary32. */
  lemma SinglePatterns()
    ensures Single(0) == Finite(0.0)
    ensures Single(0x3F80_0000) == Finite(1.0)
  {
    SingleOne();
  }

  lemma SingleOne()
    ensures Single(0x3F80_0000) == Finite(1.0)
  {
    assert 0x3F80_0000 / 0x80_0000 == 127 && 0x3F80_0000 % 0x80_0000 == 0 && 127 / 0x100 == 0;
    assert Scale(1.0, 0) == 1.0;
  }
}
