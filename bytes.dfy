/** Bytes and the little-endian integer codecs that replace the source's
    `byteorder` reads/writes and its `mem::transmute` reinterpretations. */
module Bytes {

  type byte = x: int | 0 <= x < 0x100

  /** 256 to the power n: the number of values an n-byte word can hold. */
  function Pow256(n: nat): (r: nat)
    ensures r >= 1
  {
    if n == 0 then 1 else 0x100 * Pow256(n - 1)
  }

  /** The bytes `count` items of `size` bytes each take up. */
  function Span(count: nat, size: nat): nat
  {
    count * size
  }

  /** The unsigned value of `s` read little-endian (least significant byte first). */
  function LeValue(s: seq<byte>): nat
  {
    if s == [] then 0 else s[0] + 0x100 * LeValue(s[1..])
  }

  /** The n-byte little-endian encoding of `x`, keeping only its low n bytes. */
  function LeBytes(x: nat, n: nat): (s: seq<byte>)
    ensures |s| == n
  {
    if n == 0 then [] else [x % 0x100] + LeBytes(x / 0x100, n - 1)
  }

  lemma {:induction false} LeValueBound(s: seq<byte>)
    ensures LeValue(s) < Pow256(|s|)
  {
    if s != [] {
      LeValueBound(s[1..]);
    }
  }

  /** Decoding an encoding gives the value back whenever it fits in n bytes. */
  lemma {:induction false} LeValueOfBytes(x: nat, n: nat)
    requires x < Pow256(n)
    ensures LeValue(LeBytes(x, n)) == x
  {
    if n > 0 {
      LeValueOfBytes(x / 0x100, n - 1);
      assert LeBytes(x, n)[1..] == LeBytes(x / 0x100, n - 1);
    }
  }

  /** Encoding a decoded word reproduces the bytes it came from. */
  lemma {:induction false} LeBytesOfValue(s: seq<byte>)
    ensures LeBytes(LeValue(s), |s|) == s
  {
    if s != [] {
      LeBytesOfValue(s[1..]);
      var v := LeValue(s[1..]);
      assert (s[0] + 0x100 * v) % 0x100 == s[0];
      assert (s[0] + 0x100 * v) / 0x100 == v;
    }
  }

  /** The two's-complement value of an n-byte word `u` (Rust's `as iN`). */
  function Signed(u: nat, n: nat): int
  {
    if n > 0 && u >= Pow256(n) / 2 then u - Pow256(n) else u
  }

  /** The n-byte word whose two's-complement value is `v`. */
  function Unsigned(v: int, n: nat): int
  {
    if v < 0 then v + Pow256(n) else v
  }

  /** The values an unsigned n-byte integer can hold. */
  predicate InUnsignedRange(v: int, n: nat)
  {
    0 <= v < Pow256(n)
  }

  /** The values a signed n-byte integer can hold. */
  predicate InSignedRange(v: int, n: nat)
  {
    n > 0 && -(Pow256(n) / 2) <= v < Pow256(n) / 2
  }

  lemma {:induction false} SignedOfUnsigned(v: int, n: nat)
    requires InSignedRange(v, n)
    ensures 0 <= Unsigned(v, n) < Pow256(n)
    ensures Signed(Unsigned(v, n), n) == v
  {
  }

  lemma {:induction false} SignedRange(u: nat, n: nat)
    requires n > 0 && u < Pow256(n)
    ensures InSignedRange(Signed(u, n), n)
    ensures Unsigned(Signed(u, n), n) == u
  {
    var q := Pow256(n - 1);
    assert Pow256(n) == 0x100 * q;
    assert Pow256(n) / 2 == 0x80 * q;
  }
}
