/** Machine integers and their big- and little-endian byte images. */
module Bytes {

  type byte = x: int | 0 <= x < 0x100
  type bytes = seq<byte>

  type u32 = x: int | 0 <= x < 0x1_0000_0000
  type i32 = x: int | -0x8000_0000 <= x < 0x8000_0000
  type u64 = x: int | 0 <= x < 0x1_0000_0000_0000_0000
  type i64 = x: int | -0x8000_0000_0000_0000 <= x < 0x8000_0000_0000_0000

  const I32_MAX := 0x7FFF_FFFF
  const I64_MIN := -0x8000_0000_0000_0000
  const I64_MAX := 0x7FFF_FFFF_FFFF_FFFF

  predicate FitsI64(x: int) {
    I64_MIN <= x <= I64_MAX
  }

  predicate FitsI32(x: int) {
    -0x8000_0000 <= x <= I32_MAX
  }

  /** The number of values a field of `width` bytes can hold. */
  function Pow256(width: nat): (p: nat)
    ensures p >= 1
  {
    if width == 0 then 1 else 0x100 * Pow256(width - 1)
  }

  lemma Pow256Values()
    ensures Pow256(1) == 0x100
    ensures Pow256(2) == 0x1_0000
    ensures Pow256(4) == 0x1_0000_0000
    ensures Pow256(8) == 0x1_0000_0000_0000_0000
  {
  }

  /** `n` as `width` bytes, most significant first. */
  function Be(width: nat, n: nat): (s: bytes)
    ensures |s| == width
  {
    if width == 0 then [] else Be(width - 1, n / 0x100) + [n % 0x100]
  }

  /** The number a big-endian byte string denotes, by shifting one byte in at a time. */
  function UnBe(s: bytes): (n: nat)
    ensures n < Pow256(|s|)
  {
    if s == [] then 0 else UnBe(s[..|s| - 1]) * 0x100 + s[|s| - 1]
  }

  lemma UnBeOne(b: byte)
    ensures UnBe([b]) == b
  {
  }

  lemma {:induction false} UnBeBe(width: nat, n: nat)
    requires n < Pow256(width)
    ensures UnBe(Be(width, n)) == n
  {
    if width > 0 {
      UnBeBe(width - 1, n / 0x100);
      assert Be(width, n)[..width - 1] == Be(width - 1, n / 0x100);
    }
  }

  lemma Pow256IsEven(width: nat)
    requires width > 0
    ensures Pow256(width) == 2 * (Pow256(width) / 2)
  {
  }

  /** The two's-complement reading of an unsigned field of `width` bytes. */
  function AsSigned(width: nat, n: nat): (r: int)
    requires width > 0 && n < Pow256(width)
    ensures -(Pow256(width) / 2) <= r < Pow256(width) / 2
    ensures r == n || r == n - Pow256(width)
  {
    Pow256IsEven(width);
    var p := Pow256(width);
    if n < p / 2 then n else n - p
  }

  /** `n` in two's complement, most significant byte first. */
  function BeSigned(width: nat, n: int): (s: bytes)
    requires width > 0 && -(Pow256(width) / 2) <= n < Pow256(width) / 2
    ensures |s| == width
  {
    Be(width, if n < 0 then n + Pow256(width) else n)
  }

  lemma AsSignedBeSigned(width: nat, n: int)
    requires width > 0 && -(Pow256(width) / 2) <= n < Pow256(width) / 2
    ensures AsSigned(width, UnBe(BeSigned(width, n))) == n
  {
    UnBeBe(width, if n < 0 then n + Pow256(width) else n);
  }

  /** `n` as `width` bytes, least significant first. */
  function Le(width: nat, n: nat): (s: bytes)
    ensures |s| == width
  {
    if width == 0 then [] else [n % 0x100] + Le(width - 1, n / 0x100)
  }

  function UnLe(s: bytes): (n: nat)
    ensures n < Pow256(|s|)
  {
    if s == [] then 0 else s[0] + 0x100 * UnLe(s[1..])
  }

  lemma {:induction false} UnLeLe(width: nat, n: nat)
    requires n < Pow256(width)
    ensures UnLe(Le(width, n)) == n
  {
    if width > 0 {
      UnLeLe(width - 1, n / 0x100);
      assert Le(width, n)[1..] == Le(width - 1, n / 0x100);
    }
  }
}
