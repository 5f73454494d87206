/**
 * Fixed-width integers shared by both libraries.
 *
 * C's unsigned types are modelled as subsets of `int`; wherever the C code
 * relies on unsigned wrap-around the model applies `Wrap32`/`Wrap64`
 * explicitly.
 */
module Bits {
  const U8_LIMIT: int := 0x100
  const U16_LIMIT: int := 0x1_0000
  const U32_LIMIT: int := 0x1_0000_0000
  const U64_LIMIT: int := 0x1_0000_0000_0000_0000

  type u8 = x: int | 0 <= x < 0x100
  type u16 = x: int | 0 <= x < 0x1_0000
  type u32 = x: int | 0 <= x < 0x1_0000_0000
  type u64 = x: int | 0 <= x < 0x1_0000_0000_0000_0000
  type s32 = x: int | -0x8000_0000 <= x < 0x8000_0000

  /** 2^n */
  function Pow2(n: nat): (r: nat)
    ensures r >= 1
  {
    if n == 0 then 1 else 2 * Pow2(n - 1)
  }

  lemma {:induction false} Pow2Add(a: nat, b: nat)
    ensures Pow2(a + b) == Pow2(a) * Pow2(b)
  {
    if a > 0 {
      Pow2Add(a - 1, b);
    }
  }

  lemma {:induction false} Pow2Monotone(a: nat, b: nat)
    requires a <= b
    ensures Pow2(a) <= Pow2(b)
  {
    if a < b {
      Pow2Monotone(a, b - 1);
    }
  }

  lemma Pow2Byte()
    ensures Pow2(8) == 0x100
  {
    assert Pow2(8) == 0x100;
  }

  lemma Pow2Values()
    ensures Pow2(8) == 0x100 && Pow2(9) == 512 && Pow2(10) == 1024
    ensures Pow2(14) == 0x4000 && Pow2(15) == 0x8000 && Pow2(16) == 0x1_0000
    ensures Pow2(20) == 0x10_0000 && Pow2(32) == U32_LIMIT
  {
    assert Pow2(8) == 0x100;
    assert Pow2(16) == 0x1_0000;
    Pow2Add(16, 4);
    Pow2Add(16, 16);
  }

  /** `x` shifted left by `n` bits. */
  function ShiftLeft(x: nat, n: nat): nat
  {
    if n == 0 then x else 2 * ShiftLeft(x, n - 1)
  }

  lemma {:induction false} ShiftLeftIsMul(x: nat, n: nat)
    ensures ShiftLeft(x, n) == x * Pow2(n)
  {
    if n > 0 {
      ShiftLeftIsMul(x, n - 1);
      MulTwice(x, Pow2(n - 1));
    }
  }

  lemma MulTwice(x: int, y: int)
    ensures x * (2 * y) == 2 * (x * y)
  {
  }

  /** A product of a positive factor and a factor of at least 1 is at least the former. */
  lemma MulAtLeast(x: int, c: int)
    requires x >= 1 && c > 0
    ensures x * c >= c
  {
  }

  /** Euclidean division is unique: `q*c + s` with `0 <= s < c` has quotient `q`, remainder `s`. */
  lemma DivModUnique(x: int, q: int, s: int, c: int)
    requires c > 0 && x == q * c + s && 0 <= s < c
    ensures x % c == s && x / c == q
  {
    var q', s' := x / c, x % c;
    assert x == q' * c + s';
    assert (q - q') * c == s' - s;
    if q - q' >= 1 {
      MulAtLeast(q - q', c);
    }
    if q' - q >= 1 {
      MulAtLeast(q' - q, c);
    }
  }

  /** Truncation to 32 bits, as a C conversion to `uint32_t` does. */
  function Wrap32(x: int): (r: u32)
    ensures 0 <= x < U32_LIMIT ==> r == x
    ensures (r - x) % U32_LIMIT == 0
  {
    x % U32_LIMIT
  }

  /** Truncation to 64 bits, as a C conversion to `uint64_t` does. */
  function Wrap64(x: int): (r: u64)
    ensures 0 <= x < U64_LIMIT ==> r == x
    ensures (r - x) % U64_LIMIT == 0
  {
    x % U64_LIMIT
  }

  /** The two's complement reading of a 32-bit word (a cast to `int32_t`). */
  function ToSigned32(x: u32): (r: s32)
    ensures Wrap32(r) == x
    ensures x < 0x8000_0000 <==> r >= 0
  {
    if x < 0x8000_0000 then x else x - U32_LIMIT
  }
}
