/**
 * Bit-level reading of a DEFLATE stream (section 3.1.1 of RFC 1951): bytes
 * are consumed in order and the bits of each byte from the least
 * significant one up.  Data elements are read least significant bit first;
 * Huffman codes most significant bit first.  A byte past the end of the
 * input reads as 0, as `ak_fbx__stbi__zget8` returns 0 at end of input.
 */
module ZlibBits {
  import opened Bits
  import opened FbxBytes

  /** Bit `i` of a 16-bit word. */
  function BitAt(x: bv16, i: bv16): bv16
    requires i < 16
  {
    (x >> i) & 1
  }

  /**
   * `ak_fbx__stbi__bitreverse16`: four swap stages, of neighbouring bits,
   * pairs, nibbles and bytes.  The masks drop every bit above the low 16, so
   * the word is modelled as a `bv16`.
   */
  function BitReverse16(n: bv16): bv16
  {
    var a := ((n & 0xAAAA) >> 1) | ((n & 0x5555) << 1);
    var b := ((a & 0xCCCC) >> 2) | ((a & 0x3333) << 2);
    var c := ((b & 0xF0F0) >> 4) | ((b & 0x0F0F) << 4);
    ((c & 0xFF00) >> 8) | ((c & 0x00FF) << 8)
  }

  /** The swap network moves bit `i` to bit `15 - i`. */
  lemma BitReverse16Bit(n: bv16, i: bv16)
    requires i < 16
    ensures BitAt(BitReverse16(n), i) == BitAt(n, 15 - i)
  {
  }

  /** Reversing twice gives the word back. */
  lemma BitReverse16Involution(n: bv16)
    ensures BitReverse16(BitReverse16(n)) == n
  {
  }

  /** `ak_fbx__stbi__bit_reverse`: reverse all 16 bits, then shift away the `16 - bits` low ones. */
  function BitReverse(v: bv16, bits: bv16): bv16
    requires bits <= 16
  {
    BitReverse16(v) >> (16 - bits)
  }

  /** Bit `i < bits` of the result is bit `bits - 1 - i` of `v`. */
  lemma BitReverseBit(v: bv16, bits: bv16, i: bv16)
    requires bits <= 16 && i < bits
    ensures BitAt(BitReverse(v, bits), i) == BitAt(v, bits - 1 - i)
  {
  }

  /** Bits at `bits` and above are clear. */
  lemma BitReverseHigh(v: bv16, bits: bv16, i: bv16)
    requires bits <= 16 && bits <= i < 16
    ensures BitAt(BitReverse(v, bits), i) == 0
  {
  }

  /** `bit_reverse(v, bits)` is the low `bits` bits of `v` in reverse order, with nothing above them. */
  lemma BitReverseReverses(v: bv16, bits: bv16)
    requires bits <= 16
    ensures forall i: bv16 :: i < bits ==> BitAt(BitReverse(v, bits), i) == BitAt(v, bits - 1 - i)
    ensures forall i: bv16 :: bits <= i < 16 ==> BitAt(BitReverse(v, bits), i) == 0
  {
    forall i: bv16 | i < bits
      ensures BitAt(BitReverse(v, bits), i) == BitAt(v, bits - 1 - i)
    {
      BitReverseBit(v, bits, i);
    }
    forall i: bv16 | bits <= i < 16
      ensures BitAt(BitReverse(v, bits), i) == 0
    {
      BitReverseHigh(v, bits, i);
    }
  }

  /** Bit `j` of `x`, counting from the least significant. */
  function BitOf(x: nat, j: nat): (b: nat)
    ensures b < 2
  {
    if j == 0 then x % 2 else BitOf(x / 2, j - 1)
  }

  /** Bit `i` of the stream: bit `i % 8` of byte `i / 8`, as `ByteIndex` and `BitIndex` compute them. */
  function Bit(input: seq<u8>, i: nat): (b: nat)
    ensures b < 2
  {
    BitOf(ByteAt(input, ByteIndex(i)), BitIndex(i))
  }

  /** The byte holding stream bit `i`, counted off eight bits at a time. */
  function ByteIndex(i: nat): nat
  {
    if i < 8 then 0 else 1 + ByteIndex(i - 8)
  }

  /** The position of stream bit `i` within its byte. */
  function BitIndex(i: nat): nat
  {
    if i < 8 then i else BitIndex(i - 8)
  }

  /** `ByteIndex` and `BitIndex` are the quotient and remainder by 8. */
  lemma {:induction false} BitPosition(i: nat)
    ensures ByteIndex(i) == i / 8 && BitIndex(i) == i % 8
  {
    if i >= 8 {
      BitPosition(i - 8);
    }
  }

  /** The `n` stream bits from bit `p` as a data element, the first bit least significant. */
  function StreamBits(input: seq<u8>, p: nat, n: nat): (r: nat)
    ensures r < Pow2(n)
    decreases n, p
  {
    if n == 0 then 0 else Bit(input, p) + 2 * StreamBits(input, p + 1, n - 1)
  }

  /** The `n` stream bits from bit `p` as a Huffman code, the first bit most significant. */
  function StreamCode(input: seq<u8>, p: nat, n: nat): (r: nat)
    ensures r < Pow2(n)
    decreases n, p
  {
    if n == 0 then 0 else Bit(input, p) * Pow2(n - 1) + StreamCode(input, p + 1, n - 1)
  }

  /** The low `n` bits of `x` in reverse order, as arithmetic on integers. */
  function ReverseBits(x: nat, n: nat): nat
    decreases n
  {
    if n == 0 then 0 else (x % 2) * Pow2(n - 1) + ReverseBits(x / 2, n - 1)
  }

  /** Reading a data element and reversing it gives the same bits read as a code. */
  lemma {:induction false} ReverseStreamBits(input: seq<u8>, p: nat, n: nat)
    ensures ReverseBits(StreamBits(input, p, n), n) == StreamCode(input, p, n)
    decreases n
  {
    if n > 0 {
      var x := StreamBits(input, p, n);
      DivModUnique(x, StreamBits(input, p + 1, n - 1), Bit(input, p), 2);
      ReverseStreamBits(input, p + 1, n - 1);
    }
  }

  /** `a + b` bits split into the first `a` (low) and the next `b` (high). */
  lemma {:induction false} StreamBitsSplit(input: seq<u8>, p: nat, a: nat, b: nat)
    ensures StreamBits(input, p, a + b) == StreamBits(input, p + a, b) * Pow2(a) + StreamBits(input, p, a)
    decreases a
  {
    if a > 0 {
      StreamBitsSplit(input, p + 1, a - 1, b);
      MulAssoc(StreamBits(input, p + a, b), 2, Pow2(a - 1));
    }
  }

  lemma MulAssoc(x: int, y: int, z: int)
    ensures x * (y * z) == (x * y) * z == y * (x * z)
  {
  }

  /** One Horner step of a split code: the high bit, then the rest. */
  lemma HornerStep(whole: int, rest: int, code: int, top: int, lo: int, hi: int, q: int, r: int)
    requires whole == top * (q * r) + rest && rest == lo * r + hi && code == top * q + lo
    ensures whole == code * r + hi
  {
    MulAssoc(top, q, r);
    MulDistrib(top * q, lo, r);
  }

  lemma MulDistrib(x: int, y: int, z: int)
    ensures (x + y) * z == x * z + y * z
  {
  }

  /** Of `n >= a` buffered bits, the remainder by `2^a` is the first `a`, the quotient the rest. */
  lemma StreamBitsTake(input: seq<u8>, p: nat, a: nat, n: nat)
    requires a <= n
    ensures StreamBits(input, p, n) % Pow2(a) == StreamBits(input, p, a)
    ensures StreamBits(input, p, n) / Pow2(a) == StreamBits(input, p + a, n - a)
  {
    StreamBitsSplit(input, p, a, n - a);
    DivModUnique(StreamBits(input, p, n), StreamBits(input, p + a, n - a), StreamBits(input, p, a), Pow2(a));
  }

  /** `a + b` code bits: the first `a` are the high part. */
  lemma {:induction false} StreamCodeSplit(input: seq<u8>, p: nat, a: nat, b: nat)
    ensures StreamCode(input, p, a + b) == StreamCode(input, p, a) * Pow2(b) + StreamCode(input, p + a, b)
    decreases a
  {
    if a > 0 {
      StreamCodeSplit(input, p + 1, a - 1, b);
      var top: int, lo: int, hi: int := Bit(input, p), StreamCode(input, p + 1, a - 1), StreamCode(input, p + a, b);
      var q: int, r: int := Pow2(a - 1), Pow2(b);
      Pow2Add(a - 1, b);
      HornerStep(StreamCode(input, p, a + b), StreamCode(input, p + 1, a - 1 + b), StreamCode(input, p, a), top, lo, hi, q, r);
    }
  }

  /** The leading `s` bits of a 16-bit code are its quotient by `2^(16 - s)`. */
  lemma StreamCodePrefix(input: seq<u8>, p: nat, s: nat)
    requires s <= 16
    ensures StreamCode(input, p, 16) / Pow2(16 - s) == StreamCode(input, p, s)
  {
    StreamCodeSplit(input, p, s, 16 - s);
    DivModUnique(StreamCode(input, p, 16), StreamCode(input, p, s), StreamCode(input, p + s, 16 - s), Pow2(16 - s));
  }

  /** Bits past the end of the input are 0. */
  lemma {:induction false} StreamBitsPastEnd(input: seq<u8>, p: nat, n: nat)
    requires p >= 8 * |input|
    ensures StreamBits(input, p, n) == 0
    decreases n
  {
    if n > 0 {
      BitPosition(p);
      BitOfZero(p % 8);
      StreamBitsPastEnd(input, p + 1, n - 1);
    }
  }

  lemma {:induction false} BitOfZero(j: nat)
    ensures BitOf(0, j) == 0
  {
    if j > 0 {
      BitOfZero(j - 1);
    }
  }

  /** A whole byte at an 8-bit boundary of the stream reads back as that byte. */
  lemma StreamByte(input: seq<u8>, q: nat)
    ensures StreamBits(input, 8 * q, 8) == ByteAt(input, q)
  {
    StreamByteFrom(input, q, 0);
    ShiftByte(ByteAt(input, q));
  }

  /** `x` shifted right by `j` bits. */
  function Shift(x: nat, j: nat): nat
  {
    if j == 0 then x else Shift(x / 2, j - 1)
  }

  lemma {:induction false} ShiftStep(x: nat, j: nat)
    ensures BitOf(x, j) == Shift(x, j) % 2
    ensures Shift(x, j + 1) == Shift(x, j) / 2
  {
    if j > 0 {
      ShiftStep(x / 2, j - 1);
    }
  }

  lemma ShiftByte(x: u8)
    ensures Shift(x, 8) == 0
  {
    Pow2Values();
    ShiftBelow(x, 8);
  }

  lemma {:induction false} ShiftBelow(x: nat, n: nat)
    requires x < Pow2(n)
    ensures Shift(x, n) == 0
  {
    if n > 0 {
      ShiftBelow(x / 2, n - 1);
    }
  }

  /** The bits of byte `q` from bit `j` on are the byte shifted right by `j`. */
  lemma {:induction false} StreamByteFrom(input: seq<u8>, q: nat, j: nat)
    requires j <= 8
    ensures StreamBits(input, 8 * q + j, 8 - j) == Shift(ByteAt(input, q), j)
    decreases 8 - j
  {
    var x := ByteAt(input, q);
    if j == 8 {
      ShiftByte(x);
    } else {
      StreamByteFrom(input, q, j + 1);
      DivModUnique(8 * q + j, q, j, 8);
      BitPosition(8 * q + j);
      ShiftStep(x, j);
    }
  }

  /** The low `n` bits of `x`, what the mask `(1 << n) - 1` keeps. */
  function LowBits(x: nat, n: nat): (r: nat)
    ensures r < Pow2(n)
  {
    if n == 0 then 0 else x % 2 + 2 * LowBits(x / 2, n - 1)
  }

  /**
   * Of a buffer holding the `m` stream bits from `p`, the low `n <= m` bits
   * are the first `n` stream bits and the buffer shifted right by `n` holds
   * the rest.
   */
  lemma {:induction false} BufferTake(input: seq<u8>, p: nat, m: nat, n: nat, buffer: nat)
    requires n <= m && buffer == StreamBits(input, p, m)
    ensures LowBits(buffer, n) == StreamBits(input, p, n)
    ensures Shift(buffer, n) == StreamBits(input, p + n, m - n)
    decreases n
  {
    if n > 0 {
      DivModUnique(buffer, StreamBits(input, p + 1, m - 1), Bit(input, p), 2);
      BufferTake(input, p + 1, m - 1, n - 1, buffer / 2);
    }
  }

  /** Shifting an `n`-bit code right by `j` leaves its first `n - j` bits. */
  lemma {:induction false} ShiftCode(input: seq<u8>, p: nat, n: nat, j: nat)
    requires j <= n
    ensures Shift(StreamCode(input, p, n), j) == StreamCode(input, p, n - j)
    decreases j
  {
    if j > 0 {
      var c := StreamCode(input, p, n);
      StreamCodeSplit(input, p, n - 1, 1);
      assert StreamCode(input, p + (n - 1), 1) == Bit(input, p + n - 1);
      DivModUnique(c, StreamCode(input, p, n - 1), Bit(input, p + n - 1), 2);
      ShiftCode(input, p, n - 1, j - 1);
    }
  }

  /** `StreamByte` at a bit position known to be the boundary of byte `q`. */
  lemma StreamByteAt(input: seq<u8>, r: nat, q: nat)
    requires r == 8 * q
    ensures StreamBits(input, r, 8) == ByteAt(input, q)
  {
    StreamByte(input, q);
  }

  /** `a + b` stream bits: the next `b` shifted left past the first `a`. */
  lemma StreamBitsAppend(input: seq<u8>, p: nat, a: nat, b: nat)
    ensures StreamBits(input, p, a + b) == ShiftLeft(StreamBits(input, p + a, b), a) + StreamBits(input, p, a)
  {
    StreamBitsSplit(input, p, a, b);
    ShiftLeftIsMul(StreamBits(input, p + a, b), a);
  }
}
