/**
 * Byte-level helpers of the FBX reader: little-endian words as `memcpy`
 * reads them on a little-endian host, the `strncmp`/`strncpy` string
 * helpers, and `AK_FBX__Ceil_Pow2`.
 *
 * A byte at an index outside the buffer reads as 0.  For C strings this is
 * the terminating NUL; for a word or a name read past the end of the file,
 * where the source reads beyond its buffer, it is a value the model chooses.
 */
module FbxBytes {
  import opened Bits

  /** The byte at `i`, or 0 outside the buffer. */
  function ByteAt(data: seq<u8>, i: int): u8
  {
    if 0 <= i < |data| then data[i] else 0
  }

  /** The `n`-byte little-endian word starting at `at`. */
  function LittleEndian(data: seq<u8>, at: int, n: nat): nat
    decreases n, at
  {
    if n == 0 then 0 else ByteAt(data, at) + 0x100 * LittleEndian(data, at + 1, n - 1)
  }

  /** An `n`-byte word is below 2^(8n). */
  lemma {:induction false} LittleEndianBound(data: seq<u8>, at: int, n: nat)
    ensures LittleEndian(data, at, n) < Pow2(8 * n)
    decreases n
  {
    if n > 0 {
      LittleEndianBound(data, at + 1, n - 1);
      ByteShiftBound(ByteAt(data, at), LittleEndian(data, at + 1, n - 1), n);
    }
  }

  /** A byte below an `n - 1`-byte word makes an `n`-byte word. */
  lemma ByteShiftBound(b: nat, rest: nat, n: nat)
    requires n > 0 && b < 0x100 && rest < Pow2(8 * (n - 1))
    ensures b + 0x100 * rest < Pow2(8 * n)
  {
    var below := Pow2(8 * (n - 1));
    Pow2Add(8, 8 * (n - 1));
    Pow2Byte();
    assert Pow2(8 * n) == 0x100 * below;
    assert rest <= below - 1;
  }

  /** An `n`-byte word is its low byte below an `n - 1`-byte word. */
  lemma ByteSplit(x: nat, n: nat)
    requires n > 0 && x < Pow2(8 * n)
    ensures x == x % 0x100 + 0x100 * (x / 0x100) && x / 0x100 < Pow2(8 * (n - 1))
  {
    Pow2Add(8, 8 * (n - 1));
    Pow2Byte();
  }

  /** The `n` bytes of `x`, least significant first: the inverse of `LittleEndian`. */
  function EncodeLittleEndian(x: nat, n: nat): (r: seq<u8>)
    ensures |r| == n
  {
    if n == 0 then [] else [x % 0x100] + EncodeLittleEndian(x / 0x100, n - 1)
  }

  /** Reading back an encoded word gives the word. */
  lemma {:induction false} LittleEndianOfEncode(x: nat, n: nat)
    requires x < Pow2(8 * n)
    ensures LittleEndian(EncodeLittleEndian(x, n), 0, n) == x
  {
    if n > 0 {
      ByteSplit(x, n);
      var tail := EncodeLittleEndian(x / 0x100, n - 1);
      LittleEndianOfEncode(x / 0x100, n - 1);
      LittleEndianShift(tail, x % 0x100, n - 1);
    }
  }

  /** Prepending a byte moves a word starting at 0 to start at 1. */
  lemma {:induction false} LittleEndianShift(data: seq<u8>, b: u8, n: nat)
    ensures LittleEndian([b] + data, 1, n) == LittleEndian(data, 0, n)
  {
    LittleEndianShiftAt([b] + data, data, 1, n);
  }

  lemma {:induction false} LittleEndianShiftAt(longer: seq<u8>, data: seq<u8>, at: nat, n: nat)
    requires at <= |longer| && longer[at..] == data
    ensures LittleEndian(longer, at, n) == LittleEndian(data, 0, n)
    decreases n
  {
    if n > 0 {
      assert ByteAt(longer, at) == ByteAt(data, 0);
      if at + 1 <= |longer| {
        assert longer[at + 1..] == data[1..];
        LittleEndianShiftAt(longer, data[1..], at + 1, n - 1);
        LittleEndianShiftAt(data, data[1..], 1, n - 1);
      } else {
        LittleEndianPastEnd(longer, at + 1, n - 1);
        LittleEndianPastEnd(data, 1, n - 1);
      }
    }
  }

  /** A word starting past the end of the buffer reads as 0. */
  lemma {:induction false} LittleEndianPastEnd(data: seq<u8>, at: int, n: nat)
    requires at >= |data|
    ensures LittleEndian(data, at, n) == 0
    decreases n
  {
    if n > 0 {
      LittleEndianPastEnd(data, at + 1, n - 1);
    }
  }

  /** Encoding the word read from `n` in-range bytes gives those bytes back. */
  lemma {:induction false} EncodeOfLittleEndian(data: seq<u8>, at: nat, n: nat)
    requires at + n <= |data|
    ensures EncodeLittleEndian(LittleEndian(data, at, n), n) == data[at..at + n]
    decreases n
  {
    if n > 0 {
      var rest := LittleEndian(data, at + 1, n - 1);
      EncodeOfLittleEndian(data, at + 1, n - 1);
      var x := data[at] + 0x100 * rest;
      assert x % 0x100 == data[at] && x / 0x100 == rest by {
        DivModUnique(x, rest, data[at], 0x100);
      }
      assert data[at..at + n] == [data[at]] + data[at + 1..at + n];
    }
  }

  /** The byte `strncmp` sees at `i` of a NUL-terminated string. */
  function CharAt(s: seq<u8>, i: nat): u8
  {
    if i < |s| then s[i] else 0
  }

  /**
   * `strncmp(a, b, n) == 0`: the strings agree on the first `n` bytes or up
   * to and including a common NUL, whichever comes first.
   */
  predicate StrNEqual(a: seq<u8>, b: seq<u8>, n: nat)
    decreases n
  {
    n == 0 ||
    (CharAt(a, 0) == CharAt(b, 0) &&
     (CharAt(a, 0) == 0 || StrNEqual(if a == [] then [] else a[1..], if b == [] then [] else b[1..], n - 1)))
  }

  /** No NUL among the bytes. */
  predicate NulFree(s: seq<u8>)
  {
    forall i :: 0 <= i < |s| ==> s[i] != 0
  }

  /** For NUL-free operands of at least `n` bytes, `strncmp` compares the first `n` bytes. */
  lemma {:induction false} StrNEqualNulFree(a: seq<u8>, b: seq<u8>, n: nat)
    requires NulFree(a) && NulFree(b) && n <= |a| && n <= |b|
    ensures StrNEqual(a, b, n) <==> a[..n] == b[..n]
    decreases n
  {
    if n > 0 {
      StrNEqualNulFree(a[1..], b[1..], n - 1);
      assert a[..n] == [a[0]] + a[1..][..n - 1];
      assert b[..n] == [b[0]] + b[1..][..n - 1];
    }
  }

  /** `AK_FBX__Str_Cmp`: the sizes agree and `strncmp` over that size reports equal. */
  predicate StrCmp(s: seq<u8>, str: seq<u8>, n: nat)
  {
    |s| == n && StrNEqual(s, str, n)
  }

  /** On NUL-free strings, `Str_Cmp(s, lit, |lit|)` is string equality. */
  lemma StrCmpIsEquality(s: seq<u8>, lit: seq<u8>)
    requires NulFree(s) && NulFree(lit)
    ensures StrCmp(s, lit, |lit|) <==> s == lit
  {
    if |s| == |lit| {
      StrNEqualNulFree(s, lit, |lit|);
      assert s[..|lit|] == s && lit[..|lit|] == lit;
    }
  }

  /**
   * `strncpy(dst, src, n)`: the bytes of `src` up to its first NUL, then
   * NUL padding, `n` bytes in all.
   */
  function StrNCopy(src: seq<u8>, n: nat): (r: seq<u8>)
    ensures |r| == n
    ensures forall i :: 0 <= i < n ==> r[i] == 0 || r[i] == CharAt(src, i)
    decreases n
  {
    if n == 0 then []
    else if CharAt(src, 0) == 0 then seq(n, _ => 0)
    else
      var tail := StrNCopy(src[1..], n - 1);
      assert forall i :: 1 <= i < n ==> CharAt(src[1..], i - 1) == CharAt(src, i);
      [src[0]] + tail
  }

  /** The copy compares equal to its source over the copied length. */
  lemma {:induction false} StrNCopyCompares(src: seq<u8>, n: nat)
    ensures StrNEqual(StrNCopy(src, n), src, n)
    decreases n
  {
    if n > 0 && CharAt(src, 0) != 0 {
      StrNCopyCompares(src[1..], n - 1);
      assert StrNCopy(src, n)[1..] == StrNCopy(src[1..], n - 1);
    }
  }

  /** A NUL-free source of at least `n` bytes is copied exactly. */
  lemma {:induction false} StrNCopyNulFree(src: seq<u8>, n: nat)
    requires NulFree(src) && n <= |src|
    ensures StrNCopy(src, n) == src[..n]
    decreases n
  {
    if n > 0 {
      StrNCopyNulFree(src[1..], n - 1);
      assert src[..n] == [src[0]] + src[1..][..n - 1];
    }
  }

  /**
   * `AK_FBX__Ceil_Pow2`: decrement, smear the top bit down, increment.  For
   * `1 <= v <= 2^31` the result is the least power of two not below `v`; for
   * 0 and for values above `2^31` the arithmetic wraps round to 0.
   */
  function CeilPow2(v: bv32): (r: bv32)
    ensures 1 <= v <= 0x8000_0000 ==> r != 0 && r & (r - 1) == 0 && v <= r && r >> 1 < v
    ensures (v == 0 || v > 0x8000_0000) ==> r == 0
  {
    var a := v - 1;
    var b := a | (a >> 1);
    var c := b | (b >> 2);
    var d := c | (c >> 4);
    var e := d | (d >> 8);
    var f := e | (e >> 16);
    f + 1
  }
}
