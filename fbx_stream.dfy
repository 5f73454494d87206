/**
 * `ak_fbx__stream`: a cursor `at` over a window of `length` bytes that
 * starts at byte `base` of the file.  Reads come from the whole file
 * buffer, so reading beyond `length` sees the bytes that follow the
 * window; only beyond the end of the buffer do bytes read as 0.
 */
module FbxStream {
  import opened Bits
  import opened Wrappers
  import opened FbxBytes

  /** The `n` bytes from position `from` of the buffer, zero past its end. */
  function Window(data: seq<u8>, from: nat, n: nat): (r: seq<u8>)
    ensures |r| == n
  {
    seq<u8>(n, j requires 0 <= j < n => ByteAt(data, from + j))
  }

  /** Inside the buffer, the window is the slice. */
  lemma WindowInside(data: seq<u8>, from: nat, n: nat)
    requires from + n <= |data|
    ensures Window(data, from, n) == data[from..from + n]
  {
    var w := Window(data, from, n);
    forall j | 0 <= j < n
      ensures w[j] == data[from..from + n][j]
    {
      assert w[j] == ByteAt(data, from + j);
    }
  }

  /** A word copied out of the buffer by `memcpy` has the value of the word in place. */
  lemma {:induction false} LittleEndianWindow(data: seq<u8>, from: nat, n: nat)
    ensures LittleEndian(Window(data, from, n), 0, n) == LittleEndian(data, from, n)
  {
    LittleEndianWindowAt(data, from, n, n);
  }

  lemma {:induction false} LittleEndianWindowAt(data: seq<u8>, from: nat, n: nat, k: nat)
    requires k <= n
    ensures LittleEndian(Window(data, from, n), n - k, k) == LittleEndian(data, from + n - k, k)
    decreases k
  {
    if k > 0 {
      LittleEndianWindowAt(data, from, n, k - 1);
      assert ByteAt(Window(data, from, n), n - k) == ByteAt(data, from + n - k);
    }
  }

  /** The word size of a node record: 64-bit from file version 7500 on. */
  function WordSize(is64: bool): nat
  {
    if is64 then 8 else 4
  }

  class Stream {
    const data: seq<u8>
    const base: nat
    const length: nat
    var at: nat

    constructor Create(data: seq<u8>, base: nat, length: nat, at: nat)
      ensures this.data == data && this.base == base && this.length == length && this.at == at
    {
      this.data := data;
      this.base := base;
      this.length := length;
      this.at := at;
    }

    /** `AK_FBX__Stream_Is_Valid`. */
    predicate IsValid()
      reads this
    {
      at < length
    }

    /** The bytes left in the window, 0 once the cursor is at or past its end. */
    function Remaining(): nat
      reads this
    {
      if at < length then length - at else 0
    }

    /** `AK_FBX__Stream_Peek`: the position of the cursor in the buffer, `None` at the end of the window. */
    method Peek() returns (r: Option<nat>)
      ensures r == if at >= length then None else Some(base + at)
    {
      if at >= length {
        return None;
      }
      return Some(base + at);
    }

    /** `AK_FBX__Stream_Skip`. */
    method Skip(offset: nat)
      modifies this
      ensures at == old(at) + offset
    {
      if offset != 0 {
        at := at + offset;
      }
    }

    /** `AK_FBX__Stream_Consume`: the `size` bytes at the cursor, which moves past them. */
    method Consume(size: nat) returns (bytes: seq<u8>)
      modifies this
      ensures at == old(at) + size
      ensures bytes == Window(data, base + old(at), size)
    {
      if size == 0 {
        // The source returns a null pointer, from which nothing is copied.
        return [];
      }
      bytes := Window(data, base + at, size);
      at := at + size;
    }

    /** `AK_FBX__Stream_Consume8`/`16`/`32`/`64`: the little-endian word of `n` bytes at the cursor. */
    method ConsumeWord(n: nat) returns (x: nat)
      modifies this
      ensures at == old(at) + n
      ensures x == LittleEndian(data, base + old(at), n) && x < Pow2(8 * n)
    {
      ghost var from := base + at;
      var bytes := Consume(n);
      x := LittleEndian(bytes, 0, n);
      LittleEndianWindow(data, from, n);
      LittleEndianBound(bytes, 0, n);
    }

    /** `AK_FBX__Stream_Consume8` read as a byte. */
    method ConsumeByte() returns (b: u8)
      modifies this
      ensures at == old(at) + 1
      ensures b == ByteAt(data, base + old(at))
    {
      b := ByteAt(data, base + at);
      at := at + 1;
    }

    /** `AK_FBX__BINARY_READ_WORD`: a 64-bit word in 64-bit files, a 32-bit one otherwise. */
    method ReadWord(is64: bool) returns (x: nat)
      modifies this
      ensures at == old(at) + WordSize(is64)
      ensures x == LittleEndian(data, base + old(at), WordSize(is64))
    {
      x := ConsumeWord(WordSize(is64));
    }
  }
}
