/**
 * The properties of a binary FBX node record (`AK_FBX__Binary_Read_Property`):
 * a one-byte type code followed by a scalar, a length-prefixed blob or an
 * array header (element count, encoding, stored size) and the stored
 * elements, either plain (encoding 0) or as a zlib stream (encoding 1).
 *
 * `Extent` and `Decoded` describe the format on the bytes of the file;
 * `ReadProperty` is the reader, proved against them, and `Encode` is the
 * writer that `Decoded` inverts.
 */
module FbxProperty {
  import opened Bits
  import opened Wrappers
  import opened FbxBytes
  import opened FbxStream
  import opened ZlibInflate

  const CODE_S16: u8 := 0x59         // 'Y'
  const CODE_BOOL: u8 := 0x43        // 'C'
  const CODE_S32: u8 := 0x49         // 'I'
  const CODE_F32: u8 := 0x46         // 'F'
  const CODE_F64: u8 := 0x44         // 'D'
  const CODE_S64: u8 := 0x4C         // 'L'
  const CODE_RAW: u8 := 0x52         // 'R'
  const CODE_STRING: u8 := 0x53      // 'S'
  const CODE_BOOL_ARRAY: u8 := 0x62  // 'b'
  const CODE_CHAR_ARRAY: u8 := 0x63  // 'c'
  const CODE_F32_ARRAY: u8 := 0x66   // 'f'
  const CODE_F64_ARRAY: u8 := 0x64   // 'd'
  const CODE_S64_ARRAY: u8 := 0x6C   // 'l'
  const CODE_S32_ARRAY: u8 := 0x69   // 'i'

  /** Sizes of the fields of a property record. */
  const CODE_SIZE: nat := 1
  const LENGTH_SIZE: nat := 4
  const ARRAY_HEADER_SIZE: nat := 12
  const S16_SIZE: nat := 2
  const BYTE_SIZE: nat := 1
  const S32_SIZE: nat := 4
  const S64_SIZE: nat := 8

  /** The array encodings the reader accepts. */
  const ENCODING_PLAIN: nat := 0
  const ENCODING_ZLIB: nat := 1

  datatype ArrayKind = BoolArray | F32Array | S32Array | S64Array | F64Array

  /**
   * A decoded property.  Floating-point values are kept as their bit
   * patterns; an array keeps its element count and its decoded bytes.
   * `Bool` holds the `C` byte as the source's signed `s8` field reads
   * it: bytes 0x80 and above are -128 .. -1.
   */
  datatype Property =
    | S16(s16: int)
    | Bool(flag: int)
    | S32(s32: int)
    | F32(f32Bits: nat)
    | F64(f64Bits: nat)
    | S64(s64: int)
    | Buffer(bytes: seq<u8>)
    | Str(chars: seq<u8>)
    | Array(kind: ArrayKind, count: nat, payload: seq<u8>)

  predicate IsScalarCode(code: u8)
  {
    code in {CODE_S16, CODE_BOOL, CODE_S32, CODE_F32, CODE_F64, CODE_S64}
  }

  predicate IsBlobCode(code: u8)
  {
    code == CODE_RAW || code == CODE_STRING
  }

  predicate IsArrayCode(code: u8)
  {
    code in {CODE_BOOL_ARRAY, CODE_CHAR_ARRAY, CODE_F32_ARRAY, CODE_F64_ARRAY, CODE_S64_ARRAY, CODE_S32_ARRAY}
  }

  /** The size of the value of a scalar property. */
  function ScalarSize(code: u8): nat
  {
    if code == CODE_S16 then S16_SIZE
    else if code == CODE_BOOL then BYTE_SIZE
    else if code == CODE_S32 || code == CODE_F32 then S32_SIZE
    else S64_SIZE
  }

  /** The size of one element of an array property. */
  function Stride(code: u8): nat
  {
    if code == CODE_BOOL_ARRAY || code == CODE_CHAR_ARRAY then 1
    else if code == CODE_F32_ARRAY || code == CODE_S32_ARRAY then 4
    else 8
  }

  function KindOf(code: u8): ArrayKind
  {
    if code == CODE_BOOL_ARRAY || code == CODE_CHAR_ARRAY then BoolArray
    else if code == CODE_F32_ARRAY then F32Array
    else if code == CODE_S32_ARRAY then S32Array
    else if code == CODE_S64_ARRAY then S64Array
    else F64Array
  }

  /** The code a writer uses for an array kind. */
  function ArrayCode(kind: ArrayKind): (code: u8)
    ensures IsArrayCode(code) && KindOf(code) == kind
  {
    match kind
    case BoolArray => CODE_BOOL_ARRAY
    case F32Array => CODE_F32_ARRAY
    case S32Array => CODE_S32_ARRAY
    case S64Array => CODE_S64_ARRAY
    case F64Array => CODE_F64_ARRAY
  }

  function ElementSize(kind: ArrayKind): nat
  {
    Stride(ArrayCode(kind))
  }

  /** The two's complement reading of an unsigned word whose sign bit is worth `half`. */
  function Signed(x: int, half: int): int
  {
    if x < half then x else x - 2 * half
  }

  /** The unsigned word with the bits of `v`, the inverse of `Signed`. */
  function Unsigned(v: int, half: int): int
  {
    if v < 0 then v + 2 * half else v
  }

  const HALF8: int := 0x80
  const HALF16: int := 0x8000
  const HALF32: int := 0x8000_0000
  const HALF64: int := 0x8000_0000_0000_0000

  /** The 32-bit length field that follows a type code. */
  function LengthField(data: seq<u8>, pos: nat, k: nat): (r: nat)
    ensures r < U32_LIMIT
  {
    LittleEndianBound(data, pos + CODE_SIZE + LENGTH_SIZE * k, LENGTH_SIZE);
    Pow32();
    LittleEndian(data, pos + CODE_SIZE + LENGTH_SIZE * k, LENGTH_SIZE)
  }

  /** Whether the property at `pos` is a zlib-compressed array. */
  predicate Compressed(data: seq<u8>, pos: nat)
  {
    IsArrayCode(ByteAt(data, pos)) && LengthField(data, pos, 1) == ENCODING_ZLIB
  }

  /**
   * How many bytes the reader consumes for the property at `pos`: the
   * whole record for a known code, the code byte alone for an unknown one.
   */
  function Extent(data: seq<u8>, pos: nat): (r: nat)
    ensures r >= CODE_SIZE
  {
    var code := ByteAt(data, pos);
    if IsScalarCode(code) then CODE_SIZE + ScalarSize(code)
    else if IsBlobCode(code) then CODE_SIZE + LENGTH_SIZE + LengthField(data, pos, 0)
    else if IsArrayCode(code) then CODE_SIZE + ARRAY_HEADER_SIZE + LengthField(data, pos, 2)
    else CODE_SIZE
  }

  /** The scalar property of type `code` whose stored word is `x`. */
  function ScalarValue(code: u8, x: nat): Property
  {
    if code == CODE_S16 then S16(Signed(x, HALF16))
    else if code == CODE_BOOL then Bool(Signed(x, HALF8))
    else if code == CODE_S32 then S32(Signed(x, HALF32))
    else if code == CODE_F32 then F32(x)
    else if code == CODE_F64 then F64(x)
    else S64(Signed(x, HALF64))
  }

  /** The value of a scalar property at `pos`. */
  function DecodedScalar(data: seq<u8>, pos: nat): Property
  {
    var code := ByteAt(data, pos);
    ScalarValue(code, LittleEndian(data, pos + CODE_SIZE, ScalarSize(code)))
  }

  /** The value of a blob property at `pos`: a string keeps what `strncpy` copies. */
  function DecodedBlob(data: seq<u8>, pos: nat): Property
  {
    var n := LengthField(data, pos, 0);
    var bytes := Window(data, pos + CODE_SIZE + LENGTH_SIZE, n);
    if ByteAt(data, pos) == CODE_RAW then Buffer(bytes) else Str(StrNCopy(bytes, n))
  }

  /**
   * The property at `pos` as the reader decodes it, for every record but
   * a compressed array; `None` for an unknown code, an unknown encoding or
   * a plain array whose stored size is not the element count times the
   * element size.
   */
  function Decoded(data: seq<u8>, pos: nat): Option<Property>
  {
    var code := ByteAt(data, pos);
    if IsScalarCode(code) then Some(DecodedScalar(data, pos))
    else if IsBlobCode(code) then Some(DecodedBlob(data, pos))
    else if IsArrayCode(code) then
      var count := LengthField(data, pos, 0);
      var size := LengthField(data, pos, 2);
      if LengthField(data, pos, 1) == ENCODING_PLAIN && size == count * Stride(code) then
        Some(Array(KindOf(code), count, Window(data, pos + CODE_SIZE + ARRAY_HEADER_SIZE, size)))
      else None
    else None
  }

  /** An array `Decoded` accepts holds exactly its element count of elements. */
  lemma DecodedArraySize(data: seq<u8>, pos: nat)
    requires Decoded(data, pos).Some? && Decoded(data, pos).value.Array?
    ensures |Decoded(data, pos).value.payload| == Decoded(data, pos).value.count * ElementSize(Decoded(data, pos).value.kind)
    ensures Extent(data, pos) == CODE_SIZE + ARRAY_HEADER_SIZE + |Decoded(data, pos).value.payload|
  {
  }

  /** `UncompressedLength = ArrayLength*Stride` as the source computes it: a 32-bit product. */
  function UncompressedLengthAsWritten(count: u32, stride: nat): u32
  {
    Wrap32(count * stride)
  }

  /**
   * As written, the expected size of a plain `i` array of 2^30 elements
   * wraps to 0, so a record storing no bytes at all passes the size check
   * and reports 2^30 elements; `Decoded` compares the unwrapped product.
   */
  lemma UncompressedLengthWraps()
    ensures UncompressedLengthAsWritten(0x4000_0000, Stride(CODE_S32_ARRAY)) == 0
    ensures 0x4000_0000 * Stride(CODE_S32_ARRAY) == U32_LIMIT
  {
  }

  /** Decoded integers lie in the range of their C types, and decoded lengths fit 32 bits. */
  lemma DecodedRanges(data: seq<u8>, pos: nat)
    requires Decoded(data, pos).Some?
    ensures WellFormed(Decoded(data, pos).value) || Decoded(data, pos).value.Str?
  {
    var code := ByteAt(data, pos);
    if IsScalarCode(code) {
      LittleEndianBound(data, pos + CODE_SIZE, ScalarSize(code));
      ScalarValueFits(code, LittleEndian(data, pos + CODE_SIZE, ScalarSize(code)));
    } else {
      Pow32();
    }
  }

  /** The scalar read from a word that fits its field is in the range of its type. */
  lemma ScalarValueFits(code: u8, x: nat)
    requires IsScalarCode(code) && x < Pow2(8 * ScalarSize(code))
    ensures WellFormed(ScalarValue(code, x))
  {
    if code == CODE_S16 {
      Pow16();
    } else if code == CODE_BOOL {
      Pow8();
    } else if code == CODE_S32 || code == CODE_F32 {
      Pow32();
    } else {
      Pow64();
    }
  }

  lemma Pow64()
    ensures Pow2(64) == U64_LIMIT
  {
    Pow2Values();
    Pow2Add(32, 32);
  }

  /**
   * The properties a writer can store: integers in the range of their
   * types, lengths that fit the 32-bit fields, strings without a NUL and
   * arrays whose bytes are their elements.
   */
  predicate WellFormed(p: Property)
  {
    match p
    case S16(v) => -HALF16 <= v < HALF16
    case Bool(b) => -HALF8 <= b < HALF8
    case S32(v) => -HALF32 <= v < HALF32
    case F32(x) => x < U32_LIMIT
    case F64(x) => x < U64_LIMIT
    case S64(v) => -HALF64 <= v < HALF64
    case Buffer(bytes) => |bytes| < U32_LIMIT
    case Str(chars) => |chars| < U32_LIMIT && NulFree(chars)
    case Array(kind, count, payload) => count < U32_LIMIT && |payload| == count * ElementSize(kind) < U32_LIMIT
  }

  predicate IsScalar(p: Property)
  {
    p.S16? || p.Bool? || p.S32? || p.F32? || p.F64? || p.S64?
  }

  /** The type code of a scalar property. */
  function ScalarCode(p: Property): (code: u8)
    requires IsScalar(p)
    ensures IsScalarCode(code)
  {
    match p
    case S16(_) => CODE_S16
    case Bool(_) => CODE_BOOL
    case S32(_) => CODE_S32
    case F32(_) => CODE_F32
    case F64(_) => CODE_F64
    case S64(_) => CODE_S64
  }

  /** The stored word of a scalar property: the unsigned word with the bits of the value. */
  function ScalarWord(p: Property): nat
    requires IsScalar(p) && WellFormed(p)
  {
    match p
    case S16(v) => Unsigned(v, HALF16)
    case Bool(b) => Unsigned(b, HALF8)
    case S32(v) => Unsigned(v, HALF32)
    case F32(x) => x
    case F64(x) => x
    case S64(v) => Unsigned(v, HALF64)
  }

  /** A well-formed scalar's word fits its field, and reads back as the scalar. */
  lemma ScalarWordFits(p: Property)
    requires IsScalar(p) && WellFormed(p)
    ensures ScalarWord(p) < Pow2(8 * ScalarSize(ScalarCode(p)))
    ensures ScalarValue(ScalarCode(p), ScalarWord(p)) == p
  {
    match p {
      case S16(_) => Pow16();
      case Bool(_) => Pow8();
      case S32(_) => Pow32();
      case F32(_) => Pow32();
      case F64(_) => Pow64();
      case S64(_) => Pow64();
    }
  }

  /** The record of a length-prefixed blob. */
  function BlobRecord(code: u8, bytes: seq<u8>): seq<u8>
  {
    [code] + EncodeLittleEndian(|bytes|, LENGTH_SIZE) + bytes
  }

  /** The record of a plain array. */
  function ArrayRecord(kind: ArrayKind, count: nat, payload: seq<u8>): seq<u8>
  {
    [ArrayCode(kind)] + EncodeLittleEndian(count, LENGTH_SIZE) + EncodeLittleEndian(ENCODING_PLAIN, LENGTH_SIZE)
      + EncodeLittleEndian(|payload|, LENGTH_SIZE) + payload
  }

  /** The record of a property as an FBX writer stores it; arrays are stored plain. */
  function Encode(p: Property): (r: seq<u8>)
    requires WellFormed(p)
  {
    match p
    case Buffer(bytes) => BlobRecord(CODE_RAW, bytes)
    case Str(chars) => BlobRecord(CODE_STRING, chars)
    case Array(kind, count, payload) => ArrayRecord(kind, count, payload)
    case _ =>
      [ScalarCode(p)] + EncodeLittleEndian(ScalarWord(p), ScalarSize(ScalarCode(p)))
  }

  /** A word stored in place reads back as itself. */
  lemma WordInPlace(data: seq<u8>, at: nat, x: nat, n: nat)
    requires x < Pow2(8 * n) && at + n <= |data| && data[at..at + n] == EncodeLittleEndian(x, n)
    ensures LittleEndian(data, at, n) == x
  {
    LittleEndianWindow(data, at, n);
    WindowInside(data, at, n);
    LittleEndianOfEncode(x, n);
  }

  /** A code byte followed by an `n`-byte word reads back as that word. */
  lemma ScalarInPlace(data: seq<u8>, code: u8, x: nat, n: nat, rest: seq<u8>)
    requires x < Pow2(8 * n)
    requires data == [code] + EncodeLittleEndian(x, n) + rest
    ensures ByteAt(data, 0) == code && LittleEndian(data, CODE_SIZE, n) == x
  {
    assert data[1..1 + n] == EncodeLittleEndian(x, n);
    WordInPlace(data, 1, x, n);
  }

  /** Reading a written property back gives the property, and consumes exactly its record. */
  lemma DecodeOfEncode(p: Property, rest: seq<u8>)
    requires WellFormed(p)
    ensures Decoded(Encode(p) + rest, 0) == Some(p)
    ensures Extent(Encode(p) + rest, 0) == |Encode(p)|
  {
    if p.Buffer? {
      BlobRoundTrip(CODE_RAW, p.bytes, rest);
    } else if p.Str? {
      BlobRoundTrip(CODE_STRING, p.chars, rest);
      StrNCopyNulFree(p.chars, |p.chars|);
      assert p.chars[..|p.chars|] == p.chars;
    } else if p.Array? {
      ArrayRoundTrip(p.kind, p.count, p.payload, rest);
    } else {
      assert IsScalar(p);
      ScalarRoundTrip(p, rest);
    }
  }

  lemma ScalarRoundTrip(p: Property, rest: seq<u8>)
    requires WellFormed(p) && IsScalar(p)
    ensures Decoded(Encode(p) + rest, 0) == Some(p)
    ensures Extent(Encode(p) + rest, 0) == |Encode(p)|
  {
    var data := Encode(p) + rest;
    var code := ScalarCode(p);
    ScalarWordFits(p);
    var x := ScalarWord(p);
    assert data == [code] + EncodeLittleEndian(x, ScalarSize(code)) + rest;
    ScalarInPlace(data, code, x, ScalarSize(code), rest);
    DecodedScalarAt(data, 0, x);
  }

  /** The stored word of a scalar record determines its decoding. */
  lemma DecodedScalarAt(data: seq<u8>, pos: nat, x: nat)
    requires IsScalarCode(ByteAt(data, pos))
    requires LittleEndian(data, pos + CODE_SIZE, ScalarSize(ByteAt(data, pos))) == x
    ensures Decoded(data, pos) == Some(ScalarValue(ByteAt(data, pos), x))
    ensures Extent(data, pos) == CODE_SIZE + ScalarSize(ByteAt(data, pos))
  {
  }

  lemma BlobRoundTrip(code: u8, bytes: seq<u8>, rest: seq<u8>)
    requires IsBlobCode(code) && |bytes| < U32_LIMIT
    ensures Extent(BlobRecord(code, bytes) + rest, 0) == |BlobRecord(code, bytes)|
    ensures Decoded(BlobRecord(code, bytes) + rest, 0)
         == Some(if code == CODE_RAW then Buffer(bytes) else Str(StrNCopy(bytes, |bytes|)))
  {
    var data := BlobRecord(code, bytes) + rest;
    BlobLayout(data, code, EncodeLittleEndian(|bytes|, LENGTH_SIZE), bytes, rest);
    FieldInPlace(data, 1, |bytes|);
    BytesInPlace(data, 5, bytes);
  }

  /** Where the parts of a blob record lie. */
  lemma BlobLayout(data: seq<u8>, code: u8, c: seq<u8>, bytes: seq<u8>, rest: seq<u8>)
    requires |c| == LENGTH_SIZE
    requires data == [code] + c + bytes + rest
    ensures |data| >= 5 + |bytes|
    ensures data[0] == code && data[1..5] == c && data[5..5 + |bytes|] == bytes
  {
  }

  lemma ArrayRoundTrip(kind: ArrayKind, count: nat, payload: seq<u8>, rest: seq<u8>)
    requires count < U32_LIMIT && |payload| == count * ElementSize(kind) < U32_LIMIT
    ensures Decoded(ArrayRecord(kind, count, payload) + rest, 0) == Some(Array(kind, count, payload))
    ensures Extent(ArrayRecord(kind, count, payload) + rest, 0) == |ArrayRecord(kind, count, payload)|
  {
    var data := ArrayRecord(kind, count, payload) + rest;
    ArrayFields(data, kind, count, payload, rest);
    DecodedArrayAt(data, 0, kind, count, payload);
  }

  /** The fields an array record stores read back in place. */
  lemma ArrayFields(data: seq<u8>, kind: ArrayKind, count: nat, payload: seq<u8>, rest: seq<u8>)
    requires count < U32_LIMIT && |payload| < U32_LIMIT
    requires data == ArrayRecord(kind, count, payload) + rest
    ensures ByteAt(data, 0) == ArrayCode(kind)
    ensures LengthField(data, 0, 0) == count && LengthField(data, 0, 1) == ENCODING_PLAIN && LengthField(data, 0, 2) == |payload|
    ensures Window(data, CODE_SIZE + ARRAY_HEADER_SIZE, |payload|) == payload
  {
    var c := EncodeLittleEndian(count, LENGTH_SIZE);
    var e := EncodeLittleEndian(ENCODING_PLAIN, LENGTH_SIZE);
    var f := EncodeLittleEndian(|payload|, LENGTH_SIZE);
    ArrayLayout(data, ArrayCode(kind), c, e, f, payload, rest);
    FieldInPlace(data, 1, count);
    FieldInPlace(data, 5, ENCODING_PLAIN);
    FieldInPlace(data, 9, |payload|);
    BytesInPlace(data, 13, payload);
  }

  /** Where the parts of an array record lie. */
  lemma ArrayLayout(data: seq<u8>, code: u8, c: seq<u8>, e: seq<u8>, f: seq<u8>, payload: seq<u8>, rest: seq<u8>)
    requires |c| == |e| == |f| == LENGTH_SIZE
    requires data == [code] + c + e + f + payload + rest
    ensures |data| >= 13 + |payload|
    ensures data[1..5] == c && data[5..9] == e && data[9..13] == f && data[13..13 + |payload|] == payload
  {
  }

  /** The fields of a plain array record determine its decoding. */
  lemma DecodedArrayAt(data: seq<u8>, pos: nat, kind: ArrayKind, count: nat, payload: seq<u8>)
    requires ByteAt(data, pos) == ArrayCode(kind)
    requires LengthField(data, pos, 0) == count && LengthField(data, pos, 1) == ENCODING_PLAIN
    requires LengthField(data, pos, 2) == |payload| == count * ElementSize(kind)
    requires Window(data, pos + CODE_SIZE + ARRAY_HEADER_SIZE, |payload|) == payload
    ensures Decoded(data, pos) == Some(Array(kind, count, payload))
    ensures Extent(data, pos) == CODE_SIZE + ARRAY_HEADER_SIZE + |payload|
  {
  }

  /** A 32-bit field stored in place reads back as itself. */
  lemma FieldInPlace(data: seq<u8>, at: nat, x: nat)
    requires x < U32_LIMIT && at + LENGTH_SIZE <= |data| && data[at..at + LENGTH_SIZE] == EncodeLittleEndian(x, LENGTH_SIZE)
    ensures LittleEndian(data, at, LENGTH_SIZE) == x
  {
    Pow32();
    WordInPlace(data, at, x, LENGTH_SIZE);
  }

  /** Bytes stored in place are the window over them. */
  lemma BytesInPlace(data: seq<u8>, at: nat, bytes: seq<u8>)
    requires at + |bytes| <= |data| && data[at..at + |bytes|] == bytes
    ensures Window(data, at, |bytes|) == bytes
  {
    WindowInside(data, at, |bytes|);
  }

  lemma Pow8()
    ensures Pow2(8 * BYTE_SIZE) == U8_LIMIT
  {
    Pow2Values();
  }

  lemma Pow16()
    ensures Pow2(8 * S16_SIZE) == U16_LIMIT
  {
    Pow2Values();
  }

  lemma Pow32()
    ensures Pow2(8 * LENGTH_SIZE) == U32_LIMIT
  {
    Pow2Values();
  }
  /**
   * `AK_FBX__Binary_Read_Property` on `s`.  The reader consumes the whole
   * record before it judges it; a record that runs past the end of the
   * window is rejected once read.  Every record but a compressed array
   * decodes to `Decoded`; a compressed array holds the element count times
   * the element size bytes, of which the first `written` are the zlib
   * stream inflated.
   */
  method ReadProperty(s: Stream) returns (ok: bool, p: Property, ghost ops: seq<Op>, ghost written: int)
    modifies s
    ensures !old(s.IsValid()) ==> !ok && s.at == old(s.at)
    ensures old(s.IsValid()) ==> s.at == old(s.at) + Extent(s.data, s.base + old(s.at))
    ensures ok ==> old(s.IsValid()) && s.at <= s.length && ReadsAs(s.data, s.base + old(s.at), p)
    ensures ok && !Compressed(s.data, s.base + old(s.at)) ==> Decoded(s.data, s.base + old(s.at)) == Some(p)
    ensures old(s.IsValid()) && s.at <= s.length && Decoded(s.data, s.base + old(s.at)).Some? ==> ok
    ensures Compressed(s.data, s.base + old(s.at)) ==> CompressedResult(s.data, s.base + old(s.at), p, ops, written)
    ensures old(s.IsValid()) && s.at <= s.length && Compressed(s.data, s.base + old(s.at)) ==> (ok <==> written >= 0)
  {
    ops := [];
    written := -1;
    p := Bool(0);
    if !s.IsValid() {
      return false, p, ops, written;
    }
    ghost var pos := s.base + s.at;
    var code := s.ConsumeByte();
    if IsScalarCode(code) {
      p := ReadScalar(s, code, pos);
      ok := true;
    } else if IsBlobCode(code) {
      p := ReadBlob(s, code, pos);
      ok := true;
    } else if IsArrayCode(code) {
      ok, p, written, ops := ReadArray(s, code, pos);
    } else {
      return false, p, ops, written;
    }
    if s.at > s.length {
      ok := false;
    }
  }

  /**
   * `p` is what the reader accepts at `pos`: the decoded record, or for a
   * compressed array an array of the recorded kind, count and size.
   */
  ghost predicate ReadsAs(data: seq<u8>, pos: nat, p: Property)
  {
    if Compressed(data, pos) then
      && p.Array? && p.kind == KindOf(ByteAt(data, pos)) && p.count == LengthField(data, pos, 0)
      && |p.payload| == p.count * Stride(ByteAt(data, pos))
    else Decoded(data, pos) == Some(p)
  }

  /** What the reader makes of a compressed array at `pos`, when it decodes one. */
  ghost predicate CompressedResult(data: seq<u8>, pos: nat, p: Property, ops: seq<Op>, written: int)
    requires Compressed(data, pos)
  {
    written >= 0 ==>
      && p.Array? && p == Array(KindOf(ByteAt(data, pos)), LengthField(data, pos, 0), p.payload)
      && |p.payload| == LengthField(data, pos, 0) * Stride(ByteAt(data, pos))
      && written <= |p.payload|
      && DeflateOps(ops) && Inflate(ops) == Some(p.payload[..written])
      && ZlibStream(Window(data, pos + CODE_SIZE + ARRAY_HEADER_SIZE, LengthField(data, pos, 2)), ops)
  }

  /** The scalar cases: a fixed-size word. */
  method ReadScalar(s: Stream, code: u8, ghost pos: nat) returns (p: Property)
    requires IsScalarCode(code) && ByteAt(s.data, pos) == code && s.base + s.at == pos + CODE_SIZE
    modifies s
    ensures s.at == old(s.at) + ScalarSize(code)
    ensures p == DecodedScalar(s.data, pos)
  {
    var x := s.ConsumeWord(ScalarSize(code));
    p := ScalarValue(code, x);
  }

  /** `R` and `S`: a 32-bit length and that many bytes; a string is copied with `strncpy`. */
  method ReadBlob(s: Stream, code: u8, ghost pos: nat) returns (p: Property)
    requires IsBlobCode(code) && ByteAt(s.data, pos) == code && s.base + s.at == pos + CODE_SIZE
    modifies s
    ensures s.at == old(s.at) + LENGTH_SIZE + LengthField(s.data, pos, 0)
    ensures p == DecodedBlob(s.data, pos)
  {
    var n := s.ConsumeWord(LENGTH_SIZE);
    var bytes := s.Consume(n);
    if code == CODE_RAW {
      p := Buffer(bytes);
    } else {
      p := Str(StrNCopy(bytes, n));
    }
  }

  /**
   * The array cases: element count, encoding and stored size, then the
   * stored bytes.  The expected size is the element count times the
   * element size, computed without the 32-bit wrap-around of the source.
   */
  method ReadArray(s: Stream, code: u8, ghost pos: nat) returns (ok: bool, p: Property, written: int, ghost ops: seq<Op>)
    requires IsArrayCode(code) && ByteAt(s.data, pos) == code && s.base + s.at == pos + CODE_SIZE
    modifies s
    ensures s.at == old(s.at) + ARRAY_HEADER_SIZE + LengthField(s.data, pos, 2)
    ensures ok && !Compressed(s.data, pos) ==> Decoded(s.data, pos) == Some(p)
    ensures Decoded(s.data, pos).Some? ==> ok
    ensures Compressed(s.data, pos) ==> CompressedResult(s.data, pos, p, ops, written) && (ok <==> written >= 0)
  {
    var count := s.ConsumeWord(LENGTH_SIZE);
    var encoding := s.ConsumeWord(LENGTH_SIZE);
    var size := s.ConsumeWord(LENGTH_SIZE);
    var stored := s.Consume(size);
    assert count == LengthField(s.data, pos, 0) && encoding == LengthField(s.data, pos, 1);
    assert size == LengthField(s.data, pos, 2) && stored == Window(s.data, pos + CODE_SIZE + ARRAY_HEADER_SIZE, size);
    ok, p, written, ops := DecodeArray(code, count, encoding, stored);
    DecodedArrayCase(s.data, pos);
  }

  /** `Decoded` on an array code. */
  lemma DecodedArrayCase(data: seq<u8>, pos: nat)
    requires IsArrayCode(ByteAt(data, pos))
    ensures Decoded(data, pos) ==
      var count := LengthField(data, pos, 0);
      var size := LengthField(data, pos, 2);
      if LengthField(data, pos, 1) == ENCODING_PLAIN && size == count * Stride(ByteAt(data, pos)) then
        Some(Array(KindOf(ByteAt(data, pos)), count, Window(data, pos + CODE_SIZE + ARRAY_HEADER_SIZE, size)))
      else None
  {
  }

  /** The elements of an array record from its header fields and its stored bytes. */
  method DecodeArray(code: u8, count: nat, encoding: nat, stored: seq<u8>) returns (ok: bool, p: Property, written: int, ghost ops: seq<Op>)
    requires IsArrayCode(code)
    ensures encoding == ENCODING_PLAIN ==> (ok <==> |stored| == count * Stride(code))
    ensures encoding == ENCODING_PLAIN && ok ==> p == Array(KindOf(code), count, stored)
    ensures encoding == ENCODING_ZLIB ==> (ok <==> written >= 0)
    ensures encoding == ENCODING_ZLIB && written >= 0 ==>
      && p.Array? && p == Array(KindOf(code), count, p.payload) && |p.payload| == count * Stride(code)
      && written <= |p.payload| && DeflateOps(ops) && Inflate(ops) == Some(p.payload[..written])
      && ZlibStream(stored, ops)
    ensures encoding != ENCODING_PLAIN && encoding != ENCODING_ZLIB ==> !ok
  {
    ops := [];
    written := -1;
    p := Bool(0);
    var uncompressed := count * Stride(code);
    if encoding == ENCODING_PLAIN {
      if uncompressed != |stored| {
        return false, p, written, ops;
      }
      p := Array(KindOf(code), count, stored);
      ok := true;
    } else if encoding == ENCODING_ZLIB {
      var out := new u8[uncompressed];
      ghost var blocks;
      written, ops, blocks := DecodeBuffer(out, stored);
      p := Array(KindOf(code), count, out[..]);
      ok := written != -1;
    } else {
      ok := false;
    }
  }
}
