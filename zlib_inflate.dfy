/**
 * The zlib inflater the FBX reader uses for compressed property arrays
 * (`ak_fbx__stbi_zlib_decode_buffer`, a copy of stb_image's): the bit
 * buffer, Huffman decoding, the three DEFLATE block types (RFC 1951) and
 * the zlib header (RFC 1950).
 *
 * The state `ak_fbx__stbi__zbuf` is the class `ZBuf`.  Its ghost fields
 * tie the buffer to the stream: `bitPos` is the number of stream bits
 * consumed, `fetched` the number of bytes fetched (counting the zero bytes
 * read past the end), and `Ops` the LZ77 operations decoded so far, whose
 * expansion is the output written so far.
 */
module ZlibInflate {
  import opened Bits
  import opened Wrappers
  import opened FbxBytes
  import opened ZlibBits
  import opened ZlibHuffman

  /** `ak_fbx__stbi__zlength_base`: base length of length codes 257.. */
  const LENGTH_BASE: seq<nat> := [3, 4, 5, 6, 7, 8, 9, 10, 11, 13, 15, 17, 19, 23, 27, 31, 35, 43, 51, 59,
                                  67, 83, 99, 115, 131, 163, 195, 227, 258, 0, 0]
  /** `ak_fbx__stbi__zlength_extra`: extra bits of length codes 257.. */
  const LENGTH_EXTRA: seq<nat> := [0, 0, 0, 0, 0, 0, 0, 0, 1, 1, 1, 1, 2, 2, 2, 2, 3, 3, 3, 3, 4, 4, 4, 4, 5, 5, 5, 5, 0, 0, 0]
  /** `ak_fbx__stbi__zdist_base`: base distance of distance codes. */
  const DIST_BASE: seq<nat> := [1, 2, 3, 4, 5, 7, 9, 13, 17, 25, 33, 49, 65, 97, 129, 193,
                                257, 385, 513, 769, 1025, 1537, 2049, 3073, 4097, 6145, 8193, 12289, 16385, 24577, 0, 0]
  /** `ak_fbx__stbi__zdist_extra`: extra bits of distance codes (the last two entries are zero-initialised). */
  const DIST_EXTRA: seq<nat> := [0, 0, 0, 0, 1, 1, 2, 2, 3, 3, 4, 4, 5, 5, 6, 6, 7, 7, 8, 8, 9, 9, 10, 10, 11, 11, 12, 12, 13, 13, 0, 0]
  /** `length_dezigzag`: the order in which code length code lengths are stored. */
  const LENGTH_DEZIGZAG: seq<int> := [16, 17, 18, 0, 8, 7, 9, 6, 10, 5, 11, 4, 12, 3, 13, 2, 14, 1, 15]
  /** `ak_fbx__stbi__zdefault_length`: the fixed literal/length code lengths. */
  const DEFAULT_LENGTH: seq<int> := FixedLengths()
  /** `ak_fbx__stbi__zdefault_distance`: the fixed distance code lengths. */
  const DEFAULT_DISTANCE: seq<int> := FixedDistances()

  /** The fixed literal/length code lengths of section 3.2.6 of RFC 1951: 8, 9, 7 and 8 bits by symbol range. */
  function FixedLengths(): (r: seq<int>)
    ensures |r| == ZNSYMS
  {
    seq(ZNSYMS, i => if i <= 143 then 8 else if i <= 255 then 9 else if i <= 279 then 7 else 8)
  }

  /** The fixed distance code lengths: 5 bits for each of the 32 symbols. */
  function FixedDistances(): (r: seq<int>)
    ensures |r| == 32
  {
    seq(32, _ => 5)
  }

  /** The fixed code lengths are lengths `zbuild_huffman` takes: at most 288 of them, each below 16. */
  lemma FixedLengthsOk()
    ensures LengthsOk(DEFAULT_LENGTH) && LengthsOk(DEFAULT_DISTANCE)
  {
    assert forall i :: 0 <= i < |DEFAULT_LENGTH| ==> 7 <= DEFAULT_LENGTH[i] <= 9;
  }

  /**
   * The fixed code lengths of section 3.2.6 of RFC 1951 fill the code
   * space exactly: 24 codes of 7 bits, 152 of 8 and 112 of 9 for
   * literals and lengths, 32 of 5 bits for distances.
   */
  lemma FixedKraft()
    ensures KraftSum(DEFAULT_LENGTH, MAX_CODE_LENGTH) == Pow2(MAX_CODE_LENGTH)
    ensures KraftSum(DEFAULT_DISTANCE, MAX_CODE_LENGTH) == Pow2(MAX_CODE_LENGTH)
  {
    var a, b, c, d := seq(144, _ => 8), seq(112, _ => 9), seq(24, _ => 7), seq(8, _ => 8);
    assert DEFAULT_LENGTH == a + b + c + d;
    forall len: int
      ensures CountLength(DEFAULT_LENGTH, len) == if len == 7 then 24 else if len == 8 then 152 else if len == 9 then 112 else 0
    {
      CountLengthConcat(a + b + c, d, len);
      CountLengthConcat(a + b, c, len);
      CountLengthConcat(a, b, len);
      CountLengthRun(144, 8, len);
      CountLengthRun(112, 9, len);
      CountLengthRun(24, 7, len);
      CountLengthRun(8, 8, len);
    }
    forall len: int
      ensures CountLength(DEFAULT_DISTANCE, len) == if len == 5 then 32 else 0
    {
      CountLengthRun(32, 5, len);
    }
    var L, D := DEFAULT_LENGTH, DEFAULT_DISTANCE;
    assert KraftSum(L, 6) == 0 by {
      assert KraftSum(L, 1) == 0 && KraftSum(L, 2) == 0 && KraftSum(L, 3) == 0;
      assert KraftSum(L, 4) == 0 && KraftSum(L, 5) == 0;
    }
    assert KraftSum(L, 9) == 512 by {
      assert KraftSum(L, 7) == 24 && KraftSum(L, 8) == 200;
    }
    assert KraftSum(L, 12) == 4096 by {
      assert KraftSum(L, 10) == 1024 && KraftSum(L, 11) == 2048;
    }
    assert KraftSum(L, 15) == 0x8000 by {
      assert KraftSum(L, 13) == 8192 && KraftSum(L, 14) == 0x4000;
    }
    assert KraftSum(D, 4) == 0 by {
      assert KraftSum(D, 1) == 0 && KraftSum(D, 2) == 0 && KraftSum(D, 3) == 0;
    }
    assert KraftSum(D, 10) == 1024 by {
      assert KraftSum(D, 5) == 32 && KraftSum(D, 6) == 64 && KraftSum(D, 7) == 128;
      assert KraftSum(D, 8) == 256 && KraftSum(D, 9) == 512;
    }
    assert KraftSum(D, 15) == 0x8000 by {
      assert KraftSum(D, 11) == 2048 && KraftSum(D, 12) == 4096;
      assert KraftSum(D, 13) == 8192 && KraftSum(D, 14) == 0x4000;
    }
    Pow2Values();
  }

  /** Length code `257 + i` covers `LENGTH_BASE[i] .. LENGTH_BASE[i] + 2^extra - 1`, within 3 .. 258. */
  lemma LengthTable(i: nat)
    requires i < 29
    ensures 0 <= LENGTH_EXTRA[i] <= 5
    ensures 3 <= LENGTH_BASE[i] && LENGTH_BASE[i] + Pow2(LENGTH_EXTRA[i]) - 1 <= 258
  {
    Pow2Values();
    assert Pow2(1) == 2 && Pow2(2) == 4 && Pow2(3) == 8 && Pow2(4) == 16 && Pow2(5) == 32;
  }

  /** Distance code `d` covers `DIST_BASE[d] .. DIST_BASE[d] + 2^extra - 1`, within 1 .. 32768. */
  lemma DistanceTable(d: nat)
    requires d < 30
    ensures 0 <= DIST_EXTRA[d] <= 13
    ensures 1 <= DIST_BASE[d] && DIST_BASE[d] + Pow2(DIST_EXTRA[d]) - 1 <= 32768
  {
    Pow2Values();
    assert Pow2(1) == 2 && Pow2(2) == 4 && Pow2(3) == 8 && Pow2(4) == 16 && Pow2(5) == 32;
    assert Pow2(6) == 64 && Pow2(7) == 128 && Pow2(11) == 2048 && Pow2(12) == 4096 && Pow2(13) == 8192;
  }

  /** How a symbol of a Huffman block ends: it adds a step, ends the block, or is an error. */
  datatype Status = Continue | End | Failed

  /** One step of LZ77 decoding. */
  datatype Op =
    | Literal(byte: u8)
    | Match(length: nat, distance: nat)
    | Stored(bytes: seq<u8>)

  /**
   * A match appends `length` bytes, each a copy of the byte `distance`
   * before it; the copy may overlap the bytes it appends.
   */
  function CopyMatch(o: seq<u8>, length: nat, distance: nat): (r: seq<u8>)
    requires 1 <= distance <= |o|
    ensures |r| == |o| + length
  {
    if length == 0 then o
    else
      var p := CopyMatch(o, length - 1, distance);
      p + [p[|p| - distance]]
  }

  /**
   * A match keeps the output before it and appends bytes each equal to the
   * byte `distance` back, which for a distance below the length is one the
   * match itself appended.
   */
  lemma {:induction false} CopyMatchCopies(o: seq<u8>, length: nat, distance: nat)
    requires 1 <= distance <= |o|
    ensures CopyMatch(o, length, distance)[..|o|] == o
    ensures forall i :: |o| <= i < |o| + length ==> CopyMatch(o, length, distance)[i] == CopyMatch(o, length, distance)[i - distance]
  {
    if length > 0 {
      CopyMatchCopies(o, length - 1, distance);
      var p := CopyMatch(o, length - 1, distance);
      assert CopyMatch(o, length, distance) == p + [p[|p| - distance]];
    }
  }

  /** The output after one more step, or `None` when a match reaches before the start. */
  function Step(o: seq<u8>, op: Op): Option<seq<u8>>
  {
    match op
    case Literal(b) => Some(o + [b])
    case Match(length, distance) => if 1 <= distance <= |o| then Some(CopyMatch(o, length, distance)) else None
    case Stored(bytes) => Some(o + bytes)
  }

  /** The output of a sequence of steps from an empty output. */
  function Inflate(ops: seq<Op>): Option<seq<u8>>
  {
    if ops == [] then Some([])
    else
      match Inflate(ops[..|ops| - 1])
      case None => None
      case Some(o) => Step(o, ops[|ops| - 1])
  }

  lemma InflateSnoc(ops: seq<Op>, op: Op)
    ensures Inflate(ops + [op]) == if Inflate(ops).None? then None else Step(Inflate(ops).value, op)
  {
    assert (ops + [op])[..|ops|] == ops;
  }

  /** One more step after `ops + block` extends their output by that step. */
  lemma InflateExtend(ops: seq<Op>, block: seq<Op>, op: Op, o: seq<u8>, o': seq<u8>)
    requires Inflate(ops + block) == Some(o) && Step(o, op) == Some(o')
    ensures Inflate(ops + (block + [op])) == Some(o')
  {
    InflateSnoc(ops + block, op);
    assert ops + (block + [op]) == ops + block + [op];
  }

  /** The output of a prefix of the steps is the prefix of their output of its length. */
  lemma OutputPrefix(a: seq<Op>, b: seq<Op>, o: seq<u8>, n: nat)
    requires Inflate(a + b) == Some(o) && Inflate(a).Some? && |Inflate(a).value| == n
    ensures n <= |o| && Inflate(a) == Some(o[..n])
  {
    InflatePrefix(a, b);
  }

  /** The steps a Huffman block produces: literals, and matches of 3 to 258 bytes at distances 1 to 32768. */
  predicate HuffmanOps(ops: seq<Op>)
  {
    forall i :: 0 <= i < |ops| ==> HuffmanOp(ops[i])
  }

  /** A literal, or a match of 3 to 258 bytes at a distance of 1 to 32768. */
  predicate HuffmanOp(op: Op)
  {
    op.Literal? || (op.Match? && 3 <= op.length <= 258 && 1 <= op.distance <= 32768)
  }

  /** Every step only appends, so the output of a prefix of the steps is a prefix of the output. */
  lemma {:induction false} InflatePrefix(a: seq<Op>, b: seq<Op>)
    requires Inflate(a + b).Some?
    ensures Inflate(a).Some? && |Inflate(a).value| <= |Inflate(a + b).value|
    ensures Inflate(a + b).value[..|Inflate(a).value|] == Inflate(a).value
    decreases |b|
  {
    if b != [] {
      var init := b[..|b| - 1];
      var op := b[|b| - 1];
      assert a + b == (a + init) + [op];
      InflateSnoc(a + init, op);
      var o := Inflate(a + init).value;
      var r := Inflate(a + b).value;
      match op {
        case Literal(x) => assert r == o + [x];
        case Stored(bytes) => assert r == o + bytes;
        case Match(length, distance) => CopyMatchCopies(o, length, distance);
      }
      InflatePrefix(a, init);
      assert r[..|o|] == o;
      assert r[..|Inflate(a).value|] == r[..|o|][..|Inflate(a).value|];
    } else {
      assert a + b == a;
    }
  }

  /** The zlib header of RFC 1950 section 2.2 as the inflater checks it: check bits, no preset dictionary, method 8. */
  predicate HeaderOk(cmf: u8, flg: u8)
  {
    && (cmf * 256 + flg) % 31 == 0
    && BitOf(flg, 5) == 0
    && cmf % 16 == 8
  }

  /** The byte boundary at or after stream bit `p`. */
  function ByteBoundary(p: nat): nat
  {
    (p + 7) / 8
  }

  /**
   * With `nb` buffered bits ending at byte `f`, dropping `nb % 8` of them
   * reaches the byte boundary after `p` and leaves whole bytes buffered.
   */
  lemma AlignedBoundary(p: nat, nb: nat, f: nat, d: nat)
    requires p + nb == 8 * f && d == nb % 8
    ensures p + d == 8 * ByteBoundary(p)
    ensures (nb - d) % 8 == 0
  {
    DivModUnique(p + 7, f - nb / 8, 7 - nb % 8, 8);
    DivModUnique(nb - nb % 8, nb / 8, 0, 8);
  }

  /** A byte fetched at the end of the buffered bits extends them by 8 bits. */
  lemma BufferByte(input: seq<u8>, p: nat, n: nat, q: nat, buffer: nat, byte: u8)
    requires p + n == 8 * q && buffer == StreamBits(input, p, n) && byte == ByteAt(input, q)
    ensures buffer + ShiftLeft(byte, n) == StreamBits(input, p, n + 8)
  {
    StreamBitsAppend(input, p, n, 8);
    StreamByteAt(input, p + n, q);
  }

  /** The 16 buffered bits reversed are the next 16 stream bits read as a code. */
  lemma PeekCode(input: seq<u8>, p: nat, n: nat, buffer: nat)
    requires 16 <= n && buffer == StreamBits(input, p, n)
    ensures ReverseBits(LowBits(buffer, 16), 16) == StreamCode(input, p, 16) < 0x1_0000
  {
    Pow2Values();
    BufferTake(input, p, n, 16, buffer);
    ReverseStreamBits(input, p, 16);
  }

  /** With a table built for `lengths`, the search's entry is the symbol whose code is the next `s` bits. */
  lemma DecodedSymbol(h: Huffman, lengths: seq<int>, input: seq<u8>, p: nat, k: nat, s: nat, b: int)
    requires Shaped(h) && 1 <= s < 16 && k == StreamCode(input, p, 16)
    requires k < h.maxCode[s] && forall t :: 1 <= t < s ==> k >= h.maxCode[t]
    requires b == Shift(k, 16 - s) - h.firstCode[s] + h.firstSymbol[s]
    ensures TableFor(h, lengths) ==>
              && 0 <= b < ZNSYMS && h.size[b] == s
              && 0 <= h.value[b] < |lengths| && lengths[h.value[b]] == s
              && Code(lengths, h.value[b]) == StreamCode(input, p, s)
  {
    if TableFor(h, lengths) {
      Pow2Values();
      StreamCodePrefix(input, p, s);
      ShiftCode(input, p, 16, 16 - s);
      DecodeSound(h, lengths, k, s, b);
    }
  }

  /** The `for` loop of the slow path: the first length whose limit exceeds `k`, 16 at worst by the sentinel. */
  method CodeLength(h: Huffman, k: nat) returns (s: nat)
    requires Shaped(h) && k < 0x1_0000
    ensures 1 <= s <= 16 && k < h.maxCode[s]
    ensures forall t :: 1 <= t < s ==> k >= h.maxCode[t]
  {
    s := 1;
    while k >= h.maxCode[s]
      invariant 1 <= s <= 16
      invariant forall t :: 1 <= t < s ==> k >= h.maxCode[t]
      decreases 16 - s
    {
      s := s + 1;
    }
  }

  /** The bits of a byte. */
  const BYTE_BITS: nat := 8

  /** The width of the LEN and NLEN fields of a stored block. */
  const WORD_BITS: nat := 16

  /** `x ^ y` on the low `n` bits, one bit at a time. */
  function Xor(x: nat, y: nat, n: nat): (r: nat)
    ensures r < Pow2(n)
  {
    if n == 0 then 0 else (if x % 2 == y % 2 then 0 else 1) + 2 * Xor(x / 2, y / 2, n - 1)
  }

  /** XOR with all ones complements: `x ^ (2^n - 1) == 2^n - 1 - x`. */
  lemma {:induction false} XorAllOnes(x: nat, n: nat)
    requires x < Pow2(n)
    ensures Xor(x, Pow2(n) - 1, n) == Pow2(n) - 1 - x
  {
    if n > 0 {
      var m := Pow2(n) - 1;
      DivModUnique(m, Pow2(n - 1) - 1, 1, 2);
      XorAllOnes(x / 2, n - 1);
    }
  }

  /** Where each code length symbol's code length is stored: the inverse of `length_dezigzag`. */
  const DEZIGZAG_INVERSE: seq<int> := [3, 17, 15, 13, 11, 9, 7, 5, 4, 6, 8, 10, 12, 14, 16, 18, 0, 1, 2]

  /** `length_dezigzag` is a permutation of the code length symbols 0 to 18. */
  lemma DezigzagRange(i: nat)
    requires i < 19
    ensures 0 <= LENGTH_DEZIGZAG[i] < 19 && DEZIGZAG_INVERSE[LENGTH_DEZIGZAG[i]] == i
  {
  }

  /** Distinct positions of `length_dezigzag` name distinct symbols. */
  lemma DezigzagDistinct(i: nat, j: nat)
    requires i < 19 && j < 19 && i != j
    ensures LENGTH_DEZIGZAG[i] != LENGTH_DEZIGZAG[j]
  {
    DezigzagRange(i);
    DezigzagRange(j);
  }

  /**
   * The code lengths of the code length code after `k` of them are read
   * from stream bit `p` on, three bits each, into their `length_dezigzag`
   * positions.
   */
  function CodeLengthSizes(input: seq<u8>, p: nat, k: nat): seq<int>
    requires k <= 19
  {
    if k == 0 then seq(19, _ => 0)
    else
      DezigzagRange(k - 1);
      var prev := CodeLengthSizes(input, p, k - 1);
      if |prev| == 19 then prev[LENGTH_DEZIGZAG[k - 1] := StreamBits(input, p + CLEN_BITS * (k - 1), CLEN_BITS)] else prev
  }

  /**
   * Symbol `LENGTH_DEZIGZAG[i]` has the `i`-th three-bit field as its
   * length when that field was read, and length 0 otherwise; 19 lengths,
   * each below 8.
   */
  lemma {:induction false} CodeLengthSizesAt(input: seq<u8>, p: nat, k: nat)
    requires k <= 19
    ensures |CodeLengthSizes(input, p, k)| == 19 && LengthsBelow16(CodeLengthSizes(input, p, k))
    ensures forall i :: 0 <= i < 19 ==>
              CodeLengthSizes(input, p, k)[LENGTH_DEZIGZAG[i]] == if i < k then StreamBits(input, p + CLEN_BITS * i, CLEN_BITS) else 0
  {
    if k > 0 {
      CodeLengthSizesAt(input, p, k - 1);
      DezigzagRange(k - 1);
      assert Pow2(CLEN_BITS) == 8;
      forall i | 0 <= i < 19 && i != k - 1
        ensures LENGTH_DEZIGZAG[i] != LENGTH_DEZIGZAG[k - 1]
      {
        DezigzagDistinct(i, k - 1);
      }
    }
  }

  /** The field widths of the dynamic block header, RFC 1951 section 3.2.7. */
  const HLIT_BITS: nat := 5
  const HDIST_BITS: nat := 5
  const HCLEN_BITS: nat := 4
  const CLEN_BITS: nat := 3

  /**
   * One code length symbol of a dynamic block header with its repeat
   * count: 0 to 15 is a length, 16 repeats the previous length, 17 and 18
   * are runs of zeros.
   */
  datatype LengthRun = Run(symbol: nat, count: nat)

  /** The repeat counts RFC 1951 section 3.2.7 allows each symbol. */
  predicate RunOk(r: LengthRun)
  {
    if r.symbol < 16 then r.count == 1
    else if r.symbol == 16 then 3 <= r.count <= 6
    else if r.symbol == 17 then 3 <= r.count <= 10
    else r.symbol == 18 && 11 <= r.count <= 138
  }

  /** The code lengths after one more run, `None` for a repeat with nothing before it. */
  function RunStep(l: seq<int>, r: LengthRun): Option<seq<int>>
  {
    if r.symbol < 16 then Some(l + [r.symbol])
    else if r.symbol == 16 then (if l == [] then None else Some(l + seq(r.count, _ => l[|l| - 1])))
    else Some(l + seq(r.count, _ => 0))
  }

  /** The code lengths a sequence of runs expands to. */
  function ExpandRuns(runs: seq<LengthRun>): Option<seq<int>>
  {
    if runs == [] then Some([])
    else
      match ExpandRuns(runs[..|runs| - 1])
      case None => None
      case Some(l) => RunStep(l, runs[|runs| - 1])
  }

  lemma ExpandSnoc(runs: seq<LengthRun>, r: LengthRun)
    ensures ExpandRuns(runs + [r]) == if ExpandRuns(runs).None? then None else RunStep(ExpandRuns(runs).value, r)
  {
    assert (runs + [r])[..|runs|] == runs;
  }

  /** Every code length is 0 to 15. */
  predicate LengthsBelow16(l: seq<int>)
  {
    forall i :: 0 <= i < |l| ==> 0 <= l[i] < 16
  }

  /**
   * LEN of a stored block whose header comes after stream bit `p`: the
   * little-endian 16-bit word at the next byte boundary (section 3.2.4 of
   * RFC 1951).
   */
  function StoredLen(input: seq<u8>, p: nat): nat
  {
    LittleEndian(input, ByteBoundary(p), 2)
  }

  /** NLEN, the word after LEN. */
  function StoredNLen(input: seq<u8>, p: nat): nat
  {
    LittleEndian(input, ByteBoundary(p) + 2, 2)
  }

  /** Where the stored bytes start: after the 4 header bytes, the read position stopping at the end of the input. */
  function StoredStart(input: seq<u8>, p: nat): nat
  {
    if ByteBoundary(p) + 4 <= |input| then ByteBoundary(p) + 4 else |input|
  }

  /** The header checks: NLEN is the complement of LEN and the LEN bytes lie in the input. */
  predicate StoredAccepted(input: seq<u8>, p: nat)
  {
    StoredNLen(input, p) == 0xFFFF - StoredLen(input, p) && StoredStart(input, p) + StoredLen(input, p) <= |input|
  }

  /** The bytes an accepted stored block copies. */
  function StoredBytes(input: seq<u8>, p: nat): (r: seq<u8>)
    requires StoredAccepted(input, p)
    ensures |r| == StoredLen(input, p)
  {
    input[StoredStart(input, p)..StoredStart(input, p) + StoredLen(input, p)]
  }

  /**
   * The checks on the header as read are the acceptance of the block at
   * `p` with room for it below `limit`; an accepted block copies the LEN
   * bytes after its header.
   */
  lemma StoredChecks(input: seq<u8>, p: nat, start: nat, len: nat, nlen: nat, z: nat, limit: nat)
    requires start == StoredStart(input, p) && len == StoredLen(input, p) && nlen == StoredNLen(input, p) && len < 0x1_0000
    ensures (Complements(len, nlen) && start + len <= |input| && z + len <= limit)
            <==> (StoredAccepted(input, p) && z + StoredLen(input, p) <= limit)
    ensures Complements(len, nlen) && start + len <= |input| ==> StoredAccepted(input, p) && input[start..start + len] == StoredBytes(input, p)
  {
  }

  /** `nlen == (len ^ 0xffff)`: NLEN is the ones' complement of LEN. */
  function Complements(len: nat, nlen: nat): (b: bool)
    requires len < 0x1_0000
    ensures b <==> nlen == 0xFFFF - len
  {
    Pow2Values();
    XorAllOnes(len, WORD_BITS);
    nlen == Xor(len, 0xFFFF, WORD_BITS)
  }

  /** The `n` input bytes from byte `a` on, zero past the end. */
  function InputBytes(input: seq<u8>, a: nat, n: nat): (r: seq<u8>)
    ensures |r| == n
  {
    if n == 0 then [] else InputBytes(input, a, n - 1) + [ByteAt(input, a + n - 1)]
  }

  lemma {:induction false} InputBytesAt(input: seq<u8>, a: nat, n: nat)
    ensures forall j :: 0 <= j < n ==> InputBytes(input, a, n)[j] == ByteAt(input, a + j)
  {
    if n > 0 {
      InputBytesAt(input, a, n - 1);
    }
  }

  lemma StoredHeaderWords(input: seq<u8>, p: nat, header: seq<u8>)
    requires header == InputBytes(input, ByteBoundary(p), 4)
    ensures header[1] as int * 256 + header[0] as int == StoredLen(input, p)
    ensures header[3] as int * 256 + header[2] as int == StoredNLen(input, p)
  {
    InputBytesAt(input, ByteBoundary(p), 4);
    var b := ByteBoundary(p);
    assert LittleEndian(input, b + 1, 1) == ByteAt(input, b + 1);
    assert LittleEndian(input, b + 3, 1) == ByteAt(input, b + 3);
  }

  /** Past the end of the input a stored block header is all zeros and is refused. */
  lemma StoredPastEnd(input: seq<u8>, p: nat)
    requires p >= 8 * |input|
    ensures !StoredAccepted(input, p)
  {
    DivModUnique(p + 7, (p + 7) / 8, (p + 7) % 8, 8);
    LittleEndianPastEnd(input, ByteBoundary(p), 2);
    LittleEndianPastEnd(input, ByteBoundary(p) + 2, 2);
  }

  /** The input bits not yet consumed, none once the stream is past the end. */
  function BitsLeft(input: seq<u8>, p: nat): nat
  {
    if p <= 8 * |input| then 8 * |input| - p else 0
  }

  /**
   * The stored example of the output-overflow finding: a valid zlib
   * header, then a final stored block of LEN 1 whose one byte is in the
   * input, decoded into an output of 0 bytes.
   */
  const OVERFLOW_EXAMPLE: seq<u8> := [0x78, 0x01, 0x01, 0x01, 0x00, 0xFE, 0xFF, 0x41]

  /**
   * As written, the output bound of a stored block is only an assertion:
   * the example's header and its block pass every check that returns an
   * error, yet the block has one byte for an output with room for none.
   */
  lemma StoredOverflowsAsWritten()
    ensures |OVERFLOW_EXAMPLE| > 2 && HeaderOk(OVERFLOW_EXAMPLE[0], OVERFLOW_EXAMPLE[1])
    ensures StreamBits(OVERFLOW_EXAMPLE, 16, 3) == 1
    ensures StoredAccepted(OVERFLOW_EXAMPLE, 19) && StoredLen(OVERFLOW_EXAMPLE, 19) > 0
  {
    var e := OVERFLOW_EXAMPLE;
    assert BitOf(0x01, 5) == 0;
    assert StreamBits(e, 16, 3) == Bit(e, 16) + 2 * Bit(e, 17) + 4 * Bit(e, 18);
  }

  /** `memcpy(a->zout, a->zbuffer, len)`. */
  method CopyStored(out: array<u8>, at: nat, bytes: seq<u8>)
    requires at + |bytes| <= out.Length
    modifies out
    ensures out[..at + |bytes|] == old(out[..at]) + bytes
  {
    ghost var o := out[..at];
    var i := 0;
    while i < |bytes|
      invariant 0 <= i <= |bytes|
      invariant out[..at + i] == o + bytes[..i]
    {
      out[at + i] := bytes[i];
      i := i + 1;
      assert out[..at + i] == out[..at + i - 1] + [bytes[i - 1]];
      assert bytes[..i] == bytes[..i - 1] + [bytes[i - 1]];
    }
    assert bytes[..|bytes|] == bytes;
  }

  /**
   * The match copy of `ak_fbx__stbi__parse_huffman_block`: a run of the
   * byte before when `dist` is 1, otherwise a byte-by-byte copy from
   * `dist` back.  Either way the result is the match's expansion.
   */
  method CopyBack(out: array<u8>, z: nat, len: nat, dist: nat)
    requires 1 <= dist <= z && z + len <= out.Length
    modifies out
    ensures out[..z + len] == CopyMatch(old(out[..z]), len, dist)
    ensures out[..z] == old(out[..z])
  {
    ghost var o := out[..z];
    if dist == 1 {
      CopyRun(out, z, len);
    } else {
      CopyFar(out, z, len, dist);
    }
    CopyMatchCopies(o, len, dist);
    assert out[..z] == out[..z + len][..z];
  }

  /** The distance-1 case of `CopyBack`: `len` copies of the byte before `z`. */
  method CopyRun(out: array<u8>, z: nat, len: nat)
    requires 1 <= z && z + len <= out.Length
    modifies out
    ensures out[..z + len] == CopyMatch(old(out[..z]), len, 1)
  {
    ghost var o := out[..z];
    var v := out[z - 1];
    var i := 0;
    while i < len
      invariant 0 <= i <= len
      invariant out[..z + i] == CopyMatch(o, i, 1)
      invariant out[z + i - 1] == v
    {
      ghost var prev := out[..z + i];
      out[z + i] := v;
      assert out[..z + i + 1] == prev + [v];
      i := i + 1;
    }
  }

  /** The byte-by-byte case of `CopyBack`: each byte copied from `dist` back. */
  method CopyFar(out: array<u8>, z: nat, len: nat, dist: nat)
    requires 1 <= dist <= z && z + len <= out.Length
    modifies out
    ensures out[..z + len] == CopyMatch(old(out[..z]), len, dist)
  {
    ghost var o := out[..z];
    var i := 0;
    while i < len
      invariant 0 <= i <= len
      invariant out[..z + i] == CopyMatch(o, i, dist)
    {
      ghost var prev := out[..z + i];
      out[z + i] := out[z + i - dist];
      assert out[..z + i + 1] == prev + [prev[z + i - dist]];
      i := i + 1;
    }
  }

  /**
   * The two `zbuild_huffman` calls of `ak_fbx__stbi__compute_huffman_codes`:
   * the first `hlit` code lengths make the literal/length table, the rest
   * the distance table, which is not built when the first build fails.
   */
  method BuildTables(lencodes: seq<int>, hlit: nat) returns (litOk: bool, lit: Huffman, distOk: bool, dist: Huffman)
    requires LengthsBelow16(lencodes) && hlit <= ZNSYMS && hlit <= |lencodes| <= hlit + ZNSYMS
    ensures Shaped(lit) && Shaped(dist)
    ensures litOk <==> KraftSum(lencodes[..hlit], MAX_CODE_LENGTH) <= Pow2(MAX_CODE_LENGTH)
    ensures distOk <==> litOk && KraftSum(lencodes[hlit..], MAX_CODE_LENGTH) <= Pow2(MAX_CODE_LENGTH)
    ensures !litOk || TableFor(lit, lencodes[..hlit])
    ensures !distOk || TableFor(dist, lencodes[hlit..])
  {
    var litLengths := lencodes[..hlit];
    var distLengths := lencodes[hlit..];
    assert LengthsOk(litLengths) && LengthsOk(distLengths);
    litOk, lit := BuildHuffman(litLengths);
    dist := EmptyTable();
    distOk := false;
    if litOk {
      distOk, dist := BuildHuffman(distLengths);
    }
  }

  /**
   * The two `zbuild_huffman` calls for a block with fixed codes; the
   * distance table is built only after the first build succeeds.  The
   * fixed lengths are not over-subscribed (`FixedKraft`), so both builds
   * succeed.
   */
  method FixedTables() returns (litOk: bool, lit: Huffman, distOk: bool, dist: Huffman)
    ensures Shaped(lit) && Shaped(dist) && litOk && distOk
    ensures TableFor(lit, DEFAULT_LENGTH) && TableFor(dist, DEFAULT_DISTANCE)
  {
    FixedLengthsOk();
    FixedKraft();
    litOk, lit := BuildHuffman(DEFAULT_LENGTH);
    dist := EmptyTable();
    distOk := false;
    if litOk {
      distOk, dist := BuildHuffman(DEFAULT_DISTANCE);
    }
  }

  /** Every step is a literal or a match within DEFLATE's ranges, or a stored block. */
  predicate DeflateOps(ops: seq<Op>)
  {
    forall i :: 0 <= i < |ops| ==> HuffmanOp(ops[i]) || ops[i].Stored?
  }

  lemma DeflateOpsAppend(a: seq<Op>, b: seq<Op>)
    requires DeflateOps(a) && (HuffmanOps(b) || DeflateOps(b))
    ensures DeflateOps(a + b)
  {
    assert forall i :: 0 <= i < |b| ==> (a + b)[|a| + i] == b[i];
  }

  /**
   * Symbol `sym` of the canonical code with code lengths `lengths` is
   * coded by the stream bits from bit `p` on, first bit most significant
   * (section 3.1.1 of RFC 1951).
   */
  ghost predicate SymbolAt(lengths: seq<int>, input: seq<u8>, p: nat, sym: int)
  {
    0 <= sym < |lengths| && lengths[sym] > 0 && Code(lengths, sym) == StreamCode(input, p, lengths[sym])
  }

  /** The stream bit after the code of `sym` read from bit `p`. */
  function After(lengths: seq<int>, p: nat, sym: int): nat
  {
    if 0 <= sym < |lengths| && lengths[sym] > 0 then p + lengths[sym] else p
  }

  /** The symbols one step of a Huffman block is read with: a literal/length symbol, and the distance symbol of a match. */
  datatype Token = Token(symbol: int, distance: int)

  /** The distance symbol `d` read from bit `p` and its extra bits, which give `dist` and end at bit `q`. */
  ghost predicate DistanceAt(distances: seq<int>, input: seq<u8>, p: nat, d: int, dist: int, q: nat)
  {
    && SymbolAt(distances, input, p, d) && d < 30
    && dist == DIST_BASE[d] + StreamBits(input, After(distances, p, d), DIST_EXTRA[d])
    && q == After(distances, p, d) + DIST_EXTRA[d]
  }

  /**
   * The match of length symbol `257 + i` whose extra length bits start at
   * bit `p`: its length is the base plus those bits; then comes the code
   * of a distance symbol `d` below 30, and its distance is the base plus
   * its extra bits, which end at bit `q`.
   */
  ghost predicate MatchAt(distances: seq<int>, input: seq<u8>, p: nat, i: nat, d: int, op: Op, q: nat)
    requires i < 29
  {
    match op
    case Match(length, distance) =>
      && length == LENGTH_BASE[i] + StreamBits(input, p, LENGTH_EXTRA[i])
      && DistanceAt(distances, input, p + LENGTH_EXTRA[i], d, distance, q)
    case _ => false
  }

  /**
   * The step read from bit `p` to bit `q` with the literal/length code
   * `lengths` and the distance code `distances`: a symbol below 256 is
   * that byte, one of 257 to 285 a match (section 3.2.5 of RFC 1951).
   */
  ghost predicate OpAt(lengths: seq<int>, distances: seq<int>, input: seq<u8>, p: nat, t: Token, op: Op, q: nat)
  {
    match t
    case Token(symbol, distance) =>
      && SymbolAt(lengths, input, p, symbol)
      && if symbol < 256 then op == Literal(symbol as u8) && q == After(lengths, p, symbol)
         else 256 < symbol < 286 && MatchAt(distances, input, After(lengths, p, symbol), symbol - 257, distance, op, q)
  }

  /** A match's length extra bits from `p` to `p'`, then its distance, read the match. */
  lemma MatchAtFrom(distances: seq<int>, input: seq<u8>, p: nat, i: nat, d: int, len: int, dist: int, p': nat, q: nat)
    requires i < 29 && p' == p + LENGTH_EXTRA[i] && len == LENGTH_BASE[i] + StreamBits(input, p, LENGTH_EXTRA[i])
    requires 0 <= d < 30
    requires !(0 <= d < 30) || DistanceAt(distances, input, p', d, dist, q)
    ensures MatchAt(distances, input, p, i, d, Match(len, dist), q)
  {
  }

  /** The symbols of a step that is read: a literal, or a length symbol with a valid distance symbol. */
  predicate ReadsOp(t: Token)
  {
    0 <= t.symbol < 256 || (256 < t.symbol < 286 && 0 <= t.distance < 30)
  }

  /** A length symbol followed by its match reads the match step. */
  lemma OpAtMatch(lengths: seq<int>, distances: seq<int>, input: seq<u8>, p: nat, symbol: int, d: int, op: Op, q: nat)
    requires 256 < symbol < 286 && SymbolAt(lengths, input, p, symbol)
    requires MatchAt(distances, input, After(lengths, p, symbol), symbol - 257, d, op, q)
    ensures OpAt(lengths, distances, input, p, Token(symbol, d), op, q)
  {
  }

  /** The steps `ops` are read one after another, the `k`-th from bit `bounds[k]` to bit `bounds[k + 1]` with `tokens[k]`. */
  ghost predicate OpsAt(lengths: seq<int>, distances: seq<int>, input: seq<u8>, bounds: seq<nat>, tokens: seq<Token>, ops: seq<Op>)
  {
    && |bounds| == |ops| + 1 && |tokens| == |ops|
    && forall k :: 0 <= k < |ops| ==> OpAt(lengths, distances, input, bounds[k], tokens[k], ops[k], bounds[k + 1])
  }

  /** One more step read where the steps before it end. */
  lemma OpsAtSnoc(lengths: seq<int>, distances: seq<int>, input: seq<u8>, bounds: seq<nat>, tokens: seq<Token>, ops: seq<Op>, t: Token, op: Op, q: nat)
    requires OpsAt(lengths, distances, input, bounds, tokens, ops)
    requires ReadsOp(t)
    requires !ReadsOp(t) || OpAt(lengths, distances, input, bounds[|ops|], t, op, q)
    ensures OpsAt(lengths, distances, input, bounds + [q], tokens + [t], ops + [op])
  {
  }

  /** The body of a Huffman block from bit `p` to bit `q`: the steps `ops`, then the end-of-block symbol 256. */
  ghost predicate HuffmanBodyAt(lengths: seq<int>, distances: seq<int>, input: seq<u8>, p: nat, bounds: seq<nat>, tokens: seq<Token>, ops: seq<Op>, q: nat)
  {
    && OpsAt(lengths, distances, input, bounds, tokens, ops) && bounds[0] == p
    && SymbolAt(lengths, input, bounds[|ops|], 256) && q == After(lengths, bounds[|ops|], 256)
  }

  /** One more run read where the runs before it end. */
  lemma RunsAtSnoc(sizes: seq<int>, input: seq<u8>, bounds: seq<nat>, runs: seq<LengthRun>, run: LengthRun, q: nat)
    requires RunsAt(sizes, input, bounds, runs)
    requires RunAt(sizes, input, bounds[|runs|], run, q)
    ensures RunsAt(sizes, input, bounds + [q], runs + [run])
  {
  }

  /** How many stream bits follow code length symbol `symbol` as its repeat count. */
  function RepeatBits(symbol: nat): nat
  {
    if symbol == 16 then 2 else if symbol == 17 then CLEN_BITS else if symbol == 18 then 7 else 0
  }

  /** The repeat count of code length symbol `symbol` when its repeat bits are zero. */
  function RepeatBase(symbol: nat): nat
  {
    if symbol < 16 then 1 else if symbol == 18 then 11 else 3
  }

  /**
   * The code length symbol of `run` read from bit `p` with the code
   * length code `sizes`, followed by its repeat bits up to bit `q`
   * (section 3.2.7 of RFC 1951).
   */
  ghost predicate RunAt(sizes: seq<int>, input: seq<u8>, p: nat, run: LengthRun, q: nat)
  {
    match run
    case Run(symbol, count) =>
      && SymbolAt(sizes, input, p, symbol) && symbol < 19
      && count == RepeatBase(symbol) + StreamBits(input, After(sizes, p, symbol), RepeatBits(symbol))
      && q == After(sizes, p, symbol) + RepeatBits(symbol)
  }

  /** The runs are read one after another, the `k`-th from bit `bounds[k]` to bit `bounds[k + 1]`. */
  ghost predicate RunsAt(sizes: seq<int>, input: seq<u8>, bounds: seq<nat>, runs: seq<LengthRun>)
  {
    && |bounds| == |runs| + 1
    && forall k :: 0 <= k < |runs| ==> RunAt(sizes, input, bounds[k], runs[k], bounds[k + 1])
  }

  /** HCLEN + 4, the number of code length code lengths of the dynamic block header at bit `p`. */
  function CodeLengthCount(input: seq<u8>, p: nat): nat
  {
    4 + StreamBits(input, p + HLIT_BITS + HDIST_BITS, HCLEN_BITS)
  }

  /**
   * The code lengths of a dynamic block read from bit `p`: HLIT, HDIST and
   * HCLEN, the HCLEN lengths of the code length code, then the runs that
   * expand to the HLIT + 257 literal/length and HDIST + 1 distance code
   * lengths, ending at the last of `bounds`.
   */
  ghost predicate DynamicLengthsAt(input: seq<u8>, p: nat, lengths: seq<int>, distances: seq<int>, bounds: seq<nat>, runs: seq<LengthRun>)
  {
    && CodeLengthCount(input, p) <= 19
    && RunsAt(CodeLengthSizes(input, p + HLIT_BITS + HDIST_BITS + HCLEN_BITS, CodeLengthCount(input, p)), input, bounds, runs)
    && bounds[0] == p + HLIT_BITS + HDIST_BITS + HCLEN_BITS + CLEN_BITS * CodeLengthCount(input, p)
    && |lengths| == 257 + StreamBits(input, p, HLIT_BITS)
    && |distances| == 1 + StreamBits(input, p + HLIT_BITS, HDIST_BITS)
    && ExpandRuns(runs) == Some(lengths + distances)
  }

  /** The counts, the code length code and the runs read from `p` give the code lengths of a dynamic block, split after the first `hlit`. */
  lemma DynamicCodesFrom(input: seq<u8>, p: nat, lencodes: seq<int>, hlit: nat, bounds: seq<nat>, runs: seq<LengthRun>)
    requires CodeLengthCount(input, p) <= 19
    requires RunsAt(CodeLengthSizes(input, p + HLIT_BITS + HDIST_BITS + HCLEN_BITS, CodeLengthCount(input, p)), input, bounds, runs)
    requires bounds[0] == p + HLIT_BITS + HDIST_BITS + HCLEN_BITS + CLEN_BITS * CodeLengthCount(input, p)
    requires hlit == 257 + StreamBits(input, p, HLIT_BITS) && hlit <= |lencodes|
    requires |lencodes| == hlit + 1 + StreamBits(input, p + HLIT_BITS, HDIST_BITS)
    requires ExpandRuns(runs) == Some(lencodes)
    ensures DynamicLengthsAt(input, p, lencodes[..hlit], lencodes[hlit..], bounds, runs)
  {
    assert lencodes[..hlit] + lencodes[hlit..] == lencodes;
  }

  /**
   * The code lengths of a dynamic block as the inflater accepts them:
   * those of `DynamicLengthsAt`, with none of the three codes (the code
   * length code, the literal/length code, the distance code)
   * over-subscribed.
   */
  ghost predicate DynamicCodesAt(input: seq<u8>, p: nat, lengths: seq<int>, distances: seq<int>, bounds: seq<nat>, runs: seq<LengthRun>)
  {
    && DynamicLengthsAt(input, p, lengths, distances, bounds, runs)
    && KraftSum(CodeLengthSizes(input, p + HLIT_BITS + HDIST_BITS + HCLEN_BITS, CodeLengthCount(input, p)), MAX_CODE_LENGTH) <= Pow2(MAX_CODE_LENGTH)
    && KraftSum(lengths, MAX_CODE_LENGTH) <= Pow2(MAX_CODE_LENGTH)
    && KraftSum(distances, MAX_CODE_LENGTH) <= Pow2(MAX_CODE_LENGTH)
  }

  /** Where the stream is after the stored block whose header comes after bit `p`. */
  function StoredEnd(input: seq<u8>, p: nat): nat
  {
    8 * (ByteBoundary(p) + 4 + StoredLen(input, p))
  }

  /** What the body of a block was read with: nothing for a stored block, the symbols of a Huffman block, and the code lengths of a dynamic one. */
  datatype BlockTrace =
    | StoredTrace
    | FixedTrace(bounds: seq<nat>, tokens: seq<Token>)
    | DynamicTrace(lengths: seq<int>, distances: seq<int>, runBounds: seq<nat>, runs: seq<LengthRun>, bounds: seq<nat>, tokens: seq<Token>)

  /**
   * The body of a block of type `kind` from bit `p` to bit `q`, whose
   * steps are `ops`: an accepted stored block, or the body of a Huffman
   * block with the fixed codes or with the dynamic codes read before it.
   */
  ghost predicate BlockBodyAt(input: seq<u8>, p: nat, kind: nat, trace: BlockTrace, ops: seq<Op>, q: nat)
  {
    match trace
    case StoredTrace =>
      kind == 0 && StoredAccepted(input, p) && ops == [Stored(StoredBytes(input, p))] && q == StoredEnd(input, p)
    case FixedTrace(bounds, tokens) =>
      kind == 1 && HuffmanBodyAt(DEFAULT_LENGTH, DEFAULT_DISTANCE, input, p, bounds, tokens, ops, q)
    case DynamicTrace(lengths, distances, runBounds, runs, bounds, tokens) =>
      && kind == 2 && DynamicCodesAt(input, p, lengths, distances, runBounds, runs)
      && HuffmanBodyAt(lengths, distances, input, runBounds[|runs|], bounds, tokens, ops, q)
  }

  /** A block read from bit `start` to bit `end`: BFINAL, BTYPE, and the body. */
  datatype BlockRead = BlockRead(start: nat, final: bool, trace: BlockTrace, ops: seq<Op>, end: nat)

  ghost predicate BlockAt(input: seq<u8>, b: BlockRead)
  {
    match b
    case BlockRead(start, final, trace, ops, end) =>
      final == (StreamBits(input, start, 1) != 0) && BlockBodyAt(input, start + 3, StreamBits(input, start + 1, 2), trace, ops, end)
  }

  /** BFINAL and BTYPE at bit `p`, then a body of that type from bit `p + 3`, read a block. */
  lemma BlockAtFrom(input: seq<u8>, p: nat, final: bool, kind: nat, trace: BlockTrace, ops: seq<Op>, q: nat)
    requires final == (StreamBits(input, p, 1) != 0) && kind == StreamBits(input, p + 1, 2)
    requires BlockBodyAt(input, p + 3, kind, trace, ops, q)
    ensures BlockAt(input, BlockRead(p, final, trace, ops, q))
  {
  }

  /** A block header past the end of the input reads type 0, whose stored header is refused there. */
  lemma BlockPastEnd(input: seq<u8>, p: nat)
    requires p >= 8 * |input|
    ensures StreamBits(input, p + 1, 2) == 0 && !StoredAccepted(input, p + 3)
  {
    StreamBitsPastEnd(input, p + 1, 2);
    StoredPastEnd(input, p + 3);
  }

  /** The blocks are read one after another from bit `p`, and none but the last is final. */
  ghost predicate BlocksAt(input: seq<u8>, p: nat, blocks: seq<BlockRead>)
    decreases |blocks|
  {
    if blocks == [] then true
    else
      var n := |blocks| - 1;
      && BlocksAt(input, p, blocks[..n])
      && BlockAt(input, blocks[n])
      && blocks[n].start == (if n == 0 then p else blocks[n - 1].end)
      && (n > 0 ==> !blocks[n - 1].final)
  }

  /** The steps of the blocks in order. */
  function BlockOps(blocks: seq<BlockRead>): seq<Op>
  {
    if blocks == [] then [] else BlockOps(blocks[..|blocks| - 1]) + blocks[|blocks| - 1].ops
  }

  /** One more block read where the blocks before it, none of them final, end. */
  lemma BlocksSnoc(input: seq<u8>, p: nat, blocks: seq<BlockRead>, b: BlockRead)
    requires blocks == [] || (BlocksAt(input, p, blocks) && !blocks[|blocks| - 1].final)
    requires BlockAt(input, b) && b.start == if blocks == [] then p else blocks[|blocks| - 1].end
    ensures BlocksAt(input, p, blocks + [b])
    ensures BlockOps(blocks + [b]) == BlockOps(blocks) + b.ops
  {
    assert (blocks + [b])[..|blocks|] == blocks;
  }

  /**
   * A zlib stream as the inflater reads it: the two header bytes and more
   * input, then blocks from bit 16 up to the first final one, whose steps
   * in order are `ops`.
   */
  ghost predicate ZlibAt(input: seq<u8>, blocks: seq<BlockRead>, ops: seq<Op>)
  {
    && |input| > 2 && HeaderOk(ByteAt(input, 0), ByteAt(input, 1))
    && BlocksAt(input, 16, blocks) && |blocks| > 0 && blocks[|blocks| - 1].final
    && ops == BlockOps(blocks)
  }

  /** `input` is a zlib stream whose blocks encode the steps `ops`. */
  ghost predicate ZlibStream(input: seq<u8>, ops: seq<Op>)
  {
    exists blocks :: ZlibAt(input, blocks, ops)
  }

  /**
   * `ak_fbx__stbi_zlib_decode_buffer`: `ibuffer` is inflated into
   * `obuffer`.  The result is the number of bytes written, or -1 on an
   * error.  When it succeeds the stream had a valid zlib header, and the
   * bytes written are the expansion of the LZ77 steps decoded, `ops`.
   */
  method DecodeBuffer(obuffer: array<u8>, ibuffer: seq<u8>) returns (r: int, ghost ops: seq<Op>, ghost blocks: seq<BlockRead>)
    modifies obuffer
    ensures -1 <= r <= obuffer.Length
    ensures r >= 0 ==> ZlibAt(ibuffer, blocks, ops) && Inflate(ops) == Some(obuffer[..r])
    ensures r >= 0 ==> DeflateOps(ops)
  {
    var a := new ZBuf.Create(ibuffer, obuffer);
    var ok;
    ok, blocks := a.ParseZlib();
    ops := a.Ops;
    if ok {
      r := a.zout;
    } else {
      r := -1;
    }
  }

  class ZBuf {
    const input: seq<u8>
    var pos: nat
    var numBits: int
    var codeBuffer: nat
    const out: array<u8>
    var zout: nat
    var lengthTable: Huffman
    var distanceTable: Huffman
    ghost var lengthCodes: seq<int>
    ghost var distanceCodes: seq<int>
    ghost var bitPos: nat
    ghost var fetched: nat
    ghost var Ops: seq<Op>

    /** `zbuffer` is `fetched` bytes in, stopping at the end of the input. */
    ghost predicate Cursor()
      reads this`pos, this`fetched
    {
      pos == if fetched <= |input| then fetched else |input|
    }

    /**
     * The bit buffer holds the `numBits` stream bits after the first
     * `bitPos`, and those end at the fetched bytes.
     */
    ghost predicate BitsValid()
      reads this`pos, this`fetched, this`numBits, this`bitPos, this`codeBuffer
    {
      && Cursor()
      && 0 <= numBits <= 32
      && bitPos + numBits == 8 * fetched
      && codeBuffer == StreamBits(input, bitPos, numBits)
    }

    /** The bit buffer is valid, the tables have their shape and the output so far is the expansion of `Ops`. */
    ghost predicate Valid()
      reads this`pos, this`fetched, this`numBits, this`bitPos, this`codeBuffer
      reads this`lengthTable, this`distanceTable, this`zout, this`Ops, out
    {
      BitsValid() && TablesShaped() && OutputValid()
    }

    /** Both decoding tables have the struct's array sizes. */
    ghost predicate TablesShaped()
      reads this`lengthTable, this`distanceTable
    {
      Shaped(lengthTable) && Shaped(distanceTable)
    }

    /** The tables decode the canonical codes of the code lengths they were built from. */
    ghost predicate TablesFor()
      reads this`lengthTable, this`distanceTable, this`lengthCodes, this`distanceCodes
    {
      TableFor(lengthTable, lengthCodes) && TableFor(distanceTable, distanceCodes)
    }

    /** The output written so far is the expansion of `Ops`. */
    ghost predicate OutputValid()
      reads this`zout, this`Ops, out
    {
      zout <= out.Length && Inflate(Ops) == Some(out[..zout])
    }

    /** The set-up of `ak_fbx__stbi_zlib_decode_buffer` and `ak_fbx__stbi__do_zlib`. */
    constructor Create(input: seq<u8>, out: array<u8>)
      ensures Valid()
      ensures this.input == input && this.out == out
      ensures pos == 0 && numBits == 0 && bitPos == 0 && fetched == 0 && zout == 0 && Ops == []
    {
      this.input := input;
      this.out := out;
      pos := 0;
      numBits := 0;
      codeBuffer := 0;
      zout := 0;
      lengthTable := EmptyTable();
      distanceTable := EmptyTable();
      lengthCodes := [];
      distanceCodes := [];
      bitPos := 0;
      fetched := 0;
      Ops := [];
    }

    /** `ak_fbx__stbi__zeof`. */
    predicate Eof()
      reads this`pos
    {
      pos >= |input|
    }

    /** `ak_fbx__stbi__zget8`: the next byte, 0 at the end of the input. */
    method Get8() returns (b: u8)
      requires Cursor()
      modifies this`pos, this`numBits, this`codeBuffer, this`bitPos, this`fetched
      ensures Cursor() && fetched == old(fetched) + 1
      ensures b == ByteAt(input, old(fetched))
      ensures numBits == old(numBits) && codeBuffer == old(codeBuffer) && bitPos == old(bitPos)
    {
      if Eof() {
        b := 0;
      } else {
        b := input[pos];
        pos := pos + 1;
      }
      fetched := fetched + 1;
    }

    /** `ak_fbx__stbi__fill_bits`: whole bytes are added on top of the buffer until it holds more than 24 bits. */
    method FillBits()
      requires BitsValid() && numBits <= 24
      modifies this`pos, this`numBits, this`codeBuffer, this`bitPos, this`fetched
      ensures BitsValid()
      ensures 24 < numBits && bitPos == old(bitPos)
    {
      // The do-while's first test holds on entry, so it is a while loop.
      while numBits <= 24
        invariant BitsValid() && bitPos == old(bitPos)
        decreases 32 - numBits
      {
        FillByte();
      }
    }

    /** One pass of the loop of `ak_fbx__stbi__fill_bits`: the next byte goes on top of the buffer. */
    method FillByte()
      requires BitsValid() && numBits <= 24
      modifies this`pos, this`numBits, this`codeBuffer, this`bitPos, this`fetched
      ensures BitsValid()
      ensures numBits == old(numBits) + 8 && bitPos == old(bitPos)
    {
      if codeBuffer >= Pow2(numBits) {
        // The buffer never holds a bit at or above `numBits`.
        assert false;
      }
      ghost var q := fetched;
      var byte := Get8();
      BufferByte(input, bitPos, numBits, q, codeBuffer, byte);
      // The OR adds, as the buffer has no bit at or above `numBits`.
      codeBuffer := codeBuffer + ShiftLeft(byte, numBits);
      numBits := numBits + 8;
    }

    /** `ak_fbx__stbi__zreceive`: the next `n` stream bits as a data element. */
    method Receive(n: nat) returns (k: nat)
      requires BitsValid() && n <= 25
      modifies this`pos, this`numBits, this`codeBuffer, this`bitPos, this`fetched
      ensures BitsValid()
      ensures k == StreamBits(input, old(bitPos), n) && bitPos == old(bitPos) + n
      ensures n <= old(numBits) ==> numBits == old(numBits) - n
    {
      if numBits < n {
        FillBits();
      }
      BufferTake(input, bitPos, numBits, n, codeBuffer);
      k := LowBits(codeBuffer, n);
      Consume(n);
    }

    /** `code_buffer >>= n; num_bits -= n;`: the next `n` buffered bits are dropped. */
    method Consume(n: nat)
      requires BitsValid() && n <= numBits
      modifies this`pos, this`numBits, this`codeBuffer, this`bitPos, this`fetched
      ensures BitsValid()
      ensures bitPos == old(bitPos) + n && numBits == old(numBits) - n
      ensures pos == old(pos) && fetched == old(fetched)
    {
      BufferTake(input, bitPos, numBits, n, codeBuffer);
      codeBuffer := Shift(codeBuffer, n);
      numBits := numBits - n;
      bitPos := bitPos + n;
    }

    /**
     * `ak_fbx__stbi__zhuffman_decode` without the `fast` table: at least 16
     * bits are buffered unless the input is exhausted, then the canonical
     * search decodes.  A symbol it returns from a table built for `lengths`
     * is one whose code is the next stream bits, which it consumes.
     */
    method Decode(h: Huffman, ghost lengths: seq<int>) returns (r: int)
      requires BitsValid() && Shaped(h)
      modifies this`pos, this`numBits, this`codeBuffer, this`bitPos, this`fetched
      ensures BitsValid()
      ensures bitPos >= old(bitPos)
      ensures r < 0 ==> r == -1
      ensures r < 0 || !TableFor(h, lengths) || (SymbolAt(lengths, input, old(bitPos), r) && bitPos == After(lengths, old(bitPos), r))
    {
      if numBits < 16 {
        if Eof() {
          return -1;
        }
        FillBits();
      }
      r := DecodeSlowPath(h, lengths);
    }

    /**
     * `ak_fbx__stbi__zhuffman_decode_slowpath`, searching from length 1:
     * the reversed 16 buffered bits are compared with the limit of each
     * length, and the entry found must have that length.
     */
    method DecodeSlowPath(h: Huffman, ghost lengths: seq<int>) returns (r: int)
      requires BitsValid() && Shaped(h) && numBits >= 16
      modifies this`pos, this`numBits, this`codeBuffer, this`bitPos, this`fetched
      ensures BitsValid()
      ensures bitPos >= old(bitPos)
      ensures r < 0 ==> r == -1
      ensures r >= 0 && TableFor(h, lengths) ==>
                && r < |lengths| && lengths[r] > 0
                && bitPos == old(bitPos) + lengths[r]
                && Code(lengths, r) == StreamCode(input, old(bitPos), lengths[r])
    {
      PeekCode(input, bitPos, numBits, codeBuffer);
      var k := ReverseBits(LowBits(codeBuffer, 16), 16);
      var s := CodeLength(h, k);
      if s >= 16 {
        return -1;
      }
      var b := Shift(k, 16 - s) - h.firstCode[s] + h.firstSymbol[s];
      if b < 0 || b >= ZNSYMS {
        return -1;
      }
      if h.size[b] != s {
        return -1;
      }
      DecodedSymbol(h, lengths, input, bitPos, k, s, b);
      Consume(s);
      r := h.value[b];
      if r < 0 {
        // A table entry the builder did not write; a built table holds symbol numbers.
        r := -1;
      }
    }

    /**
     * `if (a->num_bits & 7) ak_fbx__stbi__zreceive(a, a->num_bits & 7)`:
     * the buffered bits below the next byte boundary are dropped.
     */
    method AlignToByte()
      requires Valid()
      modifies this`pos, this`numBits, this`codeBuffer, this`bitPos, this`fetched
      ensures Valid()
      ensures bitPos == 8 * ByteBoundary(old(bitPos)) && numBits % 8 == 0
    {
      var drop := numBits % 8;
      AlignedBoundary(bitPos, numBits, fetched, drop);
      if drop != 0 {
        var discarded := Receive(drop);
      }
    }

    /**
     * The header loops of `ak_fbx__stbi__parse_uncompressed_block`: the
     * whole bytes still buffered are drained, then `zget8` reads the rest
     * of the four header bytes.
     */
    method ReadStoredHeader(ghost a: nat) returns (header: seq<u8>)
      requires Valid() && numBits % 8 == 0 && bitPos == 8 * a
      modifies this`pos, this`numBits, this`codeBuffer, this`bitPos, this`fetched
      ensures Valid()
      ensures header == InputBytes(input, a, 4)
      ensures bitPos == old(bitPos) + 32 && numBits == 0
    {
      header := DrainBuffered(a, numBits / 8);
      // `num_bits` is a multiple of 8 here, so the drain leaves it at 0 and
      // the `num_bits < 0` error cannot happen.
      header := ReadHeaderBytes(a, header);
    }

    /** The drain loop: the whole bytes still buffered, `code_buffer & 255` first. */
    method DrainBuffered(ghost a: nat, ghost whole: nat) returns (header: seq<u8>)
      requires BitsValid() && numBits == 8 * whole && bitPos == 8 * a
      modifies this`pos, this`numBits, this`codeBuffer, this`bitPos, this`fetched
      ensures BitsValid() && numBits == 0
      ensures |header| <= 4 && bitPos == 8 * (a + |header|)
      ensures header == InputBytes(input, a, |header|)
    {
      header := [];
      ghost var left := whole;
      while numBits > 0
        invariant BitsValid() && numBits == 8 * left && |header| + left <= 4
        invariant bitPos == 8 * (a + |header|) && header == InputBytes(input, a, |header|)
        decreases left
      {
        header := DrainNext(a, header, left);
        left := left - 1;
      }
    }

    /** The drain loop's step: the next buffered byte joins the header bytes read so far. */
    method DrainNext(ghost a: nat, header: seq<u8>, ghost left: nat) returns (next: seq<u8>)
      requires BitsValid() && numBits == 8 * left && 0 < left && |header| + left <= 4
      requires bitPos == 8 * (a + |header|) && header == InputBytes(input, a, |header|)
      modifies this`pos, this`numBits, this`codeBuffer, this`bitPos, this`fetched
      ensures BitsValid() && numBits == 8 * (left - 1) && |next| + (left - 1) <= 4
      ensures bitPos == 8 * (a + |next|) && next == InputBytes(input, a, |next|)
    {
      var b := DrainByte(a + |header|);
      assert InputBytes(input, a, |header| + 1) == header + [b];
      next := header + [b];
    }

    /** The `zget8` loop completing the four header bytes. */
    method ReadHeaderBytes(ghost a: nat, start: seq<u8>) returns (header: seq<u8>)
      requires BitsValid() && numBits == 0 && |start| <= 4 && bitPos == 8 * (a + |start|)
      requires start == InputBytes(input, a, |start|)
      modifies this`pos, this`numBits, this`codeBuffer, this`bitPos, this`fetched
      ensures BitsValid() && numBits == 0
      ensures bitPos == 8 * (a + 4) && header == InputBytes(input, a, 4)
    {
      header := start;
      while |header| < 4
        invariant BitsValid() && numBits == 0
        invariant |header| <= 4 && bitPos == 8 * (a + |header|)
        invariant header == InputBytes(input, a, |header|)
        decreases 4 - |header|
      {
        var b := Get8();
        assert InputBytes(input, a, |header| + 1) == header + [b];
        header := header + [b];
        bitPos := bitPos + 8;
      }
    }

    /** One pass of the drain loop: `code_buffer & 255` is the buffered byte at stream byte `q`. */
    method DrainByte(ghost q: nat) returns (b: u8)
      requires BitsValid() && numBits >= 8 && bitPos == 8 * q
      modifies this`pos, this`numBits, this`codeBuffer, this`bitPos, this`fetched
      ensures BitsValid()
      ensures b == ByteAt(input, q) && bitPos == old(bitPos) + 8 && numBits == old(numBits) - 8
    {
      BufferTake(input, bitPos, numBits, BYTE_BITS, codeBuffer);
      StreamByte(input, q);
      b := LowBits(codeBuffer, BYTE_BITS);
      Consume(BYTE_BITS);
    }

    /**
     * `ak_fbx__stbi__parse_uncompressed_block` with the output bound
     * checked: the block is accepted exactly when NLEN is the complement of
     * LEN, the LEN bytes lie in the input and the output has room for
     * them; they are then copied to the output and logged as one step.
     */
    method ParseUncompressedBlock() returns (ok: bool)
      requires Valid()
      modifies this`pos, this`numBits, this`codeBuffer, this`bitPos, this`fetched, this`zout, this`Ops, out
      ensures Valid()
      ensures bitPos >= old(bitPos)
      ensures ok <==> StoredAccepted(input, old(bitPos)) && old(zout) + StoredLen(input, old(bitPos)) <= out.Length
      ensures ok ==> Ops == old(Ops) + [Stored(StoredBytes(input, old(bitPos)))] && bitPos == StoredEnd(input, old(bitPos))
      ensures !ok ==> Ops == old(Ops) && zout == old(zout)
    {
      ghost var p := bitPos;
      var len, nlen := ReadStoredLengths();
      // The three error returns in their order; the last bound the source
      // only asserts.
      ok := Complements(len, nlen) && pos + len <= |input| && zout + len <= out.Length;
      StoredChecks(input, p, pos, len, nlen, zout, out.Length);
      if ok {
        CommitAccepted(p, len);
      }
    }

    /** The copy of the stored block at `p` once its checks passed. */
    method CommitAccepted(ghost p: nat, len: nat)
      requires Valid() && numBits == 0 && StoredAccepted(input, p)
      requires pos == StoredStart(input, p) && len == StoredLen(input, p) && zout + len <= out.Length
      modifies this`pos, this`numBits, this`codeBuffer, this`bitPos, this`fetched, this`zout, this`Ops, out
      ensures Valid() && bitPos == old(bitPos) + 8 * len
      ensures Ops == old(Ops) + [Stored(StoredBytes(input, p))]
    {
      CommitStored(input[pos..pos + len]);
    }

    /** The stored block header: alignment to a byte, then LEN and NLEN from the four header bytes. */
    method ReadStoredLengths() returns (len: nat, nlen: nat)
      requires Valid()
      modifies this`pos, this`numBits, this`codeBuffer, this`bitPos, this`fetched
      ensures Valid() && numBits == 0 && bitPos == 8 * (ByteBoundary(old(bitPos)) + 4) && bitPos > old(bitPos)
      ensures len == StoredLen(input, old(bitPos)) && nlen == StoredNLen(input, old(bitPos)) && len < 0x1_0000
      ensures pos == StoredStart(input, old(bitPos))
    {
      ghost var p := bitPos;
      AlignToByte();
      var header := ReadStoredHeader(ByteBoundary(p));
      len := header[1] as int * 256 + header[0] as int;
      nlen := header[3] as int * 256 + header[2] as int;
      StoredHeaderWords(input, p, header);
      assert fetched == ByteBoundary(p) + 4;
    }

    /** The copy of an accepted stored block: `len` input bytes go to the output and the stream moves past them. */
    method CommitStored(bytes: seq<u8>)
      requires Valid() && numBits == 0 && pos + |bytes| <= |input| && bytes == input[pos..pos + |bytes|]
      requires zout + |bytes| <= out.Length
      modifies this`pos, this`numBits, this`codeBuffer, this`bitPos, this`fetched, this`zout, this`Ops, out
      ensures Valid()
      ensures Ops == old(Ops) + [Stored(bytes)]
      ensures bitPos == old(bitPos) + 8 * |bytes| && bitPos >= old(bitPos) && fetched == old(fetched) + |bytes|
    {
      AppendStored(bytes);
      SkipBytes(|bytes|);
    }

    /** The output half of a stored block: its bytes are written at `zout` and become one more step. */
    method AppendStored(bytes: seq<u8>)
      requires OutputValid() && zout + |bytes| <= out.Length
      modifies this`zout, this`Ops, out
      ensures OutputValid()
      ensures Ops == old(Ops) + [Stored(bytes)] && zout == old(zout) + |bytes|
    {
      CopyStored(out, zout, bytes);
      InflateSnoc(Ops, Stored(bytes));
      Ops := Ops + [Stored(bytes)];
      zout := zout + |bytes|;
    }

    /** `a->zbuffer += len`: with the bit buffer empty, the stream moves `len` whole bytes on. */
    method SkipBytes(len: nat)
      requires BitsValid() && numBits == 0 && pos + len <= |input|
      modifies this`pos, this`numBits, this`codeBuffer, this`bitPos, this`fetched
      ensures BitsValid() && numBits == 0
      ensures pos == old(pos) + len && fetched == old(fetched) + len && bitPos == old(bitPos) + 8 * len
    {
      pos := pos + len;
      fetched := fetched + len;
      bitPos := bitPos + 8 * len;
    }

    /**
     * `ak_fbx__stbi__parse_zlib_header`: two bytes are read, and the header
     * is accepted exactly when more input follows and the check bits,
     * preset-dictionary flag and method agree with RFC 1950.
     */
    method ParseZlibHeader() returns (ok: bool)
      requires Cursor() && fetched == 0
      modifies this`pos, this`numBits, this`codeBuffer, this`bitPos, this`fetched
      ensures Cursor() && fetched == 2
      ensures numBits == old(numBits) && codeBuffer == old(codeBuffer) && bitPos == old(bitPos)
      ensures ok <==> |input| > 2 && HeaderOk(ByteAt(input, 0), ByteAt(input, 1))
    {
      var cmf := Get8();
      var cm := cmf % 16;
      var flg := Get8();
      if Eof() {
        return false;
      }
      if (cmf as int * 256 + flg as int) % 31 != 0 {
        return false;
      }
      if BitOf(flg, 5) != 0 {
        return false;
      }
      if cm != 8 {
        return false;
      }
      return true;
    }

    /**
     * `ak_fbx__stbi__compute_huffman_codes`: HLIT, HDIST and HCLEN are read,
     * then the code length code, then the literal/length and distance code
     * lengths, and the two tables are built from them.  When it succeeds
     * the tables are the canonical ones for code lengths of the sizes the
     * header announced.
     */
    method ComputeHuffmanCodes() returns (ok: bool, ghost bounds: seq<nat>, ghost runs: seq<LengthRun>)
      requires Valid()
      modifies this
      ensures Valid() && zout == old(zout) && Ops == old(Ops)
      ensures bitPos >= old(bitPos)
      ensures !ok || TablesFor()
      ensures ok ==> DynamicCodesAt(input, old(bitPos), lengthCodes, distanceCodes, bounds, runs) && bounds[|runs|] == bitPos
    {
      var lencodes, hlit;
      ok, lencodes, hlit, bounds, runs := ReadDynamicLengths();
      if ok {
        var litOk, litTable, distOk, distTable := BuildTables(lencodes, hlit);
        SetTables(litOk, litTable, lencodes[..hlit], distTable, lencodes[hlit..]);
        ok := litOk && distOk;
      }
    }

    /** The counts and the code lengths of a dynamic block: the first `hlit` are the literal/length code's, the rest the distance code's. */
    method ReadDynamicLengths() returns (ok: bool, lencodes: seq<int>, hlit: nat, ghost bounds: seq<nat>, ghost runs: seq<LengthRun>)
      requires BitsValid()
      modifies this`pos, this`numBits, this`codeBuffer, this`bitPos, this`fetched
      ensures BitsValid() && bitPos >= old(bitPos)
      ensures ok ==> LengthsBelow16(lencodes) && hlit <= ZNSYMS && hlit <= |lencodes| <= hlit + ZNSYMS
      ensures ok ==> DynamicLengthsAt(input, old(bitPos), lencodes[..hlit], lencodes[hlit..], bounds, runs) && bounds[|runs|] == bitPos
      ensures ok ==> KraftSum(CodeLengthSizes(input, old(bitPos) + HLIT_BITS + HDIST_BITS + HCLEN_BITS, CodeLengthCount(input, old(bitPos))), MAX_CODE_LENGTH) <= Pow2(MAX_CODE_LENGTH)
    {
      var hdist, hclen;
      hlit, hdist, hclen := ReadCounts();
      ok, lencodes, bounds, runs := ReadAllLengths(hclen, hlit + hdist);
      if ok {
        DynamicCodesFrom(input, old(bitPos), lencodes, hlit, bounds, runs);
      }
    }

    /** HLIT, HDIST and HCLEN with their offsets: 257 to 288 literal/length codes, 1 to 32 distance codes, 4 to 19 code length codes. */
    method ReadCounts() returns (hlit: nat, hdist: nat, hclen: nat)
      requires BitsValid()
      modifies this`pos, this`numBits, this`codeBuffer, this`bitPos, this`fetched
      ensures BitsValid() && bitPos == old(bitPos) + HLIT_BITS + HDIST_BITS + HCLEN_BITS
      ensures hlit == 257 + StreamBits(input, old(bitPos), HLIT_BITS) && hlit <= 288
      ensures hdist == 1 + StreamBits(input, old(bitPos) + HLIT_BITS, HDIST_BITS) && hdist <= 32
      ensures hclen == CodeLengthCount(input, old(bitPos)) && 4 <= hclen <= 19
    {
      var lit := Receive(HLIT_BITS);
      var dist := Receive(HDIST_BITS);
      var clen := Receive(HCLEN_BITS);
      assert Pow2(HLIT_BITS) == 32 && Pow2(HCLEN_BITS) == 16;
      hlit, hdist, hclen := lit + 257, dist + 1, clen + 4;
    }

    /** The tables are written: the literal/length one always, the distance one when the first build succeeded. */
    method SetTables(litOk: bool, litTable: Huffman, litCodes: seq<int>, distTable: Huffman, distCodes: seq<int>)
      requires Valid() && Shaped(litTable) && Shaped(distTable)
      modifies this
      ensures Valid() && zout == old(zout) && Ops == old(Ops) && bitPos == old(bitPos)
      ensures lengthTable == litTable && lengthCodes == litCodes
      ensures litOk ==> distanceTable == distTable && distanceCodes == distCodes
      ensures litOk && TableFor(litTable, litCodes) && TableFor(distTable, distCodes) ==> TablesFor()
    {
      lengthTable, lengthCodes := litTable, litCodes;
      if litOk {
        distanceTable, distanceCodes := distTable, distCodes;
      }
    }

    /** The code length code and the code lengths it encodes, `ntot` of them. */
    method ReadAllLengths(hclen: nat, ntot: nat) returns (ok: bool, lencodes: seq<int>, ghost bounds: seq<nat>, ghost runs: seq<LengthRun>)
      requires BitsValid() && 4 <= hclen <= 19 && ntot <= 320
      modifies this`pos, this`numBits, this`codeBuffer, this`bitPos, this`fetched
      ensures BitsValid() && bitPos >= old(bitPos)
      ensures KraftSum(CodeLengthSizes(input, old(bitPos), hclen), MAX_CODE_LENGTH) > Pow2(MAX_CODE_LENGTH) ==> !ok
      ensures ok ==> |lencodes| == ntot && LengthsBelow16(lencodes) && ExpandRuns(runs) == Some(lencodes)
      ensures ok ==> && RunsAt(CodeLengthSizes(input, old(bitPos), hclen), input, bounds, runs)
                     && bounds[0] == old(bitPos) + CLEN_BITS * hclen && bounds[|runs|] == bitPos
    {
      ghost var p := bitPos;
      var sizes := ReadCodeLengthSizes(hclen);
      CodeLengthSizesAt(input, p, hclen);
      var built, h := BuildHuffman(sizes);
      if !built {
        return false, [], [bitPos], [];
      }
      ok, lencodes, runs, bounds := ReadCodeLengths(h, sizes, ntot);
    }

    /**
     * The HCLEN three-bit code lengths of the code length code, stored in
     * `length_dezigzag` order; the symbols not read have length 0.
     */
    method ReadCodeLengthSizes(hclen: nat) returns (sizes: seq<int>)
      requires BitsValid() && hclen <= 19
      modifies this`pos, this`numBits, this`codeBuffer, this`bitPos, this`fetched
      ensures BitsValid() && bitPos == old(bitPos) + CLEN_BITS * hclen
      ensures sizes == CodeLengthSizes(input, old(bitPos), hclen)
    {
      sizes := seq(19, _ => 0);
      var k := 0;
      while k < hclen
        invariant BitsValid() && k <= hclen && bitPos == old(bitPos) + CLEN_BITS * k
        invariant |sizes| == 19 && sizes == CodeLengthSizes(input, old(bitPos), k)
      {
        sizes := ReadCodeLengthSize(old(bitPos), k, sizes);
        k := k + 1;
      }
    }

    /** One three-bit field of `ReadCodeLengthSizes`, the `k`-th read from bit `start`. */
    method ReadCodeLengthSize(ghost start: nat, k: nat, sizes: seq<int>) returns (next: seq<int>)
      requires BitsValid() && k < 19 && bitPos == start + CLEN_BITS * k
      requires |sizes| == 19 && sizes == CodeLengthSizes(input, start, k)
      modifies this`pos, this`numBits, this`codeBuffer, this`bitPos, this`fetched
      ensures BitsValid() && bitPos == start + CLEN_BITS * (k + 1)
      ensures |next| == 19 && next == CodeLengthSizes(input, start, k + 1)
    {
      DezigzagRange(k);
      var s := Receive(CLEN_BITS);
      next := sizes[LENGTH_DEZIGZAG[k] := s];
    }

    /**
     * The loop of `ak_fbx__stbi__compute_huffman_codes` reading `ntot`
     * code lengths with the code length code `h`.  The symbols it decodes
     * are logged as `runs`; when it succeeds they are within the repeat
     * counts DEFLATE allows and expand to exactly the code lengths read.
     */
    method ReadCodeLengths(h: Huffman, ghost sizes: seq<int>, ntot: nat) returns (ok: bool, lencodes: seq<int>, ghost runs: seq<LengthRun>, ghost bounds: seq<nat>)
      requires BitsValid() && Shaped(h)
      modifies this`pos, this`numBits, this`codeBuffer, this`bitPos, this`fetched
      ensures BitsValid() && bitPos >= old(bitPos)
      ensures ok ==> |lencodes| == ntot && LengthsBelow16(lencodes)
      ensures ok ==> ExpandRuns(runs) == Some(lencodes) && forall k :: 0 <= k < |runs| ==> RunOk(runs[k])
      ensures |bounds| == |runs| + 1 && bounds[0] == old(bitPos) && (ok ==> bounds[|runs|] == bitPos)
      ensures TableFor(h, sizes) ==> RunsAt(sizes, input, bounds, runs)
    {
      lencodes, runs, bounds := [], [], [bitPos];
      while |lencodes| < ntot
        invariant BitsValid() && bitPos >= old(bitPos)
        invariant |lencodes| <= ntot && LengthsBelow16(lencodes)
        invariant ExpandRuns(runs) == Some(lencodes) && forall k :: 0 <= k < |runs| ==> RunOk(runs[k])
        invariant |bounds| == |runs| + 1 && bounds[0] == old(bitPos) && bounds[|runs|] == bitPos
        invariant TableFor(h, sizes) ==> RunsAt(sizes, input, bounds, runs)
        decreases ntot - |lencodes|
      {
        var c := Decode(h, sizes);
        if c < 0 || c >= 19 {
          return false, lencodes, runs, bounds;
        }
        var run;
        ok, run := ReadRun(c, lencodes, ntot);
        if !ok {
          return false, lencodes, runs, bounds;
        }
        if TableFor(h, sizes) {
          RunsAtSnoc(sizes, input, bounds, runs, run, bitPos);
        }
        ExpandSnoc(runs, run);
        runs, bounds := runs + [run], bounds + [bitPos];
        lencodes := RunStep(lencodes, run).value;
      }
      ok := true;
    }

    /**
     * One code length symbol `c` after `lencodes`: its repeat count is read,
     * and a repeat with nothing before it or one past `ntot` is an error.
     */
    method ReadRun(c: nat, lencodes: seq<int>, ntot: nat) returns (ok: bool, run: LengthRun)
      requires BitsValid() && c < 19 && |lencodes| < ntot && LengthsBelow16(lencodes)
      modifies this`pos, this`numBits, this`codeBuffer, this`bitPos, this`fetched
      ensures BitsValid() && bitPos >= old(bitPos)
      ensures run.symbol == c
      ensures run.count == RepeatBase(c) + StreamBits(input, old(bitPos), RepeatBits(c)) && bitPos == old(bitPos) + RepeatBits(c)
      ensures ok <==> !(c == 16 && lencodes == []) && |lencodes| + run.count <= ntot
      ensures ok ==> RunOk(run) && RunStep(lencodes, run).Some?
      ensures ok ==> |RunStep(lencodes, run).value| <= ntot && LengthsBelow16(RunStep(lencodes, run).value)
    {
      if c < 16 {
        return true, Run(c, 1);
      }
      var count;
      if c == 16 {
        var k := Receive(2);
        assert Pow2(2) == 4;
        count := k + 3;
        if |lencodes| == 0 {
          return false, Run(c, count);
        }
      } else if c == 17 {
        var k := Receive(CLEN_BITS);
        assert Pow2(CLEN_BITS) == 8;
        count := k + 3;
      } else {
        var k := Receive(7);
        assert Pow2(7) == 128;
        count := k + 11;
      }
      run := Run(c, count);
      ok := ntot - |lencodes| >= count;
    }

    /**
     * `ak_fbx__stbi__parse_huffman_block` with the output bounds checked:
     * symbols are decoded and expanded into the output until the end of
     * block symbol.  An accepted block adds its steps, literals and matches
     * within DEFLATE's ranges, to `Ops`; a rejected one leaves the output
     * and `Ops` as they were.
     */
    method ParseHuffmanBlock() returns (ok: bool, ghost block: seq<Op>, ghost bounds: seq<nat>, ghost tokens: seq<Token>)
      requires Valid() && TablesFor()
      modifies this`pos, this`numBits, this`codeBuffer, this`bitPos, this`fetched, this`zout, this`Ops, out
      ensures Valid() && bitPos >= old(bitPos)
      ensures ok ==> HuffmanOps(block) && Ops == old(Ops) + block
      ensures !ok ==> Ops == old(Ops) && zout == old(zout)
      ensures !ok || HuffmanBodyAt(lengthCodes, distanceCodes, input, old(bitPos), bounds, tokens, block, bitPos)
    {
      var z := zout;
      block, bounds, tokens := [], [bitPos], [];
      assert Ops + block == Ops;
      while true
        invariant BitsValid() && TablesShaped() && zout == old(zout) && Ops == old(Ops)
        invariant zout <= z <= out.Length && bitPos >= old(bitPos)
        invariant Inflate(Ops).Some? && |Inflate(Ops).value| == zout
        invariant HuffmanOps(block) && Inflate(Ops + block) == Some(out[..z])
        invariant |bounds| == |block| + 1 && bounds[0] == old(bitPos) && bounds[|block|] == bitPos
        invariant OpsAt(lengthCodes, distanceCodes, input, bounds, tokens, block)
        decreases out.Length - z
      {
        ghost var o := out[..z];
        var status, next, token, op := BlockStep(z);
        if status == End {
          EndBlock(block, z);
          return true, block, bounds, tokens;
        }
        if status == Failed {
          OutputPrefix(Ops, block, o, zout);
          assert out[..zout] == o[..zout];
          return false, block, bounds, tokens;
        }
        OpsAtSnoc(lengthCodes, distanceCodes, input, bounds, tokens, block, token, op, bitPos);
        InflateExtend(Ops, block, op, o, out[..next]);
        block, bounds, tokens := block + [op], bounds + [bitPos], tokens + [token];
        z := next;
      }
    }

    /** The end of block symbol: the block's steps join `Ops` and the output written so far is kept. */
    method EndBlock(ghost block: seq<Op>, z: nat)
      requires BitsValid() && TablesShaped() && z <= out.Length && Inflate(Ops + block) == Some(out[..z])
      modifies this`Ops, this`zout
      ensures Valid() && Ops == old(Ops) + block && zout == z
    {
      Ops := Ops + block;
      zout := z;
    }

    /**
     * One pass of the loop of `ak_fbx__stbi__parse_huffman_block`: a
     * literal is written at `z`, symbol 256 ends the block, a length
     * symbol is completed by its distance and the match copied.
     */
    method BlockStep(z: nat) returns (status: Status, next: nat, ghost token: Token, ghost op: Op)
      requires BitsValid() && TablesShaped() && TablesFor() && z <= out.Length
      modifies this`pos, this`numBits, this`codeBuffer, this`bitPos, this`fetched, out
      ensures BitsValid() && bitPos >= old(bitPos)
      ensures status == End <==> token.symbol == 256
      ensures token.symbol < 0 || token.symbol >= 286 ==> status == Failed
      ensures 0 <= token.symbol < 256 ==> op == Literal(token.symbol as u8) && (status == Continue <==> z < out.Length)
      ensures 256 < token.symbol < 286 && !(0 <= token.distance < 30) ==> status == Failed
      ensures 256 < token.symbol < 286 && 0 <= token.distance < 30 ==>
                op.Match? && (status == Continue <==> op.distance <= z && z + op.length <= out.Length)
      ensures status == Continue ==> z < next <= out.Length && HuffmanOp(op) && Step(old(out[..z]), op) == Some(out[..next])
      ensures status != Continue ==> out[..] == old(out[..])
      ensures token.symbol < 0 || SymbolAt(lengthCodes, input, old(bitPos), token.symbol)
      ensures status != End || bitPos == After(lengthCodes, old(bitPos), 256)
      ensures !ReadsOp(token) || OpAt(lengthCodes, distanceCodes, input, old(bitPos), token, op, bitPos)
    {
      var sym := Decode(lengthTable, lengthCodes);
      token := Token(sym, -1);
      if sym < 256 {
        if sym < 0 || z >= out.Length {
          // The second test is the bound the source only asserts.
          return Failed, z, token, if sym < 0 then Literal(0) else Literal(sym as u8);
        }
        ghost var o := out[..z];
        out[z] := sym as u8;
        assert out[..z + 1] == o + [sym as u8];
        return Continue, z + 1, token, Literal(sym as u8);
      }
      if sym == 256 {
        return End, z, token, Literal(0);
      }
      if sym >= 286 {
        return Failed, z, token, Literal(0);
      }
      ghost var d;
      status, next, d, op := MatchStep(z, sym - 257);
      token := Token(sym, d);
      if 0 <= d < 30 {
        OpAtMatch(lengthCodes, distanceCodes, input, old(bitPos), sym, d, op, bitPos);
      }
    }

    /**
     * The length symbol `257 + i` of `ak_fbx__stbi__parse_huffman_block`:
     * length and distance with their extra bits, the distance checked
     * against the output written, then the copy.
     */
    method MatchStep(z: nat, i: nat) returns (status: Status, next: nat, ghost d: int, ghost op: Op)
      requires BitsValid() && TablesShaped() && TablesFor() && z <= out.Length && i < 29
      modifies this`pos, this`numBits, this`codeBuffer, this`bitPos, this`fetched, out
      ensures BitsValid() && bitPos >= old(bitPos)
      ensures status != End
      ensures !(0 <= d < 30) ==> status == Failed
      ensures 0 <= d < 30 ==> op.Match? && (status == Continue <==> op.distance <= z && z + op.length <= out.Length)
      ensures !(0 <= d < 30) || MatchAt(distanceCodes, input, old(bitPos), i, d, op, bitPos)
      ensures status == Continue ==> z < next <= out.Length && HuffmanOp(op) && Step(old(out[..z]), op) == Some(out[..next])
      ensures status != Continue ==> out[..] == old(out[..])
    {
      ghost var o := out[..z];
      var ok, len, dist;
      ok, len, dist, d := ReadMatch(i);
      if !ok {
        return Failed, z, d, Literal(0);
      }
      assert out[..z] == o;
      op := Match(len, dist);
      status, next := WriteMatch(z, len, dist);
    }

    /** The copy of a match at `z`: refused when the distance reaches before the output or the length passes its end. */
    method WriteMatch(z: nat, len: nat, dist: nat) returns (status: Status, next: nat)
      requires z <= out.Length && 1 <= dist
      modifies out
      ensures status != End
      ensures status == Continue <==> dist <= z && z + len <= out.Length
      ensures status == Continue ==> next == z + len && Step(old(out[..z]), Match(len, dist)) == Some(out[..next])
      ensures status != Continue ==> out[..] == old(out[..])
    {
      if z < dist || z + len > out.Length {
        // The second test is the bound the source only asserts.
        return Failed, z;
      }
      CopyBack(out, z, len, dist);
      return Continue, z + len;
    }

    /** The length and distance of length symbol `257 + i`; `ok` is false on an invalid distance symbol. */
    method ReadMatch(i: nat) returns (ok: bool, len: nat, dist: nat, ghost d: int)
      requires BitsValid() && TablesShaped() && TablesFor() && i < 29
      modifies this`pos, this`numBits, this`codeBuffer, this`bitPos, this`fetched
      ensures BitsValid() && bitPos >= old(bitPos)
      ensures ok <==> 0 <= d < 30
      ensures ok ==> 3 <= len <= 258 && 1 <= dist <= 32768
      ensures !ok || MatchAt(distanceCodes, input, old(bitPos), i, d, Match(len, dist), bitPos)
    {
      len := MatchLength(i);
      ghost var p := bitPos;
      var symbol;
      symbol, dist := MatchDistance();
      d := symbol;
      ok := 0 <= symbol < 30;
      if ok {
        MatchAtFrom(distanceCodes, input, old(bitPos), i, d, len, dist, p, bitPos);
      }
    }

    /** The length of length symbol `257 + i`: its base plus its extra bits. */
    method MatchLength(i: nat) returns (len: nat)
      requires BitsValid() && i < 29
      modifies this`pos, this`numBits, this`codeBuffer, this`bitPos, this`fetched
      ensures BitsValid()
      ensures len == LENGTH_BASE[i] + StreamBits(input, old(bitPos), LENGTH_EXTRA[i]) && 3 <= len <= 258
      ensures bitPos == old(bitPos) + LENGTH_EXTRA[i]
    {
      LengthTable(i);
      len := LENGTH_BASE[i];
      if LENGTH_EXTRA[i] != 0 {
        var extra := Receive(LENGTH_EXTRA[i]);
        len := len + extra;
      }
    }

    /**
     * The distance of a match: a symbol of the distance table, `-1` or one
     * of 30 and above being an error, then its base plus its extra bits.
     */
    method MatchDistance() returns (d: int, dist: nat)
      requires BitsValid() && TablesShaped() && TablesFor()
      modifies this`pos, this`numBits, this`codeBuffer, this`bitPos, this`fetched
      ensures BitsValid() && bitPos >= old(bitPos)
      ensures d < 0 ==> d == -1
      ensures 0 <= d < 30 ==> 1 <= dist <= 32768
      ensures !(0 <= d < 30) || DistanceAt(distanceCodes, input, old(bitPos), d, dist, bitPos)
    {
      d := Decode(distanceTable, distanceCodes);
      if d < 0 || d >= 30 {
        return d, 0;
      }
      DistanceTable(d);
      dist := DIST_BASE[d];
      if DIST_EXTRA[d] != 0 {
        var extra := Receive(DIST_EXTRA[d]);
        dist := dist + extra;
      }
    }

    /**
     * `ak_fbx__stbi__parse_zlib` with the header: after the zlib header
     * the bit buffer starts empty, and blocks are parsed until one with
     * BFINAL set ends.
     */
    method ParseZlib() returns (ok: bool, ghost blocks: seq<BlockRead>)
      requires Valid() && fetched == 0 && Ops == []
      modifies this, out
      ensures ok ==> Valid() && DeflateOps(Ops)
      ensures !ok || ZlibAt(input, blocks, Ops)
    {
      blocks := [];
      ok := ParseZlibHeader();
      if !ok {
        return false, blocks;
      }
      ResetBits();
      while true
        invariant Valid() && DeflateOps(Ops)
        invariant |input| > 2 && HeaderOk(ByteAt(input, 0), ByteAt(input, 1))
        invariant blocks == [] || (BlocksAt(input, 16, blocks) && !blocks[|blocks| - 1].final)
        invariant Ops == BlockOps(blocks)
        invariant bitPos == if blocks == [] then 16 else blocks[|blocks| - 1].end
        decreases BitsLeft(input, bitPos)
      {
        var final;
        ghost var b;
        ok, final, b := NextBlock();
        if !ok {
          return false, blocks;
        }
        BlocksSnoc(input, 16, blocks, b);
        blocks := blocks + [b];
        if final {
          return true, blocks;
        }
      }
    }

    /**
     * One pass of the loop of `ak_fbx__stbi__parse_zlib`: BFINAL and BTYPE,
     * then the block.  A block is only accepted before the end of the
     * input, as past it every bit reads as 0, which makes a stored block
     * that cannot be accepted there.
     */
    method NextBlock() returns (ok: bool, final: bool, ghost b: BlockRead)
      requires Valid() && DeflateOps(Ops)
      modifies this, out
      ensures Valid() && DeflateOps(Ops)
      ensures final == (StreamBits(input, old(bitPos), 1) != 0)
      ensures ok ==> old(bitPos) < 8 * |input| && bitPos >= old(bitPos) + 3
      ensures ok ==> b.start == old(bitPos) && b.end == bitPos && b.final == final && Ops == old(Ops) + b.ops
      ensures !ok || BlockAt(input, b)
    {
      ghost var p := bitPos;
      var last, kind := ReadBlockHeader();
      if p >= 8 * |input| {
        BlockPastEnd(input, p);
      }
      ghost var trace, ops;
      ok, trace, ops := ParseBlock(kind);
      final := last != 0;
      b := BlockRead(p, final, trace, ops, bitPos);
      if ok {
        BlockAtFrom(input, p, final, kind, trace, ops, bitPos);
      }
    }

    /** The three header bits of a block: BFINAL, then the two-bit BTYPE. */
    method ReadBlockHeader() returns (last: nat, kind: nat)
      requires BitsValid()
      modifies this`pos, this`numBits, this`codeBuffer, this`bitPos, this`fetched
      ensures BitsValid() && bitPos == old(bitPos) + 3
      ensures last == StreamBits(input, old(bitPos), 1)
      ensures kind == StreamBits(input, old(bitPos) + 1, 2) && kind < 4
    {
      last := Receive(1);
      kind := Receive(2);
      assert Pow2(2) == 4;
    }

    /**
     * One block of `ak_fbx__stbi__parse_zlib` after its three header bits:
     * type 0 is stored, 1 uses the fixed codes, 2 dynamic codes read by
     * `ComputeHuffmanCodes`, and 3 is an error.  An accepted block appends
     * literals, matches within DEFLATE's ranges or one stored block to
     * `Ops`.
     */
    method ParseBlock(kind: nat) returns (ok: bool, ghost trace: BlockTrace, ghost ops: seq<Op>)
      requires Valid() && DeflateOps(Ops) && kind < 4
      modifies this, out
      ensures Valid() && DeflateOps(Ops) && bitPos >= old(bitPos)
      ensures kind == 0 ==> (ok <==> StoredAccepted(input, old(bitPos)) && old(zout) + StoredLen(input, old(bitPos)) <= out.Length)
      ensures kind == 3 ==> !ok
      ensures ok ==> Ops == old(Ops) + ops
      ensures !ok || BlockBodyAt(input, old(bitPos), kind, trace, ops, bitPos)
    {
      trace, ops := StoredTrace, [];
      if kind == 3 {
        return false, trace, ops;
      }
      if kind == 0 {
        ok, ops := ParseStoredBlock();
      } else if kind == 1 {
        ok, trace, ops := ParseFixedBlock();
      } else {
        ok, trace, ops := ParseDynamicBlock();
      }
      if ok {
        DeflateOpsAppend(old(Ops), ops);
      }
    }

    /** A stored block: its bytes become one `Stored` operation, and reading resumes after them. */
    method ParseStoredBlock() returns (ok: bool, ghost ops: seq<Op>)
      requires Valid()
      modifies this, out
      ensures Valid() && bitPos >= old(bitPos)
      ensures ok <==> StoredAccepted(input, old(bitPos)) && old(zout) + StoredLen(input, old(bitPos)) <= out.Length
      ensures ok ==> DeflateOps(ops) && Ops == old(Ops) + ops
      ensures !ok || BlockBodyAt(input, old(bitPos), 0, StoredTrace, ops, bitPos)
      ensures !ok ==> Ops == old(Ops)
    {
      ok := ParseUncompressedBlock();
      ops := if ok then [Stored(StoredBytes(input, old(bitPos)))] else [];
    }

    /** A block with the fixed codes: both tables are built from the fixed code lengths, then the block body is read with them. */
    method ParseFixedBlock() returns (ok: bool, ghost trace: BlockTrace, ghost ops: seq<Op>)
      requires Valid()
      modifies this, out
      ensures Valid() && bitPos >= old(bitPos)
      ensures ok ==> HuffmanOps(ops) && Ops == old(Ops) + ops
      ensures !ok || BlockBodyAt(input, old(bitPos), 1, trace, ops, bitPos)
      ensures !ok ==> Ops == old(Ops)
    {
      // The fixed tables always build, so the source's failure return there is never taken.
      var built := SetFixedTables();
      ghost var bounds, tokens;
      ok, ops, bounds, tokens := ParseHuffmanBlock();
      trace := FixedTrace(bounds, tokens);
    }

    /** Both tables are built from the fixed code lengths, which always succeeds. */
    method SetFixedTables() returns (ok: bool)
      requires Valid()
      modifies this
      ensures Valid() && zout == old(zout) && Ops == old(Ops) && bitPos == old(bitPos)
      ensures ok && lengthCodes == DEFAULT_LENGTH && distanceCodes == DEFAULT_DISTANCE
      ensures TablesFor()
    {
      var litOk, litTable, distOk, distTable := FixedTables();
      SetTables(litOk, litTable, DEFAULT_LENGTH, distTable, DEFAULT_DISTANCE);
      ok := litOk && distOk;
    }

    /** A block with dynamic codes: the code lengths and tables are read by `ComputeHuffmanCodes`, then the block body with them. */
    method ParseDynamicBlock() returns (ok: bool, ghost trace: BlockTrace, ghost ops: seq<Op>)
      requires Valid()
      modifies this, out
      ensures Valid() && bitPos >= old(bitPos)
      ensures ok ==> HuffmanOps(ops) && Ops == old(Ops) + ops
      ensures !ok || BlockBodyAt(input, old(bitPos), 2, trace, ops, bitPos)
      ensures !ok ==> Ops == old(Ops)
    {
      ghost var runBounds, runs;
      ok, runBounds, runs := ComputeHuffmanCodes();
      trace, ops := StoredTrace, [];
      if !ok {
        return;
      }
      ghost var bounds, tokens;
      ok, ops, bounds, tokens := ParseHuffmanBlock();
      trace := DynamicTrace(lengthCodes, distanceCodes, runBounds, runs, bounds, tokens);
    }

    /** `a->num_bits = 0; a->code_buffer = 0;`: the bit buffer starts empty after the header bytes. */
    method ResetBits()
      requires Cursor()
      modifies this`pos, this`numBits, this`codeBuffer, this`bitPos, this`fetched
      ensures BitsValid() && numBits == 0 && bitPos == 8 * fetched && fetched == old(fetched)
    {
      numBits := 0;
      codeBuffer := 0;
      bitPos := 8 * fetched;
    }
  }
}
