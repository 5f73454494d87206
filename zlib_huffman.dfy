/**
 * Canonical Huffman codes of DEFLATE (section 3.2.2 of RFC 1951) and the
 * decoding table `ak_fbx__stbi__zbuild_huffman` builds from a list of code
 * lengths.
 *
 * The canonical code is specified independently of the table: `NextCode`
 * is step 2 of section 3.2.2 and `Code` step 3.  `TableFor` says that a
 * table holds, for every code length, the first code, the index of the
 * first symbol and the pre-shifted limit code, and the symbols of each
 * length in increasing order.
 */
module ZlibHuffman {
  import opened Bits

  /** `AK_FBX__STBI__ZNSYMS`, the size of the literal/length alphabet. */
  const ZNSYMS: nat := 288

  /** The longest code DEFLATE allows; the builder's loops run over lengths 1 to 15. */
  const MAX_CODE_LENGTH: nat := 15

  /** How many of the code lengths are `len` (`sizes[len]`). */
  function CountLength(lengths: seq<int>, len: int): (n: nat)
    ensures n <= |lengths|
  {
    if lengths == [] then 0
    else CountLength(lengths[..|lengths| - 1], len) + (if lengths[|lengths| - 1] == len then 1 else 0)
  }

  /** The count over a concatenation is the sum of the counts over its two parts. */
  lemma {:induction false} CountLengthConcat(a: seq<int>, b: seq<int>, len: int)
    ensures CountLength(a + b, len) == CountLength(a, len) + CountLength(b, len)
    decreases |b|
  {
    if b == [] {
      assert a + b == a;
    } else {
      assert (a + b)[..|a + b| - 1] == a + b[..|b| - 1];
      CountLengthConcat(a, b[..|b| - 1], len);
    }
  }

  /** A run of `n` lengths `c` counts `n` for `c` and nothing for any other length. */
  lemma {:induction false} CountLengthRun(n: nat, c: int, len: int)
    ensures CountLength(seq(n, _ => c), len) == if c == len then n else 0
  {
    if n > 0 {
      assert seq(n, _ => c)[..n - 1] == seq(n - 1, _ => c);
      CountLengthRun(n - 1, c, len);
    }
  }

  /**
   * The Kraft sum scaled to level `s`, in Horner form: the sum over every
   * length `1 <= l <= s` of `count(l) * 2^(s - l)`.  The lengths are not
   * over-subscribed exactly when it is at most `2^s`.
   */
  function KraftSum(lengths: seq<int>, s: nat): nat
  {
    if s == 0 then 0 else 2 * KraftSum(lengths, s - 1) + CountLength(lengths, s)
  }

  /** `next_code[s]`, step 2 of section 3.2.2: the first code of length `s`. */
  function NextCode(lengths: seq<int>, s: nat): nat
    requires s >= 1
  {
    2 * KraftSum(lengths, s - 1)
  }

  /** How many symbols have a nonzero length below `s` (`firstsymbol[s]`). */
  function SymbolsBelow(lengths: seq<int>, s: nat): nat
  {
    if s <= 1 then 0 else SymbolsBelow(lengths, s - 1) + CountLength(lengths, s - 1)
  }

  /** How many earlier symbols have the same length as symbol `i`. */
  function Rank(lengths: seq<int>, i: nat): nat
    requires i < |lengths|
  {
    CountLength(lengths[..i], lengths[i])
  }

  /** The canonical code of symbol `i`, step 3 of section 3.2.2. */
  function Code(lengths: seq<int>, i: nat): nat
    requires i < |lengths| && lengths[i] >= 1
  {
    NextCode(lengths, lengths[i]) + Rank(lengths, i)
  }

  /** Where symbol `i` sits in the table's symbol arrays. */
  function Slot(lengths: seq<int>, i: nat): nat
    requires i < |lengths| && lengths[i] >= 0
  {
    SymbolsBelow(lengths, lengths[i]) + Rank(lengths, i)
  }

  /** The code lengths the inflater hands to the table builder. */
  predicate LengthsOk(lengths: seq<int>)
  {
    |lengths| <= ZNSYMS && forall i :: 0 <= i < |lengths| ==> 0 <= lengths[i] < 16
  }

  /**
   * `ak_fbx__stbi__zhuffman` without its `fast` lookup table: `firstCode`,
   * `firstSymbol` (16 entries), `maxCode` (17) and `size`, `value` (288).
   */
  datatype Huffman = Huffman(firstCode: seq<int>, maxCode: seq<int>, firstSymbol: seq<int>, size: seq<int>, value: seq<int>)

  /** The array sizes of the struct and the `maxcode[16]` sentinel. */
  predicate Shaped(h: Huffman)
  {
    && |h.firstCode| == 16 && |h.maxCode| == 17 && |h.firstSymbol| == 16
    && |h.size| == ZNSYMS && |h.value| == ZNSYMS
    && h.maxCode[16] == 0x1_0000
  }

  /** A table with every array zero but the sentinel. */
  function EmptyTable(): (h: Huffman)
    ensures Shaped(h)
  {
    Huffman(seq(16, _ => 0), seq(17, i => if i == 16 then 0x1_0000 else 0), seq(16, _ => 0), seq(ZNSYMS, _ => 0), seq(ZNSYMS, _ => 0))
  }

  /** Level `s` of the table agrees with the canonical code. */
  ghost predicate LevelFor(h: Huffman, lengths: seq<int>, s: nat)
    requires Shaped(h) && 1 <= s < 16
  {
    && h.firstCode[s] == NextCode(lengths, s)
    && h.firstSymbol[s] == SymbolsBelow(lengths, s)
    && h.maxCode[s] == ShiftLeft(NextCode(lengths, s) + CountLength(lengths, s), 16 - s)
  }

  /** Symbol `i`, when it has a code, is stored at its slot with its length. */
  ghost predicate SymbolFor(h: Huffman, lengths: seq<int>, i: nat)
    requires Shaped(h) && i < |lengths|
  {
    lengths[i] > 0 ==> Slot(lengths, i) < ZNSYMS && h.size[Slot(lengths, i)] == lengths[i] && h.value[Slot(lengths, i)] == i
  }

  /** `h` is the decoding table of the canonical code with these lengths. */
  ghost predicate TableFor(h: Huffman, lengths: seq<int>)
  {
    && Shaped(h) && LengthsOk(lengths)
    && KraftSum(lengths, MAX_CODE_LENGTH) <= Pow2(MAX_CODE_LENGTH)
    && (forall s :: 1 <= s < 16 ==> LevelFor(h, lengths, s))
    && (forall i :: 0 <= i < |lengths| ==> SymbolFor(h, lengths, i))
  }

  /**
   * `ak_fbx__stbi__zbuild_huffman` without the `fast` table.  It succeeds
   * exactly when the lengths are not over-subscribed, and then the table
   * decodes the canonical code.
   */
  method BuildHuffman(lengths: seq<int>) returns (ok: bool, h: Huffman)
    requires LengthsOk(lengths)
    ensures Shaped(h)
    ensures ok <==> KraftSum(lengths, MAX_CODE_LENGTH) <= Pow2(MAX_CODE_LENGTH)
    ensures ok ==> TableFor(h, lengths)
  {
    h := EmptyTable();
    var sizes := CountSizes(lengths);
    sizes := sizes[0 := 0];
    var i := 1;
    while i < 16
      invariant 1 <= i <= 16
    {
      if sizes[i] > Pow2(i) {
        KraftAtLeastCount(lengths, i);
        KraftOverflowPropagates(lengths, i, MAX_CODE_LENGTH);
        return false, h;
      }
      i := i + 1;
    }
    var firstCode, maxCode, firstSymbol;
    ok, firstCode, maxCode, firstSymbol := BuildLevels(lengths, sizes);
    if !ok {
      return false, h;
    }
    forall l | 1 <= l < 16
      ensures firstCode[l] == NextCode(lengths, l) && firstSymbol[l] == SymbolsBelow(lengths, l)
    {
      assert Level(lengths, firstCode, maxCode, firstSymbol, l);
    }
    var size, value := PlaceSymbols(lengths, firstCode, firstSymbol);
    h := Huffman(firstCode, maxCode, firstSymbol, size, value);
    forall l | 1 <= l < 16
      ensures LevelFor(h, lengths, l)
    {
      assert Level(lengths, firstCode, maxCode, firstSymbol, l);
    }
  }

  /** The first loop of `ak_fbx__stbi__zbuild_huffman`: `sizes[l]` counts the lengths equal to `l`. */
  method CountSizes(lengths: seq<int>) returns (sizes: seq<nat>)
    requires LengthsOk(lengths)
    ensures |sizes| == 17
    ensures forall l :: 0 <= l < 17 ==> sizes[l] == CountLength(lengths, l)
  {
    sizes := seq(17, _ => 0);
    var i := 0;
    while i < |lengths|
      invariant 0 <= i <= |lengths| && |sizes| == 17
      invariant forall l :: 0 <= l < 17 ==> sizes[l] == CountLength(lengths[..i], l)
    {
      CountLengthStep(lengths, i);
      sizes := sizes[lengths[i] := sizes[lengths[i]] + 1];
      i := i + 1;
    }
    assert lengths[..|lengths|] == lengths;
  }

  /**
   * The loop over lengths 1 to 15 of `ak_fbx__stbi__zbuild_huffman`: the
   * first code, first symbol and shifted limit of each length, failing as
   * soon as the codes of some length run past `2^length`.
   */
  method BuildLevels(lengths: seq<int>, sizes: seq<nat>) returns (ok: bool, firstCode: seq<int>, maxCode: seq<int>, firstSymbol: seq<int>)
    requires |sizes| == 17 && forall l :: 1 <= l < 16 ==> sizes[l] == CountLength(lengths, l)
    ensures ok <==> KraftSum(lengths, MAX_CODE_LENGTH) <= Pow2(MAX_CODE_LENGTH)
    ensures ok ==> |firstCode| == 16 && |firstSymbol| == 16 && |maxCode| == 17 && maxCode[16] == 0x1_0000
    ensures ok ==> forall l :: 1 <= l < 16 ==> Level(lengths, firstCode, maxCode, firstSymbol, l)
  {
    var code := 0;
    var k := 0;
    firstCode := seq(16, _ => 0);
    firstSymbol := seq(16, _ => 0);
    maxCode := seq(17, _ => 0);
    var i := 1;
    while i < 16
      invariant 1 <= i <= 16
      invariant |firstCode| == 16 && |firstSymbol| == 16 && |maxCode| == 17
      invariant code == NextCode(lengths, i) && k == SymbolsBelow(lengths, i)
      invariant KraftSum(lengths, i - 1) <= Pow2(i - 1)
      invariant Levels(lengths, firstCode, maxCode, firstSymbol, i)
    {
      var count := sizes[i];
      KraftStep(lengths, i);
      if count > 0 && code + count - 1 >= Pow2(i) {
        KraftOverflowPropagates(lengths, i, MAX_CODE_LENGTH);
        return false, firstCode[i := code], maxCode, firstSymbol[i := k];
      }
      firstCode, maxCode, firstSymbol, code, k := BuildLevel(lengths, i, count, code, k, firstCode, maxCode, firstSymbol);
      i := i + 1;
    }
    LevelsSentinel(lengths, firstCode, maxCode, firstSymbol);
    maxCode := maxCode[16 := 0x1_0000];
    ok := true;
  }

  /** One length of the builder's loop once its codes fit: its level is written and the counters move on. */
  method BuildLevel(lengths: seq<int>, i: nat, count: nat, code: nat, k: nat, firstCode: seq<int>, maxCode: seq<int>, firstSymbol: seq<int>)
    returns (firstCode': seq<int>, maxCode': seq<int>, firstSymbol': seq<int>, code': nat, k': nat)
    requires 1 <= i < 16 && |firstCode| == 16 && |firstSymbol| == 16 && |maxCode| == 17
    requires count == CountLength(lengths, i) && code == NextCode(lengths, i) && k == SymbolsBelow(lengths, i)
    requires Levels(lengths, firstCode, maxCode, firstSymbol, i)
    ensures |firstCode'| == 16 && |firstSymbol'| == 16 && |maxCode'| == 17
    ensures code' == NextCode(lengths, i + 1) && k' == SymbolsBelow(lengths, i + 1)
    ensures Levels(lengths, firstCode', maxCode', firstSymbol', i + 1)
  {
    LevelsExtend(lengths, firstCode, maxCode, firstSymbol, i, code, k);
    firstCode' := firstCode[i := code];
    firstSymbol' := firstSymbol[i := k];
    maxCode' := maxCode[i := ShiftLeft(code + count, 16 - i)];
    code' := (code + count) * 2;
    k' := k + count;
  }

  /**
   * The test of one length in the builder: with the shorter lengths not
   * over-subscribed, the codes of length `s` run past `2^s` exactly when
   * the Kraft sum at `s` does.
   */
  lemma KraftStep(lengths: seq<int>, s: nat)
    requires 1 <= s && KraftSum(lengths, s - 1) <= Pow2(s - 1)
    ensures (CountLength(lengths, s) > 0 && NextCode(lengths, s) + CountLength(lengths, s) - 1 >= Pow2(s))
            <==> KraftSum(lengths, s) > Pow2(s)
  {
    assert Pow2(s) == 2 * Pow2(s - 1);
  }

  /** Levels 1 to `n - 1` of the three arrays agree with the canonical code. */
  ghost predicate Levels(lengths: seq<int>, firstCode: seq<int>, maxCode: seq<int>, firstSymbol: seq<int>, n: nat)
    requires |firstCode| == 16 && |firstSymbol| == 16 && |maxCode| == 17 && n <= 16
  {
    forall l :: 1 <= l < n ==> Level(lengths, firstCode, maxCode, firstSymbol, l)
  }

  /** Writing level `i` from the running code and symbol counters extends the agreeing levels. */
  lemma LevelsExtend(lengths: seq<int>, firstCode: seq<int>, maxCode: seq<int>, firstSymbol: seq<int>, i: nat, code: nat, k: nat)
    requires |firstCode| == 16 && |firstSymbol| == 16 && |maxCode| == 17 && 1 <= i < 16
    requires Levels(lengths, firstCode, maxCode, firstSymbol, i)
    requires code == NextCode(lengths, i) && k == SymbolsBelow(lengths, i)
    ensures Levels(lengths, firstCode[i := code], maxCode[i := ShiftLeft(code + CountLength(lengths, i), 16 - i)], firstSymbol[i := k], i + 1)
  {
    var fc, mc, fs := firstCode[i := code], maxCode[i := ShiftLeft(code + CountLength(lengths, i), 16 - i)], firstSymbol[i := k];
    forall l | 1 <= l < i + 1
      ensures Level(lengths, fc, mc, fs, l)
    {
      if l < i {
        assert Level(lengths, firstCode, maxCode, firstSymbol, l);
      }
    }
  }

  /** The sentinel at index 16 leaves levels 1 to 15 alone. */
  lemma LevelsSentinel(lengths: seq<int>, firstCode: seq<int>, maxCode: seq<int>, firstSymbol: seq<int>)
    requires |firstCode| == 16 && |firstSymbol| == 16 && |maxCode| == 17
    requires Levels(lengths, firstCode, maxCode, firstSymbol, 16)
    ensures Levels(lengths, firstCode, maxCode[16 := 0x1_0000], firstSymbol, 16)
  {
    var mc := maxCode[16 := 0x1_0000];
    forall l | 1 <= l < 16
      ensures Level(lengths, firstCode, mc, firstSymbol, l)
    {
      assert Level(lengths, firstCode, maxCode, firstSymbol, l);
    }
  }

  /** Entry `l` of the three level arrays agrees with the canonical code. */
  ghost predicate Level(lengths: seq<int>, firstCode: seq<int>, maxCode: seq<int>, firstSymbol: seq<int>, l: nat)
    requires 1 <= l < |firstCode| && l < |maxCode| && l < |firstSymbol| && l <= 16
  {
    && firstCode[l] == NextCode(lengths, l)
    && firstSymbol[l] == SymbolsBelow(lengths, l)
    && maxCode[l] == ShiftLeft(NextCode(lengths, l) + CountLength(lengths, l), 16 - l)
  }

  /**
   * The loop over the symbols of `ak_fbx__stbi__zbuild_huffman`: each
   * symbol with a code goes to the next free entry of its length.
   */
  method PlaceSymbols(lengths: seq<int>, firstCode: seq<int>, firstSymbol: seq<int>) returns (size: seq<int>, value: seq<int>)
    requires LengthsOk(lengths)
    requires |firstCode| == 16 && |firstSymbol| == 16
    requires forall l :: 1 <= l < 16 ==> firstCode[l] == NextCode(lengths, l) && firstSymbol[l] == SymbolsBelow(lengths, l)
    ensures |size| == ZNSYMS && |value| == ZNSYMS
    ensures forall j :: 0 <= j < |lengths| && lengths[j] > 0 ==>
              Slot(lengths, j) < ZNSYMS && size[Slot(lengths, j)] == lengths[j] && value[Slot(lengths, j)] == j
  {
    var nextCode := firstCode;
    size := seq(ZNSYMS, _ => 0);
    value := seq(ZNSYMS, _ => 0);
    var i := 0;
    while i < |lengths|
      invariant 0 <= i <= |lengths| && |nextCode| == 16 && |size| == ZNSYMS && |value| == ZNSYMS
      invariant forall s :: 1 <= s < 16 ==> nextCode[s] == NextCode(lengths, s) + CountLength(lengths[..i], s)
      invariant Placed(lengths, size, value, i)
    {
      var s := lengths[i];
      CountLengthStep(lengths, i);
      if s > 0 {
        var c := nextCode[s] - firstCode[s] + firstSymbol[s];
        PlaceStep(lengths, size, value, i, c);
        size := size[c := s];
        value := value[c := i];
        nextCode := nextCode[s := nextCode[s] + 1];
      } else {
        PlaceSkip(lengths, size, value, i);
      }
      i := i + 1;
    }
  }

  /** The symbols before `n` that have a code sit at their slots. */
  ghost predicate Placed(lengths: seq<int>, size: seq<int>, value: seq<int>, n: nat)
    requires n <= |lengths| && |size| == ZNSYMS && |value| == ZNSYMS
  {
    forall j :: 0 <= j < n && lengths[j] >= 1 ==>
      Slot(lengths, j) < ZNSYMS && size[Slot(lengths, j)] == lengths[j] && value[Slot(lengths, j)] == j
  }

  /** Storing symbol `i` at its slot keeps the earlier symbols in place. */
  lemma PlaceStep(lengths: seq<int>, size: seq<int>, value: seq<int>, i: nat, c: int)
    requires LengthsOk(lengths) && i < |lengths| && lengths[i] > 0 && |size| == ZNSYMS && |value| == ZNSYMS
    requires Placed(lengths, size, value, i)
    requires c == Slot(lengths, i)
    ensures 0 <= c < ZNSYMS && Placed(lengths, size[c := lengths[i]], value[c := i], i + 1)
  {
    SlotSeparates(lengths, i);
  }

  /** A symbol without a code takes no slot. */
  lemma PlaceSkip(lengths: seq<int>, size: seq<int>, value: seq<int>, i: nat)
    requires i < |lengths| && lengths[i] <= 0 && |size| == ZNSYMS && |value| == ZNSYMS
    requires Placed(lengths, size, value, i)
    ensures Placed(lengths, size, value, i + 1)
  {
  }

  /** Counting one more length of a prefix. */
  lemma CountLengthStep(lengths: seq<int>, i: nat)
    requires i < |lengths|
    ensures forall l :: CountLength(lengths[..i + 1], l) == CountLength(lengths[..i], l) + (if lengths[i] == l then 1 else 0)
  {
    assert lengths[..i + 1][..i] == lengths[..i];
  }

  /** A longer prefix counts at least as many. */
  lemma {:induction false} CountLengthMonotone(lengths: seq<int>, a: nat, b: nat, l: int)
    requires a <= b <= |lengths|
    ensures CountLength(lengths[..a], l) <= CountLength(lengths[..b], l)
    decreases b - a
  {
    if a < b {
      CountLengthMonotone(lengths, a, b - 1, l);
      CountLengthStep(lengths, b - 1);
    }
  }

  /** A symbol's rank is below the number of symbols of its length. */
  lemma RankBelowCount(lengths: seq<int>, i: nat)
    requires i < |lengths|
    ensures Rank(lengths, i) < CountLength(lengths, lengths[i])
  {
    CountLengthStep(lengths, i);
    CountLengthMonotone(lengths, i + 1, |lengths|, lengths[i]);
    assert lengths[..|lengths|] == lengths;
  }

  /** The counts of lengths below `t` grow with `t`. */
  lemma {:induction false} SymbolsBelowMonotone(lengths: seq<int>, s: nat, t: nat)
    requires s <= t
    ensures SymbolsBelow(lengths, s) <= SymbolsBelow(lengths, t)
    decreases t - s
  {
    if s < t {
      SymbolsBelowMonotone(lengths, s, t - 1);
    }
  }

  /** Adding a length to the end adds one to the counts below every larger level. */
  lemma {:induction false} SymbolsBelowAppend(lengths: seq<int>, x: int, s: nat)
    ensures SymbolsBelow(lengths + [x], s) == SymbolsBelow(lengths, s) + (if 1 <= x < s then 1 else 0)
  {
    assert (lengths + [x])[..|lengths|] == lengths;
    if s > 1 {
      SymbolsBelowAppend(lengths, x, s - 1);
    }
  }

  /** No more symbols have a nonzero length than there are symbols. */
  lemma {:induction false} SymbolsBelowTotal(lengths: seq<int>, s: nat)
    ensures SymbolsBelow(lengths, s) <= |lengths|
    decreases |lengths|
  {
    if lengths == [] {
      SymbolsBelowEmpty(s);
    } else {
      var init := lengths[..|lengths| - 1];
      assert lengths == init + [lengths[|lengths| - 1]];
      SymbolsBelowAppend(init, lengths[|lengths| - 1], s);
      SymbolsBelowTotal(init, s);
    }
  }

  lemma {:induction false} SymbolsBelowEmpty(s: nat)
    ensures SymbolsBelow([], s) == 0
  {
    if s > 1 {
      SymbolsBelowEmpty(s - 1);
    }
  }

  /** Symbol `i`'s slot is in range and differs from the slot of every earlier symbol with a code. */
  lemma SlotSeparates(lengths: seq<int>, i: nat)
    requires LengthsOk(lengths) && i < |lengths| && lengths[i] > 0
    ensures Slot(lengths, i) < ZNSYMS
    ensures forall j :: 0 <= j < i && lengths[j] > 0 ==> Slot(lengths, j) != Slot(lengths, i)
  {
    var s := lengths[i];
    RankBelowCount(lengths, i);
    SymbolsBelowMonotone(lengths, s + 1, 16);
    SymbolsBelowTotal(lengths, 16);
    forall j | 0 <= j < i && lengths[j] > 0
      ensures Slot(lengths, j) != Slot(lengths, i)
    {
      var t := lengths[j];
      RankBelowCount(lengths, j);
      if t == s {
        CountLengthStep(lengths, j);
        CountLengthMonotone(lengths, j + 1, i, s);
      } else if t < s {
        SymbolsBelowMonotone(lengths, t + 1, s);
      } else {
        SymbolsBelowMonotone(lengths, s + 1, t);
      }
    }
  }

  /** The Kraft sum at a level counts the lengths of that level. */
  lemma KraftAtLeastCount(lengths: seq<int>, s: nat)
    requires s >= 1
    ensures KraftSum(lengths, s) >= CountLength(lengths, s)
  {
  }

  /** Over-subscription at one level stays over-subscription at every later level. */
  lemma {:induction false} KraftOverflowPropagates(lengths: seq<int>, s: nat, t: nat)
    requires 1 <= s <= t && KraftSum(lengths, s) > Pow2(s)
    ensures KraftSum(lengths, t) > Pow2(t)
    decreases t - s
  {
    if s < t {
      KraftOverflowPropagates(lengths, s + 1, t);
    }
  }

  /** For every rank below the count of length `s` some symbol of length `s` has that rank. */
  lemma {:induction false} RankExists(lengths: seq<int>, s: int, r: nat)
    requires r < CountLength(lengths, s)
    ensures exists v :: 0 <= v < |lengths| && lengths[v] == s && Rank(lengths, v) == r
    decreases |lengths|
  {
    var n := |lengths| - 1;
    var init := lengths[..n];
    if r < CountLength(init, s) {
      RankExists(init, s, r);
      var v :| 0 <= v < |init| && init[v] == s && Rank(init, v) == r;
      assert lengths[..v] == init[..v];
      assert Rank(lengths, v) == r;
    } else {
      assert lengths[..n] == init;
      assert lengths[n] == s && Rank(lengths, n) == r;
    }
  }

  /** `k < m * p` with `p > 0` bounds the quotient: `k / p < m`. */
  lemma DivBelow(k: nat, m: nat, p: nat)
    requires p > 0 && k < m * p
    ensures k / p < m
  {
    var q := k / p;
    assert q * p <= k;
    if q >= m {
      MulMonotone(m, q, p);
    }
  }

  /** `k >= m * p` with `p > 0` bounds the quotient: `k / p >= m`. */
  lemma DivAtLeast(k: nat, m: nat, p: nat)
    requires p > 0 && k >= m * p
    ensures k / p >= m
  {
    var q := k / p;
    assert k < (q + 1) * p;
    if q + 1 <= m {
      MulMonotone(q + 1, m, p);
    }
  }

  lemma MulMonotone(a: nat, b: nat, p: nat)
    requires a <= b
    ensures a * p <= b * p
  {
  }

  /**
   * The search of `ak_fbx__stbi__zhuffman_decode_slowpath` is sound: if
   * `s` is the first length whose limit exceeds the 16 reversed buffer
   * bits `k`, the table entry it selects is a symbol of length `s` whose
   * canonical code is the leading `s` bits of `k`.
   */
  lemma DecodeSound(h: Huffman, lengths: seq<int>, k: nat, s: nat, b: int)
    requires TableFor(h, lengths)
    requires 1 <= s < 16 && k < 0x1_0000
    requires k < h.maxCode[s]
    requires forall t :: 1 <= t < s ==> k >= h.maxCode[t]
    requires b == k / Pow2(16 - s) - h.firstCode[s] + h.firstSymbol[s]
    ensures && 0 <= b < ZNSYMS && h.size[b] == s
            && 0 <= h.value[b] < |lengths| && lengths[h.value[b]] == s
            && Code(lengths, h.value[b]) == k / Pow2(16 - s)
  {
    var q := k / Pow2(16 - s);
    assert LevelFor(h, lengths, s);
    if s > 1 {
      assert LevelFor(h, lengths, s - 1);
    }
    CodeRange(h, lengths, k, s);
    var r := q - NextCode(lengths, s);
    RankExists(lengths, s, r);
    var v :| 0 <= v < |lengths| && lengths[v] == s && Rank(lengths, v) == r;
    assert b == Slot(lengths, v);
    assert SymbolFor(h, lengths, v);
  }

  /** The leading `s` bits of `k` lie among the codes of length `s`. */
  lemma CodeRange(h: Huffman, lengths: seq<int>, k: nat, s: nat)
    requires Shaped(h) && 1 <= s < 16 && LevelFor(h, lengths, s)
    requires k < h.maxCode[s]
    requires s > 1 ==> LevelFor(h, lengths, s - 1) && k >= h.maxCode[s - 1]
    ensures NextCode(lengths, s) <= k / Pow2(16 - s) < NextCode(lengths, s) + CountLength(lengths, s)
  {
    var p := Pow2(16 - s);
    ShiftLeftIsMul(NextCode(lengths, s) + CountLength(lengths, s), 16 - s);
    DivBelow(k, NextCode(lengths, s) + CountLength(lengths, s), p);
    if s > 1 {
      PreviousLimit(h, lengths, s);
      DivAtLeast(k, NextCode(lengths, s), p);
    }
  }

  /** The limit of length `s - 1` is the first code of length `s`, shifted to 16 bits. */
  lemma PreviousLimit(h: Huffman, lengths: seq<int>, s: nat)
    requires Shaped(h) && 1 < s < 16 && LevelFor(h, lengths, s - 1)
    ensures h.maxCode[s - 1] == NextCode(lengths, s) * Pow2(16 - s)
  {
    var p := Pow2(16 - s);
    ShiftLeftIsMul(KraftSum(lengths, s - 1), 16 - (s - 1));
    assert Pow2(16 - (s - 1)) == 2 * p;
    MulAssocNat(KraftSum(lengths, s - 1), 2, p);
  }

  lemma MulAssocNat(x: nat, y: nat, z: nat)
    ensures (x * y) * z == x * (y * z)
  {
  }
}
