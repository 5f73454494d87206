/**
 * `ak_fbx__id_ptr_map`: an open-addressing map from 64-bit object IDs to
 * pointers.  Items live in insertion order in `IDs[]`/`Ptrs[]`; a slot
 * holds a hash and an item index (or `FREE`), and the slot at position `b`
 * also counts, in `BaseCount`, the occupied slots whose hash has base `b`.
 * Lookups probe linearly from the base and stop once that many have been
 * seen.
 *
 * `Hash & SlotMask` is written as the remainder by the slot capacity
 * (`Base`) and `(Slot + 1) & SlotMask` as an increment that wraps to 0
 * after the last slot (`NextSlot`): the slot capacity is a power of two,
 * for which masking with `capacity - 1` and these agree.  Pointers are naturals, 0 being null.
 */
module FbxIdMap {
  import opened Bits
  import opened Wrappers

  /** `(ak_fbx_u32)-1`, the item index of a free slot. */
  const FREE: u32 := 0xFFFF_FFFF

  datatype HashSlot = HashSlot(hash: u32, itemIndex: u32, baseCount: u32)

  const EMPTY_SLOT: HashSlot := HashSlot(0, FREE, 0)

  /** `AK_FBX__Hash_U64` on the key's 64 bits: an integer mix, then truncation to 32 bits. */
  function HashBits(k: bv64): bv32
  {
    var k1 := (!k) + (k << 18);
    var k2 := k1 ^ (k1 >> 31);
    var k3 := k2 * 21;
    var k4 := k3 ^ (k3 >> 11);
    var k5 := k4 + (k4 << 6);
    var k6 := k5 ^ (k5 >> 22);
    (k6 & 0xFFFF_FFFF) as bv32
  }

  /** The hash of a signed 64-bit ID, as `AK_FBX__Hash_U64` sees it after the conversion to `u64`. */
  function Hash(key: int): u32
  {
    HashBits(Wrap64(key) as bv64) as int
  }

  /**
   * `Hash & SlotMask`: the slot where probing for a hash starts, the
   * remainder of the hash by the capacity, taken by repeated subtraction.
   */
  function Base(hash: nat, capacity: nat): (b: nat)
    requires capacity > 0
    ensures b < capacity
    decreases hash
  {
    if hash < capacity then hash else Base(hash - capacity, capacity)
  }

  /** `Base` is the remainder by the capacity. */
  lemma {:induction false} BaseIsRemainder(hash: nat, capacity: nat)
    requires capacity > 0
    ensures Base(hash, capacity) == hash % capacity
    decreases hash
  {
    if hash >= capacity {
      BaseIsRemainder(hash - capacity, capacity);
      DivModUnique(hash, (hash - capacity) / capacity + 1, (hash - capacity) % capacity, capacity);
    }
  }

  /** The slot `j` steps on from `start`, wrapping round a table of `capacity` slots. */
  function Probe(start: nat, j: nat, capacity: nat): (r: nat)
    requires start < capacity && j < capacity
    ensures r < capacity
  {
    if start + j < capacity then start + j else start + j - capacity
  }

  /** How many steps from `start` reach slot `s`. */
  function Offset(start: nat, s: nat, capacity: nat): (j: nat)
    requires start < capacity && s < capacity
    ensures j < capacity && Probe(start, j, capacity) == s
  {
    if s >= start then s - start else s + capacity - start
  }

  /**
   * `(Slot + 1) & SlotMask`: the next slot, wrapping to 0 after the last.
   */
  function NextSlot(s: nat, capacity: nat): (r: nat)
    requires s < capacity
    ensures r < capacity
  {
    if s + 1 == capacity then 0 else s + 1
  }

  /** One step on from the slot `j` steps from `start` is the slot `j + 1` steps from it. */
  lemma NextProbe(start: nat, j: nat, capacity: nat)
    requires start < capacity && j + 1 < capacity
    ensures NextSlot(Probe(start, j, capacity), capacity) == Probe(start, j + 1, capacity)
  {
  }

  /** What the probing loops count. */
  datatype Criterion =
    | Occupied
    | OccupiedWithBase(base: nat)
    | HashWithBase(base: nat)

  predicate Holds(c: Criterion, s: HashSlot, capacity: nat)
    requires capacity > 0
  {
    match c
    case Occupied => s.itemIndex != FREE
    case OccupiedWithBase(b) => s.itemIndex != FREE && Base(s.hash, capacity) == b
    case HashWithBase(b) => Base(s.hash, capacity) == b
  }

  /**
   * How many of the `len` slots met when probing from `start` (wrapping
   * round the table) meet `c`.
   */
  function CountWindow(slots: seq<HashSlot>, c: Criterion, start: nat, len: nat): (n: nat)
    requires start < |slots| && len <= |slots|
    ensures n <= len
  {
    if len == 0 then 0
    else
      CountWindow(slots, c, start, len - 1) +
      (if Holds(c, slots[Probe(start, len - 1, |slots|)], |slots|) then 1 else 0)
  }

  /** A window count never drops as the window grows. */
  lemma {:induction false} CountWindowGrows(slots: seq<HashSlot>, c: Criterion, start: nat, d: nat, len: nat)
    requires start < |slots| && d <= len <= |slots|
    ensures CountWindow(slots, c, start, d) <= CountWindow(slots, c, start, len)
    decreases len
  {
    if d < len {
      CountWindowGrows(slots, c, start, d, len - 1);
    }
  }

  /** A matching slot met at offset `j >= d` adds one beyond the first `d` offsets. */
  lemma {:induction false} CountWindowBeyond(slots: seq<HashSlot>, c: Criterion, start: nat, d: nat, j: nat, len: nat)
    requires start < |slots| && d <= j < len <= |slots|
    requires Holds(c, slots[Probe(start, j, |slots|)], |slots|)
    ensures CountWindow(slots, c, start, d) + 1 <= CountWindow(slots, c, start, len)
    decreases len
  {
    if j == len - 1 {
      CountWindowGrows(slots, c, start, d, len - 1);
    } else {
      CountWindowBeyond(slots, c, start, d, j, len - 1);
    }
  }

  /** A window with fewer matches than offsets has an offset that does not match. */
  lemma {:induction false} CountWindowMiss(slots: seq<HashSlot>, c: Criterion, start: nat, len: nat)
    requires start < |slots| && len <= |slots| && CountWindow(slots, c, start, len) < len
    ensures exists j :: 0 <= j < len && !Holds(c, slots[Probe(start, j, |slots|)], |slots|)
    decreases len
  {
    if Holds(c, slots[Probe(start, len - 1, |slots|)], |slots|) {
      CountWindowMiss(slots, c, start, len - 1);
      var j :| 0 <= j < len - 1 && !Holds(c, slots[Probe(start, j, |slots|)], |slots|);
    }
  }

  /** Counting occupied slots of a base never exceeds counting hashes of that base. */
  lemma {:induction false} CountOccupiedBelowHash(slots: seq<HashSlot>, b: nat, start: nat, len: nat)
    requires start < |slots| && len <= |slots|
    ensures CountWindow(slots, OccupiedWithBase(b), start, len) <= CountWindow(slots, HashWithBase(b), start, len)
    decreases len
  {
    if len > 0 {
      CountOccupiedBelowHash(slots, b, start, len - 1);
    }
  }

  /**
   * Replacing slot `s` changes a window count only if the window meets `s`,
   * and then by the difference the new slot makes.
   */
  lemma {:induction false} CountWindowUpdate(slots: seq<HashSlot>, c: Criterion, start: nat, len: nat, s: nat, x: HashSlot)
    requires s < |slots| && start < |slots| && len <= |slots|
    ensures CountWindow(slots[s := x], c, start, len) ==
              CountWindow(slots, c, start, len)
              + (if Offset(start, s, |slots|) < len
                 then (if Holds(c, x, |slots|) then 1 else 0) - (if Holds(c, slots[s], |slots|) then 1 else 0)
                 else 0)
    decreases len
  {
    if len > 0 {
      CountWindowUpdate(slots, c, start, len - 1, s, x);
    }
  }

  /** Every window count over an all-free table is 0. */
  lemma {:induction false} CountWindowEmpty(slots: seq<HashSlot>, b: nat, start: nat, len: nat)
    requires start < |slots| && len <= |slots|
    requires forall i :: 0 <= i < |slots| ==> slots[i] == EMPTY_SLOT
    ensures CountWindow(slots, Occupied, start, len) == 0
    ensures CountWindow(slots, OccupiedWithBase(b), start, len) == 0
    decreases len
  {
    if len > 0 {
      CountWindowEmpty(slots, b, start, len - 1);
    }
  }

  /** An all-free table has every base count 0 and no occupied slot. */
  lemma EmptyTableCounts(table: seq<HashSlot>)
    requires |table| > 0
    requires forall i :: 0 <= i < |table| ==> table[i] == EMPTY_SLOT
    ensures BaseCountsExact(table)
    ensures CountWindow(table, Occupied, 0, |table|) == 0
  {
    forall b | 0 <= b < |table|
      ensures BaseCountAt(table, b) == CountWindow(table, OccupiedWithBase(b), b, |table|)
    {
      CountWindowEmpty(table, b, b, |table|);
    }
    CountWindowEmpty(table, 0, 0, |table|);
  }

  /** The exponent of the least power of two not below `v`, searching upwards from `k`. */
  function CeilLog2(v: nat, k: nat): (n: nat)
    requires v >= 1 && (k == 0 || Pow2(k - 1) < v)
    ensures Pow2(n) >= v && (n == 0 || Pow2(n - 1) < v)
    decreases v - Pow2(k)
  {
    if Pow2(k) >= v then k else CeilLog2(v, k + 1)
  }

  /**
   * The least power of two not below `v`: what `AK_FBX__Ceil_Pow2` computes
   * for `1 <= v <= 2^31` (`FbxBytes.CeilPow2`), on integers.
   */
  function LeastPowerOfTwoAtLeast(v: nat): (r: nat)
    requires 1 <= v <= 0x8000_0000
    ensures v <= r <= 0x8000_0000 && r < 2 * v
  {
    var n := CeilLog2(v, 0);
    CeilLog2Bound(v, n);
    Pow2(n)
  }

  lemma CeilLog2Bound(v: nat, n: nat)
    requires 1 <= v <= 0x8000_0000
    requires Pow2(n) >= v && (n == 0 || Pow2(n - 1) < v)
    ensures Pow2(n) <= 0x8000_0000 && Pow2(n) < 2 * v
  {
    Pow2Add(16, 15);
    Pow2Values();
    if n > 31 {
      Pow2Monotone(31, n - 1);
    }
    if n > 0 {
      assert Pow2(n) == 2 * Pow2(n - 1);
    }
    Pow2Monotone(n, 31);
  }

  /** The `BaseCount` kept in slot `b`. */
  ghost function BaseCountAt(table: seq<HashSlot>, b: nat): nat
    requires b < |table|
  {
    table[b].baseCount
  }

  /** Every slot's `BaseCount` is the number of occupied slots whose hash has that slot as base. */
  ghost predicate BaseCountsExact(table: seq<HashSlot>)
  {
    forall b :: 0 <= b < |table| ==> BaseCountAt(table, b) == CountWindow(table, OccupiedWithBase(b), b, |table|)
  }

  /** The pointer stored with `key` among `keys`/`values`, if any. */
  function Lookup(keys: seq<int>, values: seq<nat>, key: int): Option<nat>
    requires |keys| == |values|
  {
    if keys == [] then None
    else if keys[|keys| - 1] == key then Some(values[|values| - 1])
    else Lookup(keys[..|keys| - 1], values[..|values| - 1], key)
  }

  /** With distinct keys, the item at any position holding `key` is what `Lookup` finds. */
  lemma {:induction false} LookupAt(keys: seq<int>, values: seq<nat>, i: nat)
    requires |keys| == |values| && i < |keys|
    requires forall j, k :: 0 <= j < k < |keys| ==> keys[j] != keys[k]
    ensures Lookup(keys, values, keys[i]) == Some(values[i])
    decreases |keys|
  {
    if i < |keys| - 1 {
      LookupAt(keys[..|keys| - 1], values[..|values| - 1], i);
    }
  }

  /** A key not among the keys is not found. */
  lemma {:induction false} LookupAbsent(keys: seq<int>, values: seq<nat>, key: int)
    requires |keys| == |values| && key !in keys
    ensures Lookup(keys, values, key) == None
    decreases |keys|
  {
    if keys != [] {
      LookupAbsent(keys[..|keys| - 1], values[..|values| - 1], key);
    }
  }

  /** Adding an item makes its key find its pointer and leaves every other key's lookup alone. */
  lemma LookupAppend(keys: seq<int>, values: seq<nat>, key: int, ptr: nat, other: int)
    requires |keys| == |values|
    ensures Lookup(keys + [key], values + [ptr], key) == Some(ptr)
    ensures other != key ==> Lookup(keys + [key], values + [ptr], other) == Lookup(keys, values, other)
  {
    assert (keys + [key])[..|keys|] == keys;
    assert (values + [ptr])[..|values|] == values;
  }

  /**
   * The slot table agrees with the first `count` items: every occupied
   * slot holds an item and that item's hash, `slotOf` gives the slot of
   * each item, the base counts are exact, exactly `count` slots are
   * occupied and the stored IDs are distinct.
   */
  ghost predicate Consistent(table: seq<HashSlot>, ids: seq<int>, count: nat, slotOf: seq<nat>, hash: int -> u32)
  {
    && count < |table| <= 0x8000_0000 && count <= |ids|
    && (forall t :: 0 <= t < |table| && table[t].itemIndex != FREE ==>
          table[t].itemIndex < count && table[t].hash == hash(ids[table[t].itemIndex]))
    && |slotOf| == count
    && (forall i :: 0 <= i < count ==> slotOf[i] < |table| && table[slotOf[i]].itemIndex == i)
    && BaseCountsExact(table)
    && CountWindow(table, Occupied, 0, |table|) == count
    && (forall j, k :: 0 <= j < k < count ==> ids[j] != ids[k])
  }

  /**
   * Storing item `count` with key `key` in the free slot `slot` and
   * counting it at its base keeps the table consistent.
   */
  lemma AddConsistent(table: seq<HashSlot>, ids: seq<int>, count: nat, slotOf: seq<nat>, hash: int -> u32,
                      key: int, slot: nat, base: nat, occupied: HashSlot, counted: HashSlot, after: seq<HashSlot>)
    requires Consistent(table, ids, count, slotOf, hash) && count < |ids| && count + 1 < |table|
    requires slot < |table| && table[slot].itemIndex == FREE
    requires forall j :: 0 <= j < count ==> ids[j] != key
    requires base == Base(hash(key), |table|)
    requires occupied.hash == hash(key) && occupied.itemIndex == count && occupied.baseCount == table[slot].baseCount
    requires counted.hash == table[slot := occupied][base].hash
    requires counted.itemIndex == table[slot := occupied][base].itemIndex
    requires counted.baseCount == table[base].baseCount + 1
    requires after == table[slot := occupied][base := counted]
    ensures Consistent(after, ids[count := key], count + 1, slotOf + [slot], hash)
  {
    CountsAfterAdd(table, slot, occupied, base, counted, count, after);
    var ids' := ids[count := key];
    var slotOf' := slotOf + [slot];
    forall t | 0 <= t < |after| && after[t].itemIndex != FREE
      ensures after[t].itemIndex < count + 1 && after[t].hash == hash(ids'[after[t].itemIndex])
    {
      if t != slot {
        assert table[t].itemIndex == after[t].itemIndex && table[t].hash == after[t].hash;
      }
    }
    forall i | 0 <= i < count + 1
      ensures slotOf'[i] < |after| && after[slotOf'[i]].itemIndex == i
    {
      if i < count {
        assert slotOf'[i] == slotOf[i] && table[slotOf[i]].itemIndex == i;
      }
    }
  }

  /** The slot holds an item whose ID is `key`. */
  ghost predicate HoldsId(t: HashSlot, ids: seq<int>, key: int)
  {
    t.itemIndex != FREE && t.itemIndex < |ids| && ids[t.itemIndex] == key
  }

  /**
   * A probe from the key's base that has met all of the base's occupied
   * slots without meeting the key shows that the key is not stored.
   */
  lemma MissedKeyAbsent(table: seq<HashSlot>, ids: seq<int>, count: nat, slotOf: seq<nat>, hash: int -> u32,
                        key: int, base: nat, d: nat)
    requires Consistent(table, ids, count, slotOf, hash)
    requires base == Base(hash(key), |table|) && d <= |table|
    requires CountWindow(table, OccupiedWithBase(base), base, d) == table[base].baseCount
    requires forall j :: 0 <= j < d ==> !HoldsId(table[Probe(base, j, |table|)], ids, key)
    ensures forall i :: 0 <= i < count ==> ids[i] != key
  {
    forall i | 0 <= i < count
      ensures ids[i] != key
    {
      if ids[i] == key {
        var t := slotOf[i];
        var j := Offset(base, t, |table|);
        assert HoldsId(table[t], ids, key) && Holds(OccupiedWithBase(base), table[t], |table|);
        if j >= d {
          assert BaseCountAt(table, base) == CountWindow(table, OccupiedWithBase(base), base, |table|);
          CountWindowBeyond(table, OccupiedWithBase(base), base, d, j, |table|);
        }
        assert false;
      }
    }
  }

  /** Writing `x` at `n` and keeping `n + 1` entries appends `x` to the first `n`. */
  lemma UpdateThenTake<T>(s: seq<T>, n: nat, x: T)
    requires n < |s|
    ensures s[n := x][..n + 1] == s[..n] + [x]
  {
  }

  /**
   * The stores of `AK_FBX__ID_Ptr_Map_Add`: the new slot, the base's
   * count, and the ID and pointer of item `n`.
   */
  method StoreItem(slots: array<HashSlot>, ids: array<int>, ptrs: array<nat>, slot: nat, occupied: HashSlot,
                   base: nat, counted: HashSlot, n: nat, key: int, ptr: nat)
    requires slot < slots.Length && base < slots.Length && n < ids.Length && n < ptrs.Length
    modifies slots, ids, ptrs
    ensures slots[..] == old(slots[..])[slot := occupied][base := counted]
    ensures ids[..] == old(ids[..])[n := key] && ptrs[..] == old(ptrs[..])[n := ptr]
  {
    slots[slot] := occupied;
    slots[base] := counted;
    ids[n] := key;
    ptrs[n] := ptr;
  }

  /**
   * `AK_FBX__Find_Free_Slot`: probes from `baseSlot` while counting the
   * slots whose hash has that base (free slots keep hash 0), remembering
   * the first free slot seen, then scans on from there to a free slot.
   * The caller's table has exact base counts and a free slot.
   */
  method FindFreeSlot(slots: array<HashSlot>, baseSlot: nat) returns (slot: nat)
    requires baseSlot < slots.Length
    requires slots[baseSlot].baseCount == CountWindow(slots[..], OccupiedWithBase(baseSlot), baseSlot, slots.Length)
    requires CountWindow(slots[..], Occupied, 0, slots.Length) < slots.Length
    ensures slot < slots.Length && slots[slot].itemIndex == FREE
  {
    ghost var table := slots[..];
    ghost var capacity := slots.Length;
    var remaining := slots[baseSlot].baseCount;
    var s := baseSlot;
    var firstFree := s;
    ghost var d := 0;
    CountOccupiedBelowHash(table, baseSlot, baseSlot, capacity);
    while remaining > 0
      invariant 0 <= d <= capacity && s < capacity
      invariant d < capacity ==> s == Probe(baseSlot, d, capacity)
      invariant firstFree < capacity
      invariant remaining + CountWindow(table, HashWithBase(baseSlot), baseSlot, d) == table[baseSlot].baseCount
      decreases capacity - d
    {
      if slots[s].itemIndex == FREE && slots[firstFree].itemIndex != FREE {
        firstFree := s;
      }
      var slotHash := slots[s].hash;
      if Base(slotHash, slots.Length) == baseSlot {
        remaining := remaining - 1;
      }
      if d + 1 < capacity {
        NextProbe(baseSlot, d, capacity);
      }
      s := NextSlot(s, slots.Length);
      d := d + 1;
    }
    CountWindowMiss(table, Occupied, 0, capacity);
    ghost var j :| 0 <= j < capacity && !Holds(Occupied, table[Probe(0, j, capacity)], capacity);
    ghost var goal := Offset(firstFree, j, capacity);
    slot := firstFree;
    ghost var e := 0;
    while slots[slot].itemIndex != FREE
      invariant 0 <= e <= goal && slot == Probe(firstFree, e, capacity)
      decreases goal - e
    {
      NextProbe(firstFree, e, capacity);
      slot := NextSlot(slot, slots.Length);
      e := e + 1;
    }
  }

  /**
   * The slot count `AK_FBX__ID_Ptr_Map_Create` computes for `count`
   * items: `Ceil_Pow2` of the 32-bit product `count*2`, where `Ceil_Pow2`
   * is 0 for 0 and for anything above `2^31`.  For 1 to `2^30` items this
   * is the least power of two at least twice the count; for every other
   * count the table has no more slots than items.
   */
  function SlotCapacityFor(count: u32): (r: nat)
    ensures 1 <= count <= 0x4000_0000 ==> r == LeastPowerOfTwoAtLeast(2 * count) && count < r
    ensures !(1 <= count <= 0x4000_0000) ==> r <= count
    ensures r <= 0x8000_0000
  {
    var doubled := Wrap32(2 * count);
    if 1 <= doubled <= 0x8000_0000 then LeastPowerOfTwoAtLeast(doubled) else 0
  }

  class IdPtrMap {
    const slots: array<HashSlot>
    const ids: array<int>
    const ptrs: array<nat>
    const slotCapacity: nat
    const itemCapacity: nat
    /** `AK_FBX__Hash_U64`, held as a value so that the proofs treat it as an opaque function. */
    const hash: int -> u32
    var count: nat
    /** `SlotOf[i]` is the slot holding item `i`. */
    ghost var SlotOf: seq<nat>

    /** The keys added so far, in order. */
    ghost function Keys(): seq<int>
      reads this, ids
      requires count <= ids.Length
    {
      ids[..count]
    }

    /** The pointers added so far, in order. */
    ghost function Values(): seq<nat>
      reads this, ptrs
      requires count <= ptrs.Length
    {
      ptrs[..count]
    }

    ghost predicate Valid()
      reads this, slots, ids, ptrs
    {
      && slots.Length == slotCapacity
      && ids.Length == itemCapacity && ptrs.Length == itemCapacity
      && count <= itemCapacity < slotCapacity <= 0x8000_0000
      && Consistent(slots[..], ids[..], count, SlotOf, hash)
    }

    /**
     * `AK_FBX__ID_Ptr_Map_Create`: room for `count` items over
     * `Ceil_Pow2(2*count)` slots, every slot free with hash 0 and base
     * count 0.  Both the doubling and the rounding are 32-bit, so a count
     * of 0 or above `2^30` gives a table with no more slots than items,
     * one that no later operation can use.
     */
    constructor Create(count: u32)
      ensures itemCapacity == count && slotCapacity == SlotCapacityFor(count)
      ensures 1 <= count <= 0x4000_0000 ==> Valid() && slotCapacity == LeastPowerOfTwoAtLeast(2 * count)
      ensures !(1 <= count <= 0x4000_0000) ==> slotCapacity <= itemCapacity
      ensures slots.Length == slotCapacity && ids.Length == count && ptrs.Length == count
      ensures hash == Hash
      ensures fresh(slots) && fresh(ids) && fresh(ptrs)
      ensures this.count == 0 && Keys() == [] && Values() == []
      ensures forall i :: 0 <= i < slotCapacity ==> slots[i] == EMPTY_SLOT
    {
      var capacity := SlotCapacityFor(count);
      var table := new HashSlot[capacity];
      ids := new int[count];
      ptrs := new nat[count];
      slotCapacity := capacity;
      itemCapacity := count;
      hash := Hash;
      this.count := 0;
      SlotOf := [];
      slots := table;
      new;
      var i := 0;
      while i < capacity
        invariant 0 <= i <= capacity
        invariant this.count == 0 && SlotOf == []
        invariant forall j :: 0 <= j < i ==> slots[j] == EMPTY_SLOT
      {
        slots[i] := EMPTY_SLOT;
        i := i + 1;
      }
      if 1 <= count <= 0x4000_0000 {
        EmptyTableCounts(slots[..]);
      }
    }

    /**
     * `AK_FBX__ID_Ptr_Map_Find_Slot`: probes from the key's base until
     * the base's count of occupied slots has been seen; the slot holding
     * `key`, or `FREE` exactly when the key has not been added.
     */
    method FindSlot(key: int, keyHash: u32) returns (slot: u32)
      requires Valid() && keyHash == hash(key)
      ensures slot == FREE <==> key !in Keys()
      ensures slot != FREE ==>
                && slot < slotCapacity
                && slots[slot].itemIndex < count
                && ids[slots[slot].itemIndex] == key
    {
      var base := Base(keyHash, slotCapacity);
      var remaining: nat := slots[base].baseCount;
      var s := base;
      ghost var table := slots[..];
      ghost var items := ids[..];
      ghost var c := OccupiedWithBase(base);
      ghost var d := 0;
      while remaining > 0
        invariant 0 <= d <= slotCapacity && s < slotCapacity
        invariant d < slotCapacity ==> s == Probe(base, d, slotCapacity)
        invariant remaining + CountWindow(table, c, base, d) == table[base].baseCount
        invariant forall j :: 0 <= j < d ==> !HoldsId(table[Probe(base, j, slotCapacity)], items, key)
        decreases slotCapacity - d
      {
        assert d < slotCapacity;
        assert CountWindow(table, c, base, d + 1) == CountWindow(table, c, base, d) + (if Holds(c, table[s], slotCapacity) then 1 else 0);
        if slots[s].itemIndex != FREE {
          var slotHash := slots[s].hash;
          if Base(slotHash, slotCapacity) == base {
            remaining := remaining - 1;
            if slotHash == keyHash {
              if key == ids[slots[s].itemIndex] {
                return s;
              }
            }
          }
        }
        assert !HoldsId(table[s], items, key);
        if d + 1 < slotCapacity {
          NextProbe(base, d, slotCapacity);
        }
        s := NextSlot(s, slotCapacity);
        d := d + 1;
      }
      assert |table| == slotCapacity;
      MissedKeyAbsent(table, items, count, SlotOf, hash, key, base, d);
      return FREE;
    }

    /**
     * `AK_FBX__ID_Ptr_Map_Add`: the key must be absent and an item free
     * (the source asserts both).  The key and pointer become item `count`,
     * stored in a free slot with the key's hash, and the base's count grows
     * by one.
     */
    method Add(key: int, ptr: nat)
      requires Valid()
      requires key !in Keys()
      requires count < itemCapacity
      modifies this, slots, ids, ptrs
      ensures Valid()
      ensures count == old(count) + 1
      ensures Keys() == old(Keys()) + [key] && Values() == old(Values()) + [ptr]
    {
      var keyHash := hash(key);
      var base := Base(keyHash, slotCapacity);
      ghost var before := slots[..];
      ghost var items := ids[..];
      ghost var values := ptrs[..];
      ghost var n := count;
      assert BaseCountAt(before, base) == CountWindow(before, OccupiedWithBase(base), base, slotCapacity);
      var slot := FindFreeSlot(slots, base);
      var occupied := HashSlot(keyHash, count, slots[slot].baseCount);
      var counted := if slot == base then occupied.(baseCount := slots[base].baseCount + 1)
                     else slots[base].(baseCount := slots[base].baseCount + 1);
      ghost var after := before[slot := occupied][base := counted];
      assert forall j :: 0 <= j < n ==> items[j] != key by {
        assert Keys() == items[..n];
      }
      AddConsistent(before, items, n, SlotOf, hash, key, slot, base, occupied, counted, after);
      StoreItem(slots, ids, ptrs, slot, occupied, base, counted, count, key, ptr);
      SlotOf := SlotOf + [slot];
      count := count + 1;
      UpdateThenTake(items, n, key);
      UpdateThenTake(values, n, ptr);
    }

    /**
     * `AK_FBX__ID_Ptr_Map_Get`: the pointer added with `key`, or null
     * when the key was never added.
     */
    method Get(key: int) returns (ptr: nat)
      requires Valid()
      ensures ptr == match Lookup(Keys(), Values(), key) case Some(p) => p case None => 0
    {
      var slot := FindSlot(key, hash(key));
      if slot == FREE {
        LookupAbsent(Keys(), Values(), key);
        return 0;
      }
      var index := slots[slot].itemIndex;
      LookupAt(Keys(), Values(), index);
      ptr := ptrs[index];
    }
  }

  /**
   * The slot counts after `Add`: the chosen free slot now holds an item
   * with base `base`, and that base's count grows by one.
   */
  lemma CountsAfterAdd(before: seq<HashSlot>, slot: nat, occupied: HashSlot, base: nat, counted: HashSlot, n: nat, after: seq<HashSlot>)
    requires slot < |before| && base < |before| <= 0x8000_0000
    requires before[slot].itemIndex == FREE
    requires occupied.itemIndex != FREE && Base(occupied.hash, |before|) == base
    requires occupied.baseCount == before[slot].baseCount
    requires counted.hash == before[slot := occupied][base].hash
    requires counted.itemIndex == before[slot := occupied][base].itemIndex
    requires counted.baseCount == before[base].baseCount + 1
    requires BaseCountsExact(before)
    requires CountWindow(before, Occupied, 0, |before|) == n
    requires after == before[slot := occupied][base := counted]
    ensures BaseCountsExact(after)
    ensures CountWindow(after, Occupied, 0, |after|) == n + 1
  {
    var cap := |before|;
    var middle := before[slot := occupied];
    CountWindowUpdate(before, Occupied, 0, cap, slot, occupied);
    CountWindowUpdate(middle, Occupied, 0, cap, base, counted);
    forall b | 0 <= b < cap
      ensures BaseCountAt(after, b) == CountWindow(after, OccupiedWithBase(b), b, cap)
    {
      assert BaseCountAt(before, b) == CountWindow(before, OccupiedWithBase(b), b, cap);
      CountWindowUpdate(before, OccupiedWithBase(b), b, cap, slot, occupied);
      CountWindowUpdate(middle, OccupiedWithBase(b), b, cap, base, counted);
      var c := OccupiedWithBase(b);
      assert Holds(c, counted, cap) == Holds(c, middle[base], cap);
      if b == base {
        assert after[b] == counted && Holds(c, occupied, cap);
      } else if b == slot {
        assert after[b] == occupied && !Holds(c, occupied, cap);
      } else {
        assert after[b] == before[b];
      }
    }
  }
}
