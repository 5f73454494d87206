/**
 * `ak_async_spmc_queue_index32`: a bounded ring of 32-bit indices with a
 * producer counter `BottomIndex` and a consumer counter `TopIndex`.  The
 * counters are stored as `uint32_t` and read back as `int32_t`.  `Top`
 * never passes 2^31 - 1, as a dequeue only advances it below `Bottom`
 * read as signed; `Bottom` goes on to 2^32 - 2.  Signed subtraction and
 * increment are read in two's complement.
 */
module SpmcQueue {
  import opened Bits

  /** `AK_ASYNC_SPMC_QUEUE_INDEX32_INVALID`. */
  const INVALID: u32 := 0xFFFF_FFFF

  /** Largest `int32_t`. */
  const INT32_MAX: int := 0x7FFF_FFFF

  /** The dequeue test `Top < Bottom`, on the counters read as `int32_t`. */
  predicate DequeueTest(top: u32, bottom: u32)
  {
    ToSigned32(top) < ToSigned32(bottom)
  }

  /** While `Bottom` reads as a non-negative `int32_t`, the dequeue test holds exactly when an entry is queued. */
  lemma DequeueTestCounts(top: u32, bottom: u32)
    requires top <= bottom && bottom as int <= INT32_MAX
    ensures DequeueTest(top, bottom) <==> top < bottom
  {
  }

  /**
   * Once `Bottom` passes 2^31 - 1 it reads as negative, and the test fails
   * although entries are queued: with `Top` at 2^31 - 1 and `Bottom` one
   * above it, one entry is queued and none can be dequeued.
   */
  lemma DequeueStallsAsWritten(top: u32, bottom: u32)
    requires top as int <= INT32_MAX < bottom as int
    ensures !DequeueTest(top, bottom)
    ensures !DequeueTest(0x7FFF_FFFF, 0x8000_0000)
  {
  }

  /** `Bottom - Top > 0` in two's complement: the test the queue needs, on the number of entries. */
  predicate HasEntry(top: u32, bottom: u32)
  {
    ToSigned32(Wrap32(ToSigned32(bottom) - ToSigned32(top))) > 0
  }

  /** For any counters fewer than 2^31 apart, `HasEntry` holds exactly when an entry is queued. */
  lemma HasEntryCounts(top: u32, bottom: u32)
    requires top <= bottom && bottom as int - top as int <= INT32_MAX
    ensures HasEntry(top, bottom) <==> top < bottom
  {
    SignedDifference(top, bottom);
  }

  /** `Bottom - Top` on the counters read as `int32_t`, wrapped to 32 bits, is the number of entries. */
  lemma SignedDifference(top: u32, bottom: u32)
    requires top <= bottom && bottom as int - top as int <= INT32_MAX
    ensures Wrap32(ToSigned32(bottom) - ToSigned32(top)) == bottom - top
    ensures ToSigned32(bottom - top) == bottom as int - top as int
  {
    var d := ToSigned32(bottom) - ToSigned32(top);
    var k := (if bottom < 0x8000_0000 then 0 else -1) + (if top < 0x8000_0000 then 0 else 1);
    assert d == bottom as int - top as int + k * U32_LIMIT;
    DivModUnique(d, k, bottom as int - top as int, U32_LIMIT);
  }

  /** Incrementing a counter read as `int32_t` and stored back as `uint32_t` advances it by one, short of 2^32 - 1. */
  lemma SignedIncrement(bottom: u32)
    requires bottom < 0xFFFF_FFFF
    ensures Wrap32(ToSigned32(bottom)) == bottom
    ensures Wrap32(ToSigned32(bottom) + 1) as int == bottom as int + 1
  {
    if bottom >= 0x8000_0000 {
      DivModUnique(bottom as int + 1 - U32_LIMIT, -1, bottom as int + 1, U32_LIMIT);
    }
  }

  /** The `count` ring entries starting at counter value `top`. */
  function RingSlice(buffer: seq<u32>, top: nat, count: nat, capacity: nat): (r: seq<u32>)
    requires count == 0 || 0 < capacity <= |buffer|
    ensures |r| == count
    ensures forall k :: 0 <= k < count ==> r[k] == buffer[(top + k) % capacity]
  {
    seq(count, k requires 0 <= k < count => buffer[(top + k) % capacity])
  }

  /** Distinct counter values less than `capacity` apart use distinct ring cells. */
  lemma DistinctCells(a: int, b: int, capacity: int)
    requires 0 <= a < b < a + capacity
    ensures a % capacity != b % capacity
  {
    var q, r := a / capacity, a % capacity;
    if r + (b - a) < capacity {
      DivModUnique(b, q, r + (b - a), capacity);
    } else {
      DivModUnique(b, q + 1, r + (b - a) - capacity, capacity);
    }
  }

  /** Writing the cell after the last entry appends to the ring's contents. */
  lemma RingSliceAppend(before: seq<u32>, after: seq<u32>, top: nat, count: nat, capacity: nat, x: u32)
    requires count < capacity <= |before|
    requires after == before[(top + count) % capacity := x]
    ensures RingSlice(after, top, count + 1, capacity) == RingSlice(before, top, count, capacity) + [x]
  {
    var r, r' := RingSlice(before, top, count, capacity) + [x], RingSlice(after, top, count + 1, capacity);
    forall k | 0 <= k < count + 1
      ensures r'[k] == r[k]
    {
      if k < count {
        DistinctCells(top + k, top + count, capacity);
      }
    }
  }

  /** Advancing `top` drops the oldest entry. */
  lemma RingSliceTail(buffer: seq<u32>, top: nat, count: nat, capacity: nat)
    requires 0 < count && 0 < capacity <= |buffer|
    ensures RingSlice(buffer, top + 1, count - 1, capacity) == RingSlice(buffer, top, count, capacity)[1..]
  {
  }

  class SpmcQueueIndex32 {
    const indices: array<u32>
    const capacity: u32
    var topIndex: u32
    var bottomIndex: u32

    ghost predicate Valid()
      reads this
    {
      && capacity as int <= indices.Length
      && capacity as int <= INT32_MAX
      && topIndex as int <= INT32_MAX
      && topIndex <= bottomIndex
      && bottomIndex as int - topIndex as int <= capacity as int
    }

    /** The queued indices, oldest first. */
    ghost function Contents(): seq<u32>
      reads this, indices
      requires Valid()
    {
      RingSlice(indices[..], topIndex as nat, bottomIndex as nat - topIndex as nat, capacity as nat)
    }

    /** `AK_Async_SPMC_Queue_Index32_Init_Raw`: both counters at 0. */
    constructor InitRaw(indicesPtr: array<u32>, capacity: u32)
      requires capacity as int <= indicesPtr.Length && capacity as int <= INT32_MAX
      ensures Valid() && indices == indicesPtr && this.capacity == capacity
      ensures topIndex == 0 && bottomIndex == 0
      ensures Contents() == []
    {
      indices := indicesPtr;
      this.capacity := capacity;
      topIndex := 0;
      bottomIndex := 0;
    }

    /**
     * `AK_Async_SPMC_Queue_Index32_Enqueue`: refuses (an assertion in debug
     * builds) when `Bottom - Top > Capacity - 1`; otherwise writes
     * `Indices[Bottom % Capacity]` and advances `Bottom`.
     */
    method Enqueue(index: u32)
      requires Valid()
      modifies this, indices
      ensures Valid()
      ensures topIndex == old(topIndex)
      ensures old(|Contents()|) == capacity as int ==>
                bottomIndex == old(bottomIndex) && indices[..] == old(indices[..])
      ensures old(|Contents()|) < capacity as int ==>
                && bottomIndex as int == old(bottomIndex) as int + 1
                && indices[..] == old(indices[..])[old(bottomIndex) as int % capacity as int := index]
      ensures Contents() == if old(|Contents()|) == capacity as int then old(Contents()) else old(Contents()) + [index]
    {
      var bottom := ToSigned32(bottomIndex);
      var top := ToSigned32(topIndex);
      SignedDifference(topIndex, bottomIndex);
      if capacity as int - 1 < ToSigned32(Wrap32(bottom as int - top as int)) {
        return;
      }
      ghost var before := indices[..];
      SignedIncrement(bottomIndex);
      // `Bottom % Capacity` converts `Bottom` back to `uint32_t`.
      indices[Wrap32(bottom) % capacity as int] := index;
      bottomIndex := Wrap32(bottom as int + 1);
      RingSliceAppend(before, indices[..], topIndex as nat, bottomIndex as nat - 1 - topIndex as nat, capacity as nat, index);
    }

    /**
     * `AK_Async_SPMC_Queue_Index32_Dequeue`: `INVALID` when `Top >= Bottom`
     * as `int32_t`; otherwise `Indices[Top % Capacity]`, advancing `Top`.
     * An empty queue yields `INVALID`, and so does every queue whose
     * `Bottom` has passed 2^31 - 1: from then on nothing is dequeued.
     */
    method Dequeue() returns (result: u32)
      requires Valid()
      modifies this
      ensures Valid()
      ensures bottomIndex == old(bottomIndex)
      ensures old(Contents()) == [] || old(bottomIndex) as int > INT32_MAX ==> result == INVALID && topIndex == old(topIndex)
      ensures old(Contents()) != [] && old(bottomIndex) as int <= INT32_MAX ==>
                && result == old(Contents())[0]
                && topIndex as int == old(topIndex) as int + 1
                && Contents() == old(Contents())[1..]
    {
      var top := ToSigned32(topIndex);
      var bottom := ToSigned32(bottomIndex);
      result := INVALID;
      if bottomIndex as int <= INT32_MAX {
        DequeueTestCounts(topIndex, bottomIndex);
      } else {
        DequeueStallsAsWritten(topIndex, bottomIndex);
      }
      if DequeueTest(topIndex, bottomIndex) {
        result := indices[Wrap32(top) % capacity as int];
        topIndex := Wrap32(top + 1);
        RingSliceTail(indices[..], top, bottom - top, capacity as nat);
      }
    }
  }
}
