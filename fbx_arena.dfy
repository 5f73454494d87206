/**
 * `ak_fbx__arena`: a bump allocator over a singly linked list of blocks.
 * The list is the sequence `blocks` (first block first, `Next` is the
 * following element); `current` is the index of `CurrentBlock`, or -1 while
 * it is null.  An allocation is named by its block and its byte offset
 * there; `Allocations` is a ghost log of every live allocation.
 */
module FbxArena {
  import opened Bits
  import opened Wrappers

  /** `1024*1024`, the default block size. */
  const DEFAULT_BLOCK_SIZE: nat := 0x10_0000
  /** `AK_FBX__DEFAULT_ALIGNMENT`, `sizeof(void*)*2` on a 64-bit target. */
  const DEFAULT_ALIGNMENT: nat := 16

  datatype Block = Block(capacity: nat, used: nat)
  datatype Allocation = Allocation(block: nat, offset: nat, size: nat)

  /** `AK_FBX__Align_Pow2`: `value` rounded up to a multiple of `alignment`. */
  function AlignUp(value: nat, alignment: nat): (r: nat)
    requires alignment > 0
    ensures r % alignment == 0
    ensures value <= r < value + alignment
  {
    var x := value + alignment - 1;
    DivModUnique(x - x % alignment, x / alignment, 0, alignment);
    x - x % alignment
  }

  /** Whether `size` bytes at the next aligned offset still fit in the block. */
  predicate Fits(b: Block, size: nat, alignment: nat)
    requires alignment > 0
  {
    AlignUp(b.used, alignment) + size <= b.capacity
  }

  /**
   * The fit test of `AK_FBX__Arena_Get_Current_Block` as written: it adds
   * `Size` to `Used` before the alignment padding is taken into account.
   */
  predicate FitsAsWritten(b: Block, size: nat)
  {
    b.used + size <= b.capacity
  }

  /**
   * A 1 MiB block holding 1048566 bytes (what a first push of 1048566 bytes
   * leaves) passes the written fit test for 9 more bytes, yet aligning the
   * offset to 16 first pushes `Used` to 1048585, beyond `Capacity`.
   */
  lemma FitsAsWrittenOverflows()
    ensures var b := Block(DEFAULT_BLOCK_SIZE, 1048566);
            && FitsAsWritten(b, 9)
            && !Fits(b, 9, DEFAULT_ALIGNMENT)
            && AlignUp(b.used, DEFAULT_ALIGNMENT) + 9 == 1048585 > b.capacity
  {
    var b := Block(DEFAULT_BLOCK_SIZE, 1048566);
    assert (b.used + DEFAULT_ALIGNMENT - 1) / DEFAULT_ALIGNMENT == 65536;
  }

  /** The first block at or after `from` where the allocation fits, if any. */
  function FirstFit(blocks: seq<Block>, from: nat, size: nat, alignment: nat): (r: Option<nat>)
    requires alignment > 0
    ensures r.Some? ==> from <= r.value < |blocks| && Fits(blocks[r.value], size, alignment)
    ensures r.Some? ==> forall i :: from <= i < r.value ==> !Fits(blocks[i], size, alignment)
    ensures r.None? ==> forall i :: from <= i < |blocks| ==> !Fits(blocks[i], size, alignment)
    decreases |blocks| - from
  {
    if from >= |blocks| then None
    else if Fits(blocks[from], size, alignment) then Some(from)
    else FirstFit(blocks, from + 1, size, alignment)
  }

  /** The block searched from the current one, none when there is no current block. */
  function CurrentFit(blocks: seq<Block>, current: int, size: nat, alignment: nat): (r: Option<nat>)
    requires alignment > 0
    ensures r.Some? ==> 0 <= current <= r.value < |blocks| && Fits(blocks[r.value], size, alignment)
  {
    if current < 0 then None else FirstFit(blocks, current, size, alignment)
  }

  /** The capacity of a block opened for `size` bytes: 1 MiB, or `size` when larger. */
  function NewBlockSize(size: nat): (n: nat)
    ensures n >= size && n >= DEFAULT_BLOCK_SIZE
    ensures n == size || n == DEFAULT_BLOCK_SIZE
  {
    if size > DEFAULT_BLOCK_SIZE then size else DEFAULT_BLOCK_SIZE
  }

  lemma AlignUpZero(alignment: nat)
    requires alignment > 0
    ensures AlignUp(0, alignment) == 0
  {
    var r := AlignUp(0, alignment);
    if r > 0 {
      DivModUnique(r, r / alignment, 0, alignment);
      assert r / alignment >= 1;
      MulAtLeast(r / alignment, alignment);
    }
  }

  /** Two allocations in the same block do not overlap. */
  ghost predicate Disjoint(a: Allocation, b: Allocation)
  {
    a.block != b.block || a.offset + a.size <= b.offset || b.offset + b.size <= a.offset
  }

  /** Every live allocation lies below its block's `Used`, and no two overlap. */
  ghost predicate Placed(blocks: seq<Block>, allocations: seq<Allocation>)
  {
    && (forall k :: 0 <= k < |allocations| ==>
          allocations[k].block < |blocks| &&
          allocations[k].size > 0 &&
          allocations[k].offset + allocations[k].size <= blocks[allocations[k].block].used)
    && (forall j, k :: 0 <= j < k < |allocations| ==> Disjoint(allocations[j], allocations[k]))
  }

  /** An allocation placed at or above its block's `Used` keeps the log placed. */
  lemma AllocationsAfterPush(blocks: seq<Block>, allocations: seq<Allocation>, a: Allocation)
    requires Placed(blocks, allocations)
    requires a.block < |blocks| && a.size > 0 && blocks[a.block].used <= a.offset
    ensures forall k :: 0 <= k < |allocations| ==> Disjoint(allocations[k], a)
    ensures Placed(blocks[a.block := Block(blocks[a.block].capacity, a.offset + a.size)], allocations + [a])
  {
    var after := blocks[a.block := Block(blocks[a.block].capacity, a.offset + a.size)];
    var log := allocations + [a];
    forall k | 0 <= k < |log|
      ensures log[k].block < |after| && log[k].size > 0 && log[k].offset + log[k].size <= after[log[k].block].used
    {
      if k < |allocations| {
        assert log[k] == allocations[k];
      }
    }
    forall j, k | 0 <= j < k < |log|
      ensures Disjoint(log[j], log[k])
    {
      if k < |allocations| {
        assert log[j] == allocations[j] && log[k] == allocations[k];
      } else {
        assert log[j] == allocations[j];
      }
    }
  }

  class Arena {
    var blocks: seq<Block>
    var current: int
    ghost var Allocations: seq<Allocation>

    ghost predicate Valid()
      reads this
    {
      && -1 <= current < |blocks|
      && (current == -1 <==> blocks == [])
      && (forall i :: 0 <= i < |blocks| ==> blocks[i].used <= blocks[i].capacity)
      && Placed(blocks, Allocations)
    }

    /** `AK_FBX__Arena_Create`: no blocks. */
    constructor Create()
      ensures Valid()
      ensures blocks == [] && current == -1 && Allocations == []
    {
      blocks := [];
      current := -1;
      Allocations := [];
    }

    /**
     * `AK_FBX__Arena_Get_Current_Block`: starting at the current block,
     * the first block with room for the allocation; none when there is no
     * current block or no later block has room.
     */
    method CurrentBlock(size: nat, alignment: nat) returns (r: Option<nat>)
      requires Valid() && alignment > 0
      ensures r == CurrentFit(blocks, current, size, alignment)
    {
      if current == -1 {
        return None;
      }
      var block := current;
      while !Fits(blocks[block], size, alignment)
        invariant current <= block < |blocks|
        invariant FirstFit(blocks, block, size, alignment) == FirstFit(blocks, current, size, alignment)
        decreases |blocks| - block
      {
        block := block + 1;
        if block == |blocks| {
          return None;
        }
      }
      return Some(block);
    }

    /**
     * `AK_FBX__Arena_Push_Alignment` with the fit test corrected to count
     * the alignment padding.  Size 0 gives null and changes nothing.
     * Otherwise the bytes go, at the block's `Used` rounded up to
     * `alignment`, into the first block from the current one with room,
     * or into a new block of `max(1 MiB, size)` appended to the list; that
     * block becomes current and its `Used` grows to the end of the new
     * bytes, never beyond its capacity.  The new allocation overlaps no
     * earlier one.
     */
    method PushAlignment(size: nat, alignment: nat) returns (r: Option<Allocation>)
      requires Valid() && alignment > 0
      modifies this
      ensures Valid()
      ensures size == 0 ==> r == None && blocks == old(blocks) && current == old(current) && Allocations == old(Allocations)
      ensures size > 0 ==>
                && r.Some? && r.value.size == size
                && r.value.offset % alignment == 0
                && current == r.value.block
                && Allocations == old(Allocations) + [r.value]
                && (forall k :: 0 <= k < |old(Allocations)| ==> Disjoint(old(Allocations)[k], r.value))
      ensures size > 0 && CurrentFit(old(blocks), old(current), size, alignment).Some? ==>
                && r.Some?
                && r.value.block == CurrentFit(old(blocks), old(current), size, alignment).value
                && r.value.offset == AlignUp(old(blocks)[r.value.block].used, alignment)
                && blocks == old(blocks)[r.value.block := Block(old(blocks)[r.value.block].capacity, r.value.offset + size)]
      ensures size > 0 && CurrentFit(old(blocks), old(current), size, alignment).None? ==>
                && r.Some?
                && r.value.block == |old(blocks)|
                && r.value.offset == 0
                && blocks == old(blocks) + [Block(NewBlockSize(size), size)]
    {
      if size == 0 {
        return None;
      }
      var found := CurrentBlock(size, alignment);
      var block: nat;
      if found.None? {
        var blockSize := NewBlockSize(size);
        block := |blocks|;
        blocks := blocks + [Block(blockSize, 0)];
        AlignUpZero(alignment);
      } else {
        block := found.value;
      }
      ghost var before := blocks;
      var offset := AlignUp(blocks[block].used, alignment);
      assert offset + size <= before[block].capacity;
      var a := Allocation(block, offset, size);
      AllocationsAfterPush(before, Allocations, a);
      current := block;
      blocks := blocks[block := Block(blocks[block].capacity, offset + size)];
      Allocations := Allocations + [a];
      r := Some(a);
    }

    /**
     * `AK_FBX__Arena_Push`: `PushAlignment` with the default alignment, so
     * the allocation lands in the first block from the current one with
     * room, or in a new block appended to the list, which becomes current.
     */
    method Push(size: nat) returns (r: Option<Allocation>)
      requires Valid()
      modifies this
      ensures Valid()
      ensures size == 0 ==> r == None && blocks == old(blocks) && current == old(current) && Allocations == old(Allocations)
      ensures size > 0 ==>
                && r.Some? && r.value.size == size
                && r.value.offset % DEFAULT_ALIGNMENT == 0
                && current == r.value.block
                && r.value.offset + size <= blocks[r.value.block].capacity
                && Allocations == old(Allocations) + [r.value]
                && (forall k :: 0 <= k < |old(Allocations)| ==> Disjoint(old(Allocations)[k], r.value))
      ensures size > 0 && CurrentFit(old(blocks), old(current), size, DEFAULT_ALIGNMENT).Some? ==>
                && r.Some?
                && r.value.block == CurrentFit(old(blocks), old(current), size, DEFAULT_ALIGNMENT).value
                && r.value.offset == AlignUp(old(blocks)[r.value.block].used, DEFAULT_ALIGNMENT)
                && blocks == old(blocks)[r.value.block := Block(old(blocks)[r.value.block].capacity, r.value.offset + size)]
      ensures size > 0 && CurrentFit(old(blocks), old(current), size, DEFAULT_ALIGNMENT).None? ==>
                && r.Some?
                && r.value.block == |old(blocks)|
                && r.value.offset == 0
                && blocks == old(blocks) + [Block(NewBlockSize(size), size)]
    {
      r := PushAlignment(size, DEFAULT_ALIGNMENT);
    }

    /** `AK_FBX__Arena_Delete`: every block is released and the arena is empty again. */
    method Delete()
      modifies this
      ensures Valid()
      ensures blocks == [] && current == -1 && Allocations == []
    {
      blocks := [];
      current := -1;
      Allocations := [];
    }
  }
}
