/**
 * `ak_async_slot_map64`: generational handles over a free-index stack.
 * A handle is `AK_Slot64(index, generation)`; a slot's generation starts at
 * 1, moves on at every free and is never 0, so the handle 0 never names a
 * slot and a freed handle stops matching its slot.
 */
module SlotMap {
  import opened Bits
  import opened Packing
  import opened StackIndex

  /** The `Data` view of `ak_slot64__internal`. */
  datatype Slot = Slot(index: u32, generation: u32)

  class SlotMap64 {
    const freeIndices: StackIndex32
    const slots: array<Slot>

    ghost predicate Valid()
      reads this, freeIndices, freeIndices.nextIndices, slots
    {
      && freeIndices.Valid()
      && freeIndices.capacity as int <= slots.Length
      && forall i :: 0 <= i < freeIndices.capacity as int ==>
           slots[i].index as int == i && slots[i].generation != 0
    }

    /** `AK_Async_Slot_Map64_Capacity`. */
    function Capacity(): u32
      reads this, freeIndices
    {
      freeIndices.capacity
    }

    /** The free indices, next to be handed out first. */
    ghost function FreeList(): seq<u32>
      reads this, freeIndices
    {
      freeIndices.Contents
    }

    /**
     * `AK_Async_Slot_Map64_Init_Raw`: every slot `i` gets index `i` and
     * generation 1, and every index is pushed (without key bumps) on the
     * free list, so the last one is handed out first.
     */
    constructor InitRaw(indicesPtr: array<u32>, slotsPtr: array<Slot>, capacity: u32)
      requires capacity as int <= indicesPtr.Length
      requires capacity as int <= slotsPtr.Length
      modifies indicesPtr, slotsPtr
      ensures Valid()
      ensures fresh(freeIndices) && freeIndices.nextIndices == indicesPtr && slots == slotsPtr
      ensures Capacity() == capacity
      ensures forall i :: 0 <= i < capacity as int ==> slots[i] == Slot(i as u32, 1)
      ensures |FreeList()| == capacity as int
      ensures forall k :: 0 <= k < |FreeList()| ==> FreeList()[k] as int == capacity as int - 1 - k
      ensures freeIndices.HeadKey() == 0
    {
      freeIndices := new StackIndex32.InitRaw(indicesPtr, capacity);
      slots := slotsPtr;
      new;
      var i: u32 := 0;
      while i < capacity
        invariant 0 <= i <= capacity
        invariant freeIndices.Valid() && freeIndices.nextIndices == indicesPtr
        invariant freeIndices.capacity == capacity && freeIndices.HeadKey() == 0
        invariant |freeIndices.Contents| == i as int
        invariant forall k :: 0 <= k < i as int ==> freeIndices.Contents[k] as int == i as int - 1 - k
        invariant forall j :: 0 <= j < i as int ==> slots[j] == Slot(j as u32, 1)
      {
        freeIndices.PushSync(i);
        slots[i] := Slot(i, 1);
        i := i + 1;
      }
    }

    /**
     * `AK_Async_Slot_Map64_Is_Allocated`: the handle's generation is the
     * slot's current one.
     */
    predicate IsAllocated(slot: u64)
      reads this, freeIndices, slots
      requires Slot64Index(slot) < Capacity() && Capacity() as int <= slots.Length
    {
      slots[Slot64Index(slot)].generation == Slot64Key(slot)
    }

    /**
     * `AK_Async_Slot_Map64_Alloc_Slot`: 0 when no index is free; otherwise
     * the handle of the top free slot, which is nonzero and allocated.
     */
    method AllocSlot() returns (slot: u64)
      requires Valid()
      modifies freeIndices
      ensures Valid()
      ensures old(FreeList()) == [] ==> slot == 0 && FreeList() == [] && freeIndices.head == old(freeIndices.head)
      ensures old(FreeList()) != [] ==>
                && slot == Slot64(old(FreeList())[0], slots[old(FreeList())[0]].generation)
                && FreeList() == old(FreeList())[1..]
                && slot != 0
                && IsAllocated(slot)
                && Slot64Index(slot) !in FreeList()
    {
      var index := freeIndices.Pop();
      if index == INVALID {
        return 0;
      }
      assert index < freeIndices.capacity;
      var result := slots[index];
      assert result.index == index;
      slot := Slot64(result.index, result.generation);
    }

    /**
     * `AK_Async_Slot_Map64_Free_Slot`.  When the handle is current the
     * generation moves on to `NextGeneration` and the index goes back on the
     * free list; a stale handle fails the compare-and-swap and nothing
     * changes (the source asserts in debug builds).  `Free_Slot` cannot tell
     * an issued handle from a forged one that matches a free slot's
     * generation; pushing such an index twice would break the free list, so
     * callers must not pass one.
     */
    method FreeSlot(slot: u64)
      requires Valid()
      requires Slot64Index(slot) < Capacity()
      requires IsAllocated(slot) ==> Slot64Index(slot) !in FreeList()
      modifies freeIndices, freeIndices.nextIndices, slots
      ensures Valid()
      ensures old(IsAllocated(slot)) ==>
                && slots[..] == old(slots[..])[Slot64Index(slot) := Slot(Slot64Index(slot), NextGeneration(Slot64Key(slot)))]
                && FreeList() == [Slot64Index(slot)] + old(FreeList())
                && !IsAllocated(slot)
      ensures !old(IsAllocated(slot)) ==>
                && slots[..] == old(slots[..])
                && FreeList() == old(FreeList())
                && freeIndices.head == old(freeIndices.head)
    {
      var index := Slot64Index(slot);
      var generation := Slot64Key(slot);
      var next := NextGeneration(generation);
      assert slots[index].index == index;
      if slots[index].generation == generation {
        slots[index] := slots[index].(generation := next);
        freeIndices.Push(index);
      }
    }
  }
}
