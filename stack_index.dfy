/**
 * `ak_async_stack_index32`: a LIFO free list of 32-bit indices threaded
 * through the `NextIndices` array.  The 64-bit `Head` word holds the top
 * index and an ABA key.  Single-threaded reading: every compare-and-swap
 * succeeds on its first attempt.
 */
module StackIndex {
  import opened Bits
  import opened Packing

  /** `AK_ASYNC_STACK_INDEX32_INVALID`, `(uint32_t)-1`. */
  const INVALID: u32 := 0xFFFF_FFFF

  /** Entry `k` of `contents` names, through `links`, the entry below it (or `INVALID`). */
  ghost predicate LinkAt(links: seq<u32>, contents: seq<u32>, k: int)
    requires 0 <= k < |contents|
  {
    && contents[k] as int < |links|
    && links[contents[k]] == if k + 1 < |contents| then contents[k + 1] else INVALID
  }

  /** `links` threads `contents` from the top entry down to `INVALID`. */
  ghost predicate Linked(links: seq<u32>, contents: seq<u32>)
  {
    forall k :: 0 <= k < |contents| ==> LinkAt(links, contents, k)
  }

  /** Writing the new top's link keeps the links of the entries below it. */
  lemma LinkedAfterPush(before: seq<u32>, after: seq<u32>, older: seq<u32>, index: u32)
    requires Linked(before, older)
    requires index as int < |before| == |after|
    requires index !in older
    requires after == before[index := if older == [] then INVALID else older[0]]
    ensures Linked(after, [index] + older)
  {
    var now := [index] + older;
    forall k | 0 <= k < |now|
      ensures LinkAt(after, now, k)
    {
      if k == 0 {
        assert older != [] ==> now[1] == older[0];
      } else {
        assert LinkAt(before, older, k - 1);
        assert now[k] == older[k - 1];
        assert older[k - 1] != index;
        if k + 1 < |now| {
          assert now[k + 1] == older[k];
        }
      }
    }
  }

  /** Popping the top leaves the rest threaded. */
  lemma LinkedTail(links: seq<u32>, contents: seq<u32>)
    requires Linked(links, contents) && contents != []
    ensures Linked(links, contents[1..])
  {
    var rest := contents[1..];
    forall k | 0 <= k < |rest|
      ensures LinkAt(links, rest, k)
    {
      assert LinkAt(links, contents, k + 1);
      assert rest[k] == contents[k + 1];
      if k + 1 < |rest| {
        assert rest[k + 1] == contents[k + 2];
      }
    }
  }

  class StackIndex32 {
    const nextIndices: array<u32>
    const capacity: u32
    var head: u64
    /** The indices on the stack, top first. */
    ghost var Contents: seq<u32>

    ghost predicate Valid()
      reads this, nextIndices
    {
      && capacity as int <= nextIndices.Length
      && (forall k :: 0 <= k < |Contents| ==> Contents[k] < capacity)
      && (forall j, k :: 0 <= j < k < |Contents| ==> Contents[j] != Contents[k])
      && HeadIndex() == (if Contents == [] then INVALID else Contents[0])
      && Linked(nextIndices[..], Contents)
    }

    /** The index half of the head word. */
    function HeadIndex(): u32
      reads this
    {
      Slot64Index(head)
    }

    /** The ABA key half of the head word. */
    function HeadKey(): u32
      reads this
    {
      Slot64Key(head)
    }

    /** `AK_Async_Stack_Index32_Init_Raw`: an empty stack with key 0 over `indices`. */
    constructor InitRaw(indices: array<u32>, capacity: u32)
      requires capacity as int <= indices.Length
      ensures Valid()
      ensures nextIndices == indices && this.capacity == capacity
      ensures Contents == []
      ensures HeadIndex() == INVALID && HeadKey() == 0
    {
      nextIndices := indices;
      this.capacity := capacity;
      head := Slot64(INVALID, 0);
      Contents := [];
    }

    /**
     * `AK_Async_Stack_Index32_Push_Sync`: pushes without touching the key;
     * the source uses it only while no other thread can see the stack.
     */
    method PushSync(index: u32)
      requires Valid()
      requires index < capacity && index !in Contents
      modifies this, nextIndices
      ensures Valid()
      ensures Contents == [index] + old(Contents)
      ensures HeadIndex() == index && HeadKey() == old(HeadKey())
      ensures forall j :: 0 <= j < nextIndices.Length && j != index as int ==> nextIndices[j] == old(nextIndices[j])
    {
      var current := HeadIndex();
      nextIndices[index] := current;
      head := Slot64(index, HeadKey());
      Contents := [index] + Contents;
      LinkedAfterPush(old(nextIndices[..]), nextIndices[..], old(Contents), index);
    }

    /** `AK_Async_Stack_Index32_Push`: pushes and bumps the 32-bit key by one. */
    method Push(index: u32)
      requires Valid()
      requires index < capacity && index !in Contents
      modifies this, nextIndices
      ensures Valid()
      ensures Contents == [index] + old(Contents)
      ensures HeadIndex() == index && HeadKey() == Wrap32(old(HeadKey()) + 1)
      ensures forall j :: 0 <= j < nextIndices.Length && j != index as int ==> nextIndices[j] == old(nextIndices[j])
    {
      var current := HeadIndex();
      nextIndices[index] := current;
      head := Slot64(index, Wrap32(HeadKey() + 1));
      Contents := [index] + Contents;
      LinkedAfterPush(old(nextIndices[..]), nextIndices[..], old(Contents), index);
    }

    /**
     * `AK_Async_Stack_Index32_Pop`: the most recently pushed index, or
     * `INVALID` (with nothing changed) on an empty stack.
     */
    method Pop() returns (index: u32)
      requires Valid()
      modifies this
      ensures Valid()
      ensures old(Contents) == [] ==> index == INVALID && Contents == [] && head == old(head)
      ensures old(Contents) != [] ==>
                && index == old(Contents)[0]
                && Contents == old(Contents)[1..]
                && HeadKey() == Wrap32(old(HeadKey()) + 1)
      ensures index == INVALID <==> old(Contents) == []
    {
      index := HeadIndex();
      if index == INVALID {
        return;
      }
      assert index < capacity;
      var next := nextIndices[index];
      assert next == if 1 < |Contents| then Contents[1] else INVALID by {
        assert LinkAt(nextIndices[..], Contents, 0);
      }
      head := Slot64(next, Wrap32(HeadKey() + 1));
      LinkedTail(nextIndices[..], Contents);
      Contents := Contents[1..];
    }
  }
}
