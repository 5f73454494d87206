/**
 * The 64-bit handle layout of ak_atomic.h: a 32-bit index in the low word
 * and a 32-bit key (ABA counter or generation) in the high word.  The same
 * layout is used by the stack head word (`ak_async_stack_index32__key` on a
 * little-endian machine), by slot-map handles (`AK_Slot64`) and by job IDs
 * (`AK__Job_Make_ID`).  `index | key << 32` over disjoint bit ranges is the
 * same number as `index + key * 2^32`, which is how the model writes it.
 */
module Packing {
  import opened Bits

  /** `AK_Slot64(index, key)`. */
  function Slot64(index: u32, key: u32): (r: u64)
    ensures Slot64Index(r) == index && Slot64Key(r) == key
    ensures r == 0 <==> index == 0 && key == 0
  {
    index + key * U32_LIMIT
  }

  /** `AK_Slot64_Index(slot)`: the conversion to `uint32_t` keeps the low word. */
  function Slot64Index(slot: u64): u32
  {
    slot % U32_LIMIT
  }

  /** `AK_Slot64_Key(slot)`: the high word, `(uint32_t)(slot >> 32)`. */
  function Slot64Key(slot: u64): u32
  {
    slot / U32_LIMIT
  }

  /** Every 64-bit word is the packing of its two halves. */
  lemma Slot64OfParts(slot: u64)
    ensures Slot64(Slot64Index(slot), Slot64Key(slot)) == slot
  {
  }

  /** Two handles are equal exactly when their indices and keys are. */
  lemma Slot64Injective(i1: u32, k1: u32, i2: u32, k2: u32)
    ensures Slot64(i1, k1) == Slot64(i2, k2) <==> i1 == i2 && k1 == k2
  {
  }

  /**
   * The generation that `AK_Async_Slot_Map64_Free_Slot` and
   * `AK_Job__Storage_Free` store: one more than the handle's, where the
   * 32-bit increment that wraps to 0 is replaced by 1.
   */
  function NextGeneration(generation: u32): (r: u32)
    ensures r != 0
    ensures r != generation
    ensures generation < 0xFFFF_FFFF ==> r == generation + 1
    ensures generation == 0xFFFF_FFFF ==> r == 1
  {
    var next := Wrap32(generation + 1);
    if next == 0 then 1 else next
  }
}
