# ak_lib core in Dafny

A model of two single-header C libraries, with proofs about the model.

**ak_atomic.h** holds lock-free building blocks. Each is modelled in the single-threaded view: every compare-and-swap succeeds at its first attempt, and memory orders do not exist. The model covers:

- the 64-bit slot word `AK_Slot64`, which packs an index with a key or generation;
- the index stack (`ak_async_stack_index32`), the single-producer/multi-consumer index ring (`ak_async_spmc_queue_index32`) and the generational slot map (`ak_async_slot_map64`);
- the job storage of the job system;
- the QSBR reclamation scheme: contexts, quiescent states and deferred actions;
- the packed status words of the read/write lock, the lightweight semaphore and the auto-reset event.

Objects whose fields the C code updates in place are Dafny classes, with their C arrays kept as `array`s. The arithmetic on status words consists of functions.

**ak_fbx.h** is a reader for binary FBX files. The model covers:

- the block arena, with its aligned pushes;
- the byte stream with its little-endian reads;
- the decoding of property records and of node records;
- the parse of the top-level node list;
- the hash map from object IDs to pointers, with linear probing and per-base counts;
- the pass that splits `PolygonVertexIndex` into polygons;
- the embedded stb-derived zlib inflater, which is used for compressed property arrays.

The inflater is a class over its bit buffer. Its contracts tie every decoded block to a log of LZ77 operations (`Op`: literal, back-reference, stored bytes). The specification function `Inflate` turns that log into the output bytes. A bit-level reading of the input (`StreamBits`, `StreamCode`) and the relation `ZlibAt` built on it say where in the input each block, code length run and step was read. The contracts that succeed state that the steps of the log are the ones those bits encode.

Integers are unbounded. The model writes out the C wrap-arounds it covers: `Wrap32` and `Wrap64`, the `int32_t` reading of the queue counters (`ToSigned32`), the 10-bit fields of the lock word and the 14-bit QSBR field. The wrap-arounds it leaves out are listed under "Left out".

## Model

| member | source | states |
|---|---|---|
| Packing.Slot64 | ak_atomic.h:472-474 | packing an index and a key yields a word whose low half is the index and whose high half is the key; the word is 0 exactly when both parts are 0 |
| Packing.Slot64OfParts | ak_atomic.h:472-474 | every 64-bit word is the packing of its own index and key halves |
| Packing.Slot64Injective | ak_atomic.h:472-474 | two packings are equal if and only if their indices and their keys are equal |
| Packing.NextGeneration | ak_atomic.h:2368-2380 | a freed slot's next generation is never 0 and never the old one; it is old+1, and 1 after 0xFFFFFFFF |
| StackIndex.LinkedAfterPush | ak_atomic.h:2179-2197 | linking a new index to the old head keeps every older link intact, so the link array still spells out the stack contents |
| StackIndex.LinkedTail | ak_atomic.h:2199-2216 | after the head is removed, the remaining links still spell out the rest of the stack |
| StackIndex.StackIndex32.InitRaw | ak_atomic.h:2169-2177 | a new stack over the given index array is empty, with head `INVALID` and key 0 |
| StackIndex.StackIndex32.PushSync | ak_atomic.h:2179-2184 | the index becomes the head, in front of the old contents; the key is kept, and only the pushed index's link changes |
| StackIndex.StackIndex32.Push | ak_atomic.h:2186-2197 | the same as `PushSync`, except that the head key advances by one modulo 2^32, as the ABA guard |
| StackIndex.StackIndex32.Pop | ak_atomic.h:2199-2216 | an empty stack yields `INVALID` and does not change; otherwise the pop yields the head, the contents lose their first element and the key advances by one modulo 2^32 |
| SpmcQueue.RingSlice | ak_atomic.h:2267-2295 | the live contents of the ring are the `count` cells that follow `top`, taken modulo the capacity |
| SpmcQueue.DequeueTestCounts | ak_atomic.h:2281-2288 | while `Bottom` reads as a non-negative `int32_t`, the signed test `Top < Bottom` holds exactly when an entry is queued |
| SpmcQueue.DequeueStallsAsWritten | ak_atomic.h:2281-2288 | once `Bottom` passes 2^31-1 the signed test fails although entries are queued; with `Top` at 2^31-1 and `Bottom` at 2^31 one entry is queued and none can be dequeued |
| SpmcQueue.HasEntryCounts | ak_atomic.h:2268-2270 | the two's-complement difference `Bottom - Top` that the enqueue compares is positive exactly when an entry is queued, for counters fewer than 2^31 apart, whatever their signed readings |
| SpmcQueue.SignedDifference | ak_atomic.h:2268-2270 | `Bottom - Top` on the counters read as `int32_t`, wrapped to 32 bits, is the number of entries |
| SpmcQueue.SignedIncrement | ak_atomic.h:2277 | incrementing `Bottom` read as `int32_t` and storing it back as `uint32_t` advances it by one, below 2^32-1 |
| SpmcQueue.DistinctCells | ak_atomic.h:2267-2278 | fewer than `capacity` consecutive positions map to distinct cells, so an enqueue never overwrites a live element |
| SpmcQueue.RingSliceAppend | ak_atomic.h:2267-2278 | writing at the bottom cell of a ring that is not full appends exactly that value to the contents |
| SpmcQueue.RingSliceTail | ak_atomic.h:2280-2295 | advancing `top` removes exactly the first element of the contents |
| SpmcQueue.SpmcQueueIndex32.InitRaw | ak_atomic.h:2258-2265 | a new queue has top and bottom at 0 and holds nothing |
| SpmcQueue.SpmcQueueIndex32.Enqueue | ak_atomic.h:2267-2278 | a full queue does not change; otherwise the value is written at bottom modulo capacity, bottom advances by one and the contents gain the value at the end |
| SpmcQueue.SpmcQueueIndex32.Dequeue | ak_atomic.h:2280-2295 | an empty queue yields `INVALID`; otherwise the dequeue yields the oldest element, top advances by one and the contents lose that element |
| SlotMap.SlotMap64.InitRaw | ak_atomic.h:2337-2350 | every slot i starts with index i and generation 1; the free list holds capacity-1 down to 0, with key 0 |
| SlotMap.SlotMap64.AllocSlot | ak_atomic.h:2358-2366 | an empty free list yields 0; otherwise the slot yields the packed word of the free list's head index and its generation; the result is non-zero and allocated, and the index leaves the free list |
| SlotMap.SlotMap64.FreeSlot | ak_atomic.h:2368-2380 | freeing a live slot bumps its generation with `NextGeneration`, pushes its index on the free list and leaves it unallocated; freeing a stale slot changes nothing |
| JobStorage.MakeId | ak_atomic.h:2795-2799 | a job's ID carries the job's index in its low half and its generation in its high half |
| JobStorage.Storage.Init | ak_atomic.h:2828-2845 | every job i starts with index i and generation 1, and the free list holds jobCount-1 down to 0 |
| JobStorage.Storage.Get | ak_atomic.h:2847-2856 | an ID resolves to its index exactly when the ID's generation matches the job's current generation |
| JobStorage.Storage.GetMakeId | ak_atomic.h:2795-2856 | a job's own current ID always resolves back to that job |
| JobStorage.Storage.Alloc | ak_atomic.h:2858-2870 | an empty free list yields no job; otherwise the head of the free list is popped, and the ID of the job handed out resolves to it |
| JobStorage.Storage.Free | ak_atomic.h:2876-2888 | the job's generation is bumped, its index goes back on the free list, and the freed ID no longer resolves |
| SyncStatus.Encode | ak_atomic.h:2048-2059 | packing readers, waiting readers and writers as three 10-bit fields gives a word below the padding bits |
| SyncStatus.Compose | ak_atomic.h:2048-2059 | a status packed with any padding value decodes back to that status and that padding |
| SyncStatus.DecodeCompose | ak_atomic.h:2048-2059 | the word built from a status and padding is in range and decodes to both parts |
| SyncStatus.DecodeEncode | ak_atomic.h:2048-2059 | decoding the packed status gives back the status |
| SyncStatus.EncodeDecode | ak_atomic.h:2048-2059 | every 32-bit word is the packing of its decoded status and padding |
| SyncStatus.LockReader | ak_atomic.h:2074-2090 | a reader must wait exactly when a writer is present; then it joins the waiting readers, and otherwise it joins the readers; each count is a 10-bit field and padding is kept |
| SyncStatus.UnlockReader | ak_atomic.h:2092-2099 | the reader count drops by one, and a writer is released exactly when this was the last reader and writers are queued |
| SyncStatus.LockWriter | ak_atomic.h:2101-2109 | the writer count grows by one, and the writer must wait exactly when readers or writers were already present |
| SyncStatus.UnlockWriter | ak_atomic.h:2111-2132 | the writer count drops by one; the waiting readers all become readers and are released; another writer is released only when no reader was waiting and writers remain |
| SyncStatus.CreateConsistent | ak_atomic.h:2061 | the zero word created with the lock is consistent and has no readers, waiters or writers |
| SyncStatus.TransitionsKeepConsistent | ak_atomic.h:2074-2132 | every lock and unlock transition whose precondition holds maps a consistent word to a consistent word |
| SyncStatus.WriterHandOff | ak_atomic.h:2101-2132 | a second writer queues behind the first, and the first writer's unlock then releases it |
| SyncStatus.LwSemaphoreAdd | ak_atomic.h:1972-1978 | the count is the 32-bit wrapping sum; at most min(waiters, addend) threads are released, and exactly one of waiters, addend or 0 |
| SyncStatus.LwSemaphoreDecrement | ak_atomic.h:1962-1966 | the count drops by one, and the caller must wait exactly when the count was not positive |
| SyncStatus.SemaphoreAddReleasesWaiters | ak_atomic.h:1972-1978 | without overflow, an add releases no more than the waiters and no more than the addend, and the waiters left are the waiters minus those released |
| SyncStatus.SemaphoreDecrementWaiters | ak_atomic.h:1962-1966 | a decrement adds a waiter exactly when the caller must wait |
| SyncStatus.AutoResetEventCreate | ak_atomic.h:2013-2020 | creation succeeds exactly for an initial status of 0 or 1, and then keeps it |
| SyncStatus.AutoResetEventSignal | ak_atomic.h:2026-2038 | signalling raises the status by one and saturates at 1; it wakes a thread exactly when one was waiting, that is, when the status was negative |
| SyncStatus.AutoResetEventWait | ak_atomic.h:2040-2046 | waiting lowers the status by one, and the caller blocks exactly when the event was not set |
| SyncStatus.EventStatusBounded | ak_atomic.h:2026-2046 | after any sequence of signals and waits, the status never exceeds 1 |
| SyncStatus.EventWaiters | ak_atomic.h:2026-2046 | each wait on an unset event adds one waiter, and each waking signal removes one; a signal undoes a wait, and signalling a set event keeps it set |
| Qsbr.CountIfUpdate | ak_atomic.h:2606-2676 | replacing one status changes a count by what the old and new statuses contribute |
| Qsbr.CountIfAll | ak_atomic.h:2548-2558 | a count equals the length exactly when every status satisfies the test |
| Qsbr.CountIfNone | ak_atomic.h:2652-2676 | a count is 0 exactly when no status satisfies the test |
| Qsbr.ChainHead | ak_atomic.h:2606-2626 | the free chain is empty exactly when `FreeIndex` is -1, and otherwise `FreeIndex` is a valid context |
| Qsbr.ChainPop | ak_atomic.h:2606-2626 | reusing the head of the free chain leaves, as the free chain, the chain that follows its `NextFree` |
| Qsbr.ChainPush | ak_atomic.h:2628-2650 | a deleted context, linked to the old `FreeIndex`, heads a free chain made of itself followed by the old chain |
| Qsbr.ChainAppend | ak_atomic.h:2606-2626 | appending a context in use keeps the free chain |
| Qsbr.ClearIdle | ak_atomic.h:2548-2558 | when all quiescent states have passed, every context keeps its use and link and is marked not idle |
| Qsbr.ClearIdleCounts | ak_atomic.h:2548-2558 | after clearing, the number of contexts still to report equals the number of contexts in use |
| Qsbr.NextFreeField14 | ak_atomic.h:2519-2523 | the 14-bit signed `NextFree` field stores a value congruent to the input modulo 2^14, in -8192..8191, and keeps only values already in that range |
| Qsbr.NextFreeField14Truncates | ak_atomic.h:2519-2523 | context 8192 is allowed by the creation bound, but the field stores it as -8192 |
| Qsbr.Qsbr.Create | ak_atomic.h:2581-2594 | a new QSBR has no contexts, an empty free chain (-1), no one to wait for and no actions |
| Qsbr.Qsbr.OnAllQuiescentStatesPassed | ak_atomic.h:2548-2558 | the pending actions are handed out, the deferred actions become pending, all contexts are marked not idle, and the wait count restarts at the number of contexts |
| Qsbr.Qsbr.CreateContext | ak_atomic.h:2606-2626 | a context is reused from the head of the free chain, or appended when the chain is empty; it is initialised in use and busy, and both counts grow by one |
| Qsbr.Qsbr.ReuseFree | ak_atomic.h:2611-2616 | the head of the free chain is handed out reinitialised, the chain moves on to its successor, and both counts grow by one |
| Qsbr.Qsbr.AppendContext | ak_atomic.h:2617-2622 | with no free context, a new in-use busy status is appended at the end of the list and both counts grow by one |
| Qsbr.Qsbr.DeleteContext | ak_atomic.h:2628-2650 | the context leaves use and heads the free chain; a busy context is no longer waited for, and when no one is left the actions rotate and are handed out |
| Qsbr.Qsbr.MarkFree | ak_atomic.h:2637-2646 | the context is marked free, links to the old chain head and becomes the head; in-use count down by one, remaining count down by one only for a busy context |
| Qsbr.Qsbr.Update | ak_atomic.h:2652-2676 | a context that is already idle changes nothing; otherwise it turns idle, the wait count drops by one, and at 0 the actions rotate and are handed out |
| Qsbr.Qsbr.Enqueue | ak_atomic.h:2678-2694 | the action is added at the end of the deferred actions, and nothing else changes |
| Qsbr.RemainingZeroIffAllIdle | ak_atomic.h:2652-2676 | no busy context is left exactly when every context in use has reported idle |
| FbxBytes.LittleEndianBound | ak_fbx.h:515-534 | an n-byte little-endian word is below 2^(8n) |
| FbxBytes.EncodeLittleEndian | ak_fbx.h:515-534 | the n-byte little-endian encoding of a value has exactly n bytes |
| FbxBytes.LittleEndianOfEncode | ak_fbx.h:515-534 | reading back the n-byte encoding of a value below 2^(8n) gives the value |
| FbxBytes.EncodeOfLittleEndian | ak_fbx.h:515-534 | encoding a word read from the buffer gives back the buffer's bytes |
| FbxBytes.LittleEndianShiftAt | ak_fbx.h:515-534 | a word read at an offset of a longer buffer equals the word at the start of its suffix |
| FbxBytes.LittleEndianPastEnd | ak_fbx.h:515-534 | a word read wholly beyond the buffer is 0 |
| FbxBytes.StrNEqualNulFree | ak_fbx.h:293-296 | for strings without NUL bytes, `strncmp` equality over n bytes is equality of the first n bytes |
| FbxBytes.StrCmpIsEquality | ak_fbx.h:297-300 | comparing a NUL-free name with a NUL-free literal, over the literal's length, is string equality |
| FbxBytes.StrNCopy | ak_fbx.h:552-561 | the copy has n bytes, each either a NUL pad or the source byte at that position |
| FbxBytes.StrNCopyCompares | ak_fbx.h:552-561 | a copied string compares equal to its source over the copied length |
| FbxBytes.StrNCopyNulFree | ak_fbx.h:552-561 | copying n bytes of a NUL-free string gives its first n bytes |
| FbxBytes.CeilPow2 | ak_fbx.h:1187-1196 | for 1 <= v <= 2^31, the result is the least power of two that is at least v; 0 and larger inputs wrap to 0 |
| FbxArena.AlignUp | ak_fbx.h:421 | the aligned value is a multiple of the alignment, and less than one alignment above the value |
| FbxArena.FitsAsWrittenOverflows | ak_fbx.h:395-405 | an example block passes the unaligned fit test, yet the aligned push overruns the block's capacity |
| FbxArena.FirstFit | ak_fbx.h:395-405 | the block found is the first one at or after the start where the aligned allocation fits; when none is found, it fits in no block |
| FbxArena.CurrentFit | ak_fbx.h:395-405 | the block found lies at or after the current block, and the allocation fits in it |
| FbxArena.NewBlockSize | ak_fbx.h:429-435 | a new block is the default 1 MiB, or the request when that is larger |
| FbxArena.AllocationsAfterPush | ak_fbx.h:423-452 | a new allocation past the block's `Used` is disjoint from every earlier allocation, and all allocations stay inside their blocks |
| FbxArena.Arena.Create | ak_fbx.h:414-419 | a new arena has no blocks, no current block and no allocations |
| FbxArena.Arena.CurrentBlock | ak_fbx.h:395-405 | the search yields the first block, from the current one on, where the allocation fits after alignment |
| FbxArena.Arena.PushAlignment | ak_fbx.h:423-452 | a zero-size push yields nothing; otherwise it yields an aligned allocation of the requested size that is disjoint from all earlier ones; it goes in the first fitting block, whose `Used` moves to its end, or at offset 0 of a new block |
| FbxArena.Arena.Push | ak_fbx.h:454-456 | `PushAlignment` with 16-byte alignment: size 0 gives none and changes nothing; otherwise the allocation is 16-byte aligned, overlaps no earlier one, and its block becomes current; it goes at the block's rounded-up `Used` in the first block from the current one with room, whose `Used` moves to its end, or at offset 0 of a new block of `max(1 MiB, size)` appended to the list |
| FbxArena.Arena.Delete | ak_fbx.h:458-468 | a deleted arena holds no blocks and no allocations |
| FbxStream.Window | ak_fbx.h:497-506 | n bytes are read from the buffer position on |
| FbxStream.WindowInside | ak_fbx.h:497-506 | inside the buffer, the bytes read are the buffer's slice |
| FbxStream.LittleEndianWindow | ak_fbx.h:515-534 | a word copied out of the buffer has the value of the word in place |
| FbxStream.Stream.Peek | ak_fbx.h:483-488 | `Peek` yields the cursor's position in the buffer, or nothing at the end of the window |
| FbxStream.Stream.Skip | ak_fbx.h:490-495 | the cursor moves forward by the offset |
| FbxStream.Stream.Consume | ak_fbx.h:497-506 | the bytes at the cursor are yielded, and the cursor moves past them |
| FbxStream.Stream.ConsumeWord | ak_fbx.h:508-534 | the little-endian word at the cursor is yielded, and the cursor moves past it |
| FbxStream.Stream.ConsumeByte | ak_fbx.h:508-513 | the byte at the cursor is yielded, and the cursor moves one byte |
| FbxStream.Stream.ReadWord | ak_fbx.h:786 | a node word is 8 bytes in 64-bit files and 4 bytes otherwise, and is read at the cursor |
| FbxProperty.ArrayCode | ak_fbx.h:917-951 | each array kind has a type code that is an array code and maps back to the kind |
| FbxProperty.DecodedArraySize | ak_fbx.h:867-903 | a decoded plain array has count times element size bytes, and its record spans its header and payload |
| FbxProperty.UncompressedLengthWraps | ak_fbx.h:895-903 | the 32-bit product `ArrayLength*Stride` for 2^30 `i` elements wraps to 0, though the true size is 2^32 |
| FbxProperty.DecodedRanges | ak_fbx.h:806-866 | every decoded integer lies in the range of its C type (the `C` flag, an `s8`, in -128..127), and every decoded length fits 32 bits |
| FbxProperty.ScalarValueFits | ak_fbx.h:806-843 | a scalar read from a field below its width is in the range of its type, the `C` flag read as a signed byte in -128..127 |
| FbxProperty.ScalarCode | ak_fbx.h:806-843 | each scalar property has one scalar type code |
| FbxProperty.ScalarWordFits | ak_fbx.h:806-843 | a scalar's stored word fits its field, and decoding that word gives back the scalar |
| FbxProperty.DecodeOfEncode | ak_fbx.h:797-966 | decoding the encoding of any well-formed property, with any bytes after it, gives back the property and ends exactly at the end of its record |
| FbxProperty.ScalarRoundTrip | ak_fbx.h:806-843 | the round trip for scalars `Y C I F D L` |
| FbxProperty.DecodedScalarAt | ak_fbx.h:806-843 | a scalar code followed by its word decodes to that scalar and spans code plus width |
| FbxProperty.BlobRoundTrip | ak_fbx.h:844-860 | the round trip for raw `R` and string `S` records: a length word followed by the bytes |
| FbxProperty.ArrayRoundTrip | ak_fbx.h:861-903 | the round trip for plain arrays: count, encoding 0, byte length, then the payload |
| FbxProperty.DecodedArrayAt | ak_fbx.h:861-903 | an array header whose encoding is 0 and whose byte length is count times stride decodes to that array |
| FbxProperty.DecodedArrayCase | ak_fbx.h:861-957 | how a record with an array code decodes |
| FbxProperty.ReadProperty | ak_fbx.h:797-966 | an invalid stream fails without moving; otherwise the cursor moves to the record's end; success means the record decodes (plain) or, for a zlib array, its stored bytes are a zlib stream whose blocks encode the steps that fill the payload; every record that decodes and ends inside the window is accepted |
| FbxProperty.ReadScalar | ak_fbx.h:806-843 | reading a scalar after its code yields the decoded scalar and moves by its width; the integers, `C` included, are two's complement readings of their little-endian words, so a `C` byte of 0x80 or more is negative |
| FbxProperty.ReadBlob | ak_fbx.h:844-860 | reading a raw or string record yields its bytes and moves past the length word and the bytes |
| FbxProperty.ReadArray | ak_fbx.h:861-957 | the cursor moves past the 12-byte header and the stored bytes; a plain array is accepted exactly when it decodes; a zlib array is accepted exactly when inflating succeeds, and then the stored bytes are a zlib stream whose blocks encode the steps whose output fills the payload |
| FbxProperty.DecodeArray | ak_fbx.h:895-957 | encoding 0 is accepted exactly when the stored size is count times stride, computed without wrap-around; encoding 1 is accepted exactly when the stored bytes inflate: they are then a zlib stream (`ZlibAt`) whose blocks encode the steps whose output is a prefix of the payload of count times stride bytes; other encodings fail |
| FbxNode.PropertyOffset | ak_fbx.h:1011-1017 | the k-th property starts at least k bytes past the list start |
| FbxNode.ReadProperties | ak_fbx.h:1003-1022 | success means exactly `PropertyCount` properties were read back to back, each at its offset, and the list ends exactly at `PropertyLength`; conversely, `PropertyCount` plain properties laid out one after another up to `PropertyLength` (`PlainProperties`) are read back as exactly those properties |
| FbxNode.ReadListedProperty | ak_fbx.h:1011-1017 | one more property is read at the next offset, extending the list read so far; when plain properties follow up to the window's end, the first of them is accepted and appended as itself, and the rest stay plain from the new position |
| FbxNode.ReadAcceptedProperty | ak_fbx.h:1014-1016 | an accepted property moves the cursor over its record and reads as the record; a plain record that decodes and ends inside the window is accepted as that decoding |
| FbxNode.PropertyOffsetNext | ak_fbx.h:1011-1017 | the next property starts where the previous record ends |
| FbxNode.PropertiesReadSnoc | ak_fbx.h:1011-1017 | a property read at the next offset extends the list read |
| FbxNode.PropertyCountBound | ak_fbx.h:1003-1022 | a property list that ends exactly at its length has no more properties than bytes |
| FbxNode.CheckSentinel | ak_fbx.h:1056-1063 | the check passes exactly when all the sentinel's bytes are zero |
| FbxNode.ReadNode | ak_fbx.h:969-1074 | terminate exactly when the end offset is 0, after the one word; an end offset beyond the window is an error; success ends exactly at the end offset, and the node is the record there (`NodeAt`): its header gives the name, its property list is read property by property and ends at `PropertyLength`, and its nested records are read one after another up to a zero sentinel, each where the one before ended; conversely, a terminating record or a plain record laid out as a node (`PlainChild`) is read without error as that node |
| FbxNode.ReadTopLevelRecord | ak_fbx.h:1100 | terminate exactly when the end offset is 0; a record not in error moves the cursor to where the list goes on, and a successful one is the node at its position; a plain record laid out as a node (`PlainNode`) succeeds as that node |
| FbxNode.PlainChildBounds | ak_fbx.h:979-985 | a plain record that does not terminate its list passes both end-offset tests: its end lies inside the window and after its first word |
| FbxNode.ReadRecord | ak_fbx.h:987-1074 | the cursor moves; success ends at the record end, and the node is the record at its position (`NodeAt`); a record laid out as a plain node (`PlainNode`: it ends inside the window after its properties, its header gives the name and count, its properties are plain and fill the property length, and its tail is empty or plain children up to a zero sentinel) is read as that node |
| FbxNode.NodeAtOf | ak_fbx.h:987-1073 | a record whose header and properties were read, and whose nested part was read up to its sentinel, is the node at its position |
| FbxNode.ReadHeaderAndProperties | ak_fbx.h:987-1026 | success means the header and the property list were read and the list ends inside the window, with the bound tested without wrap-around; a header whose count and length frame plain properties inside the window is read with exactly those properties |
| FbxNode.PropertyListBoundWraps | ak_fbx.h:998 | in a 64-bit file, `At + PropertyLength` wraps for an example past 2^64, so an out-of-bounds property list passes the test |
| FbxNode.ReadCountsAndName | ak_fbx.h:987-996 | the property count, the property length and the name are read from their places in the header |
| FbxNode.ReadName | ak_fbx.h:993-996 | the name is the length byte's count of bytes, copied with `Make_String` |
| FbxNode.ReadNested | ak_fbx.h:1028-1072 | success ends exactly at the record end; a non-empty nested part ends in a zero sentinel, and the children are the records read one after another from the end of the property list, the last ending where the sentinel starts; a tail laid out as plain children and a sentinel (`PlainTail`) is read as those children |
| FbxNode.ReadChildren | ak_fbx.h:1042-1049 | success means the nested stream ran out, and its records were read one after another from its start, each before its end; records laid out one after another up to the end of the nested stream (`PlainChildren`) are read as exactly those records, ending at its end |
| FbxNode.ReadListedChild | ak_fbx.h:1043-1048 | a record that is not in error, terminating or not, is appended to the children, read where the one before ended, and the cursor moves to where the list goes on; a plain record there is appended as itself |
| FbxNode.RecordOffsetNext | ak_fbx.h:1042-1049 | the next record starts where the list goes on after the last one |
| FbxNode.ChildrenReadSnoc | ak_fbx.h:1042-1049 | one more record read where the list goes on extends the children read |
| FbxNode.RootNameCopy | ak_fbx.h:1085 | the copied root name is "Root" |
| FbxNode.Parse | ak_fbx.h:1078-1119 | a file without the binary magic is the bare root; a binary file cut within its header fails; a file ending at its version word is the bare root; records have 64-bit words exactly when the version is 7500 or more; the records read after the version word are nodes, each where the one before ended; of the records the reader accepted, the parse succeeds exactly when the list ends after them (the buffer runs out or a record terminates it), and the root's children are then those records, under the name "Root" with no properties; conversely, a binary file whose records after the version word are laid out as plain nodes up to the end of the list (`PlainRecords`) parses to the root holding exactly those records |
| FbxNode.ReadVersionAndRecords | ak_fbx.h:1095-1112 | records have 64-bit words exactly when the version is 7500 or more; a buffer ending at the version word gives no records; the records after it are nodes read one after another, and success holds exactly when the list then ends; plain records laid out up to the end of the list are read as exactly those records |
| FbxNode.ReadTopLevel | ak_fbx.h:1098-1112 | an exhausted stream yields no children and succeeds; the children are nodes read one after another from the cursor, and success holds exactly when the record after them lies past the buffer or terminates the list; records laid out as plain nodes up to the end of the list (`PlainRecords`) are read as exactly those records |
| FbxNode.ReadListedRecord | ak_fbx.h:1099-1111 | terminate exactly when the end offset is 0; a record not in error moves the cursor to where the list goes on; a successful record is appended to the top-level list, read where the one before ended; a plain record there succeeds and is appended as itself |
| FbxNode.TopLevelReadSnoc | ak_fbx.h:1098-1112 | one more node read where the top-level list goes on extends it |
| FbxIdMap.Base | ak_fbx.h:1237-1284 | the base slot of a hash lies inside the table |
| FbxIdMap.BaseIsRemainder | ak_fbx.h:1237-1284 | masking the hash with the table size minus one is taking it modulo the table size |
| FbxIdMap.Offset | ak_fbx.h:1157-1185 | every slot is reached by some probe step from the base |
| FbxIdMap.NextProbe | ak_fbx.h:1157-1185 | stepping to the next slot with wrap-around is the next probe |
| FbxIdMap.CountWindowGrows | ak_fbx.h:1237-1263 | counting over a longer probe window never gives less |
| FbxIdMap.CountWindowBeyond | ak_fbx.h:1237-1263 | a matching slot beyond the counted window adds at least one to the count |
| FbxIdMap.CountWindowMiss | ak_fbx.h:1157-1185 | a window that is not full contains a slot that fails the test, so a free slot exists |
| FbxIdMap.CountOccupiedBelowHash | ak_fbx.h:1237-1263 | occupied slots of a base are at most the slots whose hash has that base |
| FbxIdMap.CountWindowUpdate | ak_fbx.h:1265-1284 | storing one slot changes a window count by what the old and new slots contribute |
| FbxIdMap.CountWindowEmpty | ak_fbx.h:1209-1235 | an empty table counts no occupied slots |
| FbxIdMap.EmptyTableCounts | ak_fbx.h:1209-1235 | every base count of an empty table is exact (0) and nothing is occupied |
| FbxIdMap.CeilLog2 | ak_fbx.h:1187-1196 | the exponent found is the least n with 2^n at least v |
| FbxIdMap.LeastPowerOfTwoAtLeast | ak_fbx.h:1209-1235 | the slot count is a power of two at least v and below 2v |
| FbxIdMap.CeilLog2Bound | ak_fbx.h:1187-1196 | that power of two stays within 2^31 |
| FbxIdMap.LookupAt | ak_fbx.h:1286-1293 | with distinct keys, the value found for a stored key is its own value |
| FbxIdMap.LookupAbsent | ak_fbx.h:1286-1293 | a key never added has no value |
| FbxIdMap.LookupAppend | ak_fbx.h:1265-1293 | after an add, the new key maps to its value and every other key keeps its value |
| FbxIdMap.AddConsistent | ak_fbx.h:1265-1284 | storing the item in a free slot and bumping the base's count keeps the table consistent with the key list |
| FbxIdMap.MissedKeyAbsent | ak_fbx.h:1237-1263 | when the whole counted run for a base holds no slot with the key, the key is in no item |
| FbxIdMap.StoreItem | ak_fbx.h:1265-1284 | the item's slot, the base count, the ID and the pointer are stored, and nothing else |
| FbxIdMap.FindFreeSlot | ak_fbx.h:1157-1185 | probing from the base always finds a free slot while the table is not full |
| FbxIdMap.SlotCapacityFor | ak_fbx.h:1212-1213 | for 1 to 2^30 items the slot count is the least power of two at least twice the items, so above the item count; for 0 or more than 2^30 items the 32-bit product `Count*2` wraps or is 0, and there are no more slots than items |
| FbxIdMap.IdPtrMap.Create | ak_fbx.h:1209-1235 | a map for `Count` items has `SlotCapacityFor(Count)` slots, all empty, and no keys; for 1 to 2^30 items that is twice as many slots as items, rounded up to a power of two, and the map is consistent (`Valid`) |
| FbxIdMap.IdPtrMap.FindSlot | ak_fbx.h:1237-1263 | nothing is found exactly when the key is absent; otherwise the slot found holds an item with that key |
| FbxIdMap.IdPtrMap.Add | ak_fbx.h:1265-1284 | adding a new key appends it and its pointer to the stored entries, and keeps the table consistent |
| FbxIdMap.IdPtrMap.Get | ak_fbx.h:1286-1293 | the pointer stored for the key is yielded, and null (0) for an absent key |
| FbxIdMap.CountsAfterAdd | ak_fbx.h:1265-1284 | after an add, every base count is still exact and one more slot is occupied |
| FbxPolygon.VertexIndex | ak_fbx.h:1593-1627 | a negative (closing) index is complemented back to the vertex index; other indices are kept |
| FbxPolygon.TilesCons | ak_fbx.h:1593-1627 | a closed polygon followed by a tiling of the rest tiles from its start |
| FbxPolygon.SplitTiles | ak_fbx.h:1593-1627 | the polygons cut from any point tile the rest of the list, one per closing mark |
| FbxPolygon.PolygonsTile | ak_fbx.h:1593-1627 | the polygons of a list are consecutive, non-empty, each ends at its one negative entry, and there is one per negative entry |
| FbxPolygon.DecodePolygonVertexIndex | ak_fbx.h:1593-1627 | the index array holds every index with its closing mark removed, and the polygon array is exactly the polygons of the list |
| FbxPolygon.CopyPolygons | ak_fbx.h:1593-1627 | the polygon array holds the collected polygons in order |
| ZlibBits.BitReverse16Bit | ak_fbx.h:1955-1962 | bit i of the reversed word is bit 15-i of the input |
| ZlibBits.BitReverse16Involution | ak_fbx.h:1955-1962 | reversing twice gives back the word |
| ZlibBits.BitReverseBit | ak_fbx.h:1964-1970 | reversing the low `bits` bits gives bit i from bit bits-1-i |
| ZlibBits.BitReverseHigh | ak_fbx.h:1964-1970 | bits at or above `bits` are zero after the reversal |
| ZlibBits.BitReverseReverses | ak_fbx.h:1964-1970 | both facts for all bit positions |
| ZlibBits.StreamBits | ak_fbx.h:2061-2069 | n bits taken least significant first from the bit position are below 2^n |
| ZlibBits.StreamCode | ak_fbx.h:2071-2088 | n bits read as a Huffman code, first bit most significant, are below 2^n |
| ZlibBits.ReverseStreamBits | ak_fbx.h:2076 | reversing the n-bit field gives the Huffman code of the same bits |
| ZlibBits.StreamBitsSplit | ak_fbx.h:2061-2069 | a+b bits are the b bits after the first a, shifted up by a, plus the first a |
| ZlibBits.StreamBitsTake | ak_fbx.h:2065-2066 | masking the low a bits and shifting them out give the first a bits and the bits after them |
| ZlibBits.StreamCodeSplit | ak_fbx.h:2077-2082 | a code of a+b bits is the first a bits shifted up by b, plus the next b bits |
| ZlibBits.StreamCodePrefix | ak_fbx.h:2082 | the top s bits of the 16-bit code are the s-bit code |
| ZlibBits.StreamBitsPastEnd | ak_fbx.h:2044-2047 | bits past the input read as 0, as `zget8` does at the end |
| ZlibBits.StreamByte | ak_fbx.h:2044-2057 | the 8 bits at byte boundary q are byte q |
| ZlibBits.StreamByteFrom | ak_fbx.h:2216-2224 | the bits from inside byte q to its end are the byte shifted down |
| ZlibBits.LowBits | ak_fbx.h:2065 | the masked value is below 2^n |
| ZlibBits.BufferTake | ak_fbx.h:2065-2067 | for a bit buffer holding the next m bits, its low n bits are the next n bits, and the shifted buffer holds the following m-n |
| ZlibBits.ShiftCode | ak_fbx.h:2082 | shifting a code down by j leaves the code of the first n-j bits |
| ZlibBits.StreamBitsAppend | ak_fbx.h:2056-2057 | a byte or field placed above the buffered bits extends the buffer by those bits |
| ZlibHuffman.CountLength | ak_fbx.h:1980-1982 | the number of symbols of one code length is at most the number of symbols |
| ZlibHuffman.EmptyTable | ak_fbx.h:1945-1953 | the empty table has the array sizes of `zhuffman` |
| ZlibHuffman.BuildHuffman | ak_fbx.h:1972-2017 | the build succeeds exactly when the Kraft sum of the lengths is at most 2^15; then every length has its first code, limit and first symbol, and every symbol sits in its canonical slot |
| ZlibHuffman.CountSizes | ak_fbx.h:1978-1982 | `sizes[l]` is the number of symbols of length l |
| ZlibHuffman.BuildLevels | ak_fbx.h:1983-1998 | the level loop succeeds exactly when the Kraft sum is within 2^15; then each length's first code is the canonical next code, its limit the end of its codes preshifted, and its first symbol the count of shorter symbols; the sentinel is 0x10000 |
| ZlibHuffman.BuildLevel | ak_fbx.h:1988-1996 | one length of the loop writes that length's first code, first symbol and preshifted limit, and moves the counters to the next canonical code and symbol count |
| ZlibHuffman.KraftStep | ak_fbx.h:1991-1993 | with shorter lengths not over-subscribed, the codes of a length run past 2^length exactly when the Kraft sum at that length exceeds 2^length |
| ZlibHuffman.LevelsExtend | ak_fbx.h:1987-1997 | one more iteration extends the finished levels by one |
| ZlibHuffman.LevelsSentinel | ak_fbx.h:1998 | the sentinel leaves the levels intact |
| ZlibHuffman.PlaceSymbols | ak_fbx.h:1999-2015 | each symbol with a code gets its length and value at its canonical slot |
| ZlibHuffman.PlaceStep | ak_fbx.h:2000-2013 | placing a symbol at its slot keeps earlier symbols in place |
| ZlibHuffman.PlaceSkip | ak_fbx.h:2001 | a symbol of length 0 is skipped |
| ZlibHuffman.CountLengthStep | ak_fbx.h:1980-1981 | counting one more symbol adds one to its own length's count |
| ZlibHuffman.CountLengthMonotone | ak_fbx.h:1980-1981 | a count over a prefix is never more than over a longer prefix |
| ZlibHuffman.RankBelowCount | ak_fbx.h:2002 | a symbol's rank among its length is below that length's count |
| ZlibHuffman.SymbolsBelowMonotone | ak_fbx.h:1990-1996 | the first symbol of a length grows with the length |
| ZlibHuffman.SymbolsBelowAppend | ak_fbx.h:1990-1996 | a further symbol adds to the count of shorter symbols only if it is shorter |
| ZlibHuffman.SymbolsBelowTotal | ak_fbx.h:1990-1996 | the count of shorter symbols is at most the number of symbols |
| ZlibHuffman.SymbolsBelowEmpty | ak_fbx.h:1990-1996 | no symbols, no shorter symbols |
| ZlibHuffman.SlotSeparates | ak_fbx.h:2002-2005 | each symbol's slot is in the table and differs from every other coded symbol's slot |
| ZlibHuffman.KraftAtLeastCount | ak_fbx.h:1983-1993 | the Kraft sum at a length counts at least the symbols of that length |
| ZlibHuffman.KraftOverflowPropagates | ak_fbx.h:1983-1993 | once the code space overflows at one length, it overflows at every longer one |
| ZlibHuffman.RankExists | ak_fbx.h:2082-2087 | every rank below a length's count belongs to some symbol of that length |
| ZlibHuffman.DecodeSound | ak_fbx.h:2077-2087 | a 16-bit code below the limit of length s and at or above all shorter limits selects a slot holding a symbol of length s whose canonical code is the code's top s bits |
| ZlibHuffman.CodeRange | ak_fbx.h:2077-2082 | such a code's top s bits lie among the codes of length s |
| ZlibHuffman.PreviousLimit | ak_fbx.h:1994-1995 | the limit of one length is the next length's first code, preshifted |
| ZlibInflate.LengthTable | ak_fbx.h:2109-2115 | each length code's base plus its extra bits stays within 3..258 |
| ZlibInflate.DistanceTable | ak_fbx.h:2117-2121 | each distance code's base plus its extra bits stays within 1..32768 |
| ZlibInflate.CopyMatch | ak_fbx.h:2151-2157 | a back-reference adds `length` bytes to the output |
| ZlibInflate.CopyMatchCopies | ak_fbx.h:2151-2157 | a back-reference keeps the output and makes each new byte the byte `distance` before it, overlapping copies included |
| ZlibInflate.InflateSnoc | ak_fbx.h:2123-2160 | inflating one more operation applies it to the output so far |
| ZlibInflate.InflatePrefix | ak_fbx.h:2123-2160 | the output of a prefix of the log is a prefix of the whole output |
| ZlibInflate.OutputPrefix | ak_fbx.h:2123-2160 | the output of a prefix of the log is the prefix of the output of its length; a failed block leaves the output written so far as it was |
| ZlibInflate.AlignedBoundary | ak_fbx.h:2216-2217 | discarding `num_bits & 7` bits reaches the next byte boundary and leaves whole bytes buffered |
| ZlibInflate.BufferByte | ak_fbx.h:2056-2057 | or-ing the next byte above the buffered bits holds 8 more stream bits |
| ZlibInflate.PeekCode | ak_fbx.h:2076 | reversing the low 16 buffered bits gives the next 16-bit Huffman code |
| ZlibInflate.DecodedSymbol | ak_fbx.h:2076-2087 | for a well-built table, the slow-path lookup yields a symbol of length s whose code is the next s stream bits |
| ZlibInflate.CodeLength | ak_fbx.h:2077-2079 | the code length found is the first whose limit exceeds the code |
| ZlibInflate.XorAllOnes | ak_fbx.h:2231 | xor with all ones is the complement |
| ZlibInflate.DezigzagRange | ak_fbx.h:2164 | each order entry is a code-length symbol, and the inverse order maps it back |
| ZlibInflate.DezigzagDistinct | ak_fbx.h:2164 | the order visits distinct symbols |
| ZlibInflate.CodeLengthSizesAt | ak_fbx.h:2175-2179 | after k reads, every visited symbol has its 3-bit length and every other symbol has 0 |
| ZlibInflate.ExpandSnoc | ak_fbx.h:2183-2205 | expanding one more run applies it to the lengths so far |
| ZlibInflate.StoredBytes | ak_fbx.h:2229-2234 | an accepted stored block has LEN bytes |
| ZlibInflate.StoredChecks | ak_fbx.h:2231-2233 | the NLEN test, the input test and the output test together hold exactly when the block is accepted and fits the output; accepted bytes are the input slice |
| ZlibInflate.Complements | ak_fbx.h:2231 | NLEN passes exactly when it is the one's complement of LEN in 16 bits |
| ZlibInflate.InputBytesAt | ak_fbx.h:2227-2228 | each byte read is the input byte at its position, or 0 past the end |
| ZlibInflate.StoredHeaderWords | ak_fbx.h:2229-2230 | LEN and NLEN are little-endian 16-bit words of the four header bytes |
| ZlibInflate.StoredPastEnd | ak_fbx.h:2227-2232 | a stored block starting past the input is refused, because its zero LEN and NLEN are not complements |
| ZlibInflate.BlockPastEnd | ak_fbx.h:2044-2047 | a block header past the end of the input reads as type 0, and its stored header is refused there |
| ZlibInflate.StoredOverflowsAsWritten | ak_fbx.h:2233-2234 | an example stream passes every error check with a non-empty stored block, though its output has room for nothing |
| ZlibInflate.CopyStored | ak_fbx.h:2234 | the output gains the block's bytes at its end |
| ZlibInflate.CopyBack | ak_fbx.h:2151-2157 | the output is extended by exactly the back-reference the log describes, and the earlier output is kept |
| ZlibInflate.CopyRun | ak_fbx.h:2152-2154 | a distance-1 run repeats the last byte |
| ZlibInflate.CopyFar | ak_fbx.h:2155-2156 | a longer distance copies byte by byte, overlapping included |
| ZlibInflate.BuildTables | ak_fbx.h:2207-2208 | the literal table is built from the first hlit lengths and the distance table from the rest; the literal build succeeds exactly when its lengths are not over-subscribed, the distance build exactly when that one did and its own lengths are not over-subscribed |
| ZlibInflate.FixedTables | ak_fbx.h:2298-2301 | both builds from the fixed lengths succeed and give the canonical tables of those lengths |
| ZlibInflate.FixedKraft | ak_fbx.h:2298-2301 | the fixed literal/length and distance lengths fill the 15-bit code space exactly, so neither is over-subscribed |
| ZlibInflate.DeflateOpsAppend | ak_fbx.h:2290-2307 | appending a block's operations keeps the log a valid DEFLATE log |
| ZlibInflate.OpsAtSnoc | ak_fbx.h:2126-2158 | a step read where the steps before it end extends the steps read one after another |
| ZlibInflate.RunsAtSnoc | ak_fbx.h:2182-2205 | a code length run read where the runs before it end extends the runs read |
| ZlibInflate.DynamicCodesFrom | ak_fbx.h:2170-2208 | the counts, the code length code and the runs read from the block start give the literal/length lengths as the first HLIT+257 lengths and the distance lengths as the rest |
| ZlibInflate.BlockAtFrom | ak_fbx.h:2291-2306 | BFINAL and BTYPE at a bit position, then a body of that type three bits on, read a block |
| ZlibInflate.BlocksSnoc | ak_fbx.h:2290-2307 | a block read where the blocks before it, none of them final, end extends the blocks read, and its steps follow theirs in the log |
| ZlibInflate.DecodeBuffer | ak_fbx.h:2321-2330 | -1 on failure; otherwise the input is a zlib stream (`ZlibAt`): a valid header, then blocks read one after another from bit 16 up to the first final one, whose steps in order are the log, and the first r output bytes are the log's inflation |
| ZlibInflate.ZBuf.Create | ak_fbx.h:2311-2319 | a new decoder starts at the first byte with empty buffers and log |
| ZlibInflate.ZBuf.Get8 | ak_fbx.h:2044-2047 | the next input byte is yielded, and 0 at the end |
| ZlibInflate.ZBuf.FillBits | ak_fbx.h:2049-2059 | bytes are added until more than 24 bits are buffered, and the stream position is kept |
| ZlibInflate.ZBuf.FillByte | ak_fbx.h:2056-2057 | one byte is added above the buffered bits |
| ZlibInflate.ZBuf.Receive | ak_fbx.h:2061-2069 | the next n stream bits are yielded (least significant first), and the position advances by n |
| ZlibInflate.ZBuf.Consume | ak_fbx.h:2085-2086 | n buffered bits are dropped |
| ZlibInflate.ZBuf.Decode | ak_fbx.h:2090-2107 | -1 on failure; otherwise, for a well-built table, the symbol has a code, its code is the next bits of the stream (`SymbolAt`), and the position moves past them |
| ZlibInflate.ZBuf.DecodeSlowPath | ak_fbx.h:2071-2088 | the same for the canonical-code search |
| ZlibInflate.ZBuf.AlignToByte | ak_fbx.h:2216-2217 | the position moves to the next byte boundary |
| ZlibInflate.ZBuf.ReadStoredHeader | ak_fbx.h:2218-2228 | the four header bytes at the byte boundary are read, first from the bit buffer and then from the input |
| ZlibInflate.ZBuf.DrainBuffered | ak_fbx.h:2219-2224 | the buffered whole bytes become the first header bytes, in order |
| ZlibInflate.ZBuf.DrainNext | ak_fbx.h:2221-2223 | one buffered byte is added to the header |
| ZlibInflate.ZBuf.ReadHeaderBytes | ak_fbx.h:2227-2228 | the header is completed from the input |
| ZlibInflate.ZBuf.DrainByte | ak_fbx.h:2221-2223 | the low buffered byte is the input byte at the position |
| ZlibInflate.ZBuf.ParseUncompressedBlock | ak_fbx.h:2212-2238 | success exactly when NLEN complements LEN, the bytes are in the input and they fit the output; then the log gains the stored bytes; on failure the output is kept |
| ZlibInflate.ZBuf.ReadStoredLengths | ak_fbx.h:2214-2230 | LEN and NLEN are read from the byte boundary, and the input cursor stands at the block's data |
| ZlibInflate.ZBuf.CommitStored | ak_fbx.h:2234-2236 | the bytes are appended to the output and skipped in the input |
| ZlibInflate.ZBuf.CommitAccepted | ak_fbx.h:2234-2236 | an accepted stored block leaves the log holding exactly that block's LEN bytes appended |
| ZlibInflate.ZBuf.AppendStored | ak_fbx.h:2234-2236 | the output and the log gain the bytes |
| ZlibInflate.ZBuf.SkipBytes | ak_fbx.h:2235 | the input cursor advances by the length |
| ZlibInflate.ZBuf.ParseZlibHeader | ak_fbx.h:2240-2252 | the header is accepted exactly when input follows it, CMF*256+FLG is a multiple of 31, there is no preset dictionary and the method is 8 |
| ZlibInflate.ZBuf.ComputeHuffmanCodes | ak_fbx.h:2162-2210 | success means both tables are built for the code lengths read from the block's start (`DynamicCodesAt`): HLIT+257 literal/length and HDIST+1 distance lengths, the expansion of the runs read one after another with the code length code of the HCLEN+4 3-bit fields, and none of the three codes over-subscribed |
| ZlibInflate.ZBuf.ReadDynamicLengths | ak_fbx.h:2170-2206 | success means the lengths, split after `hlit`, are those the dynamic header encodes from the start bit (`DynamicLengthsAt`), each below 16, and the code length code is not over-subscribed |
| ZlibInflate.ZBuf.ReadCounts | ak_fbx.h:2170-2173 | HLIT, HDIST and HCLEN are read as 5, 5 and 4 bits and offset by 257, 1 and 4 |
| ZlibInflate.ZBuf.SetTables | ak_fbx.h:2207-2208 | the tables are stored; the distance table is stored only after the literal table succeeded |
| ZlibInflate.ZBuf.ReadAllLengths | ak_fbx.h:2175-2206 | an over-subscribed code length code fails; success means `ntot` lengths below 16, the expansion of runs read one after another, from just after the 3-bit fields, with the code length code those fields give |
| ZlibInflate.ZBuf.ReadCodeLengthSizes | ak_fbx.h:2175-2179 | the code-length lengths are the 3-bit fields in the order of the dezigzag table |
| ZlibInflate.ZBuf.ReadCodeLengthSize | ak_fbx.h:2177-2178 | one more 3-bit field is stored at its dezigzag place |
| ZlibInflate.ZBuf.ReadCodeLengths | ak_fbx.h:2182-2206 | success means exactly `ntot` lengths, the expansion of well-formed runs; for a well-built code each run is read where the one before ended: its symbol's code is the next bits, then its repeat bits |
| ZlibInflate.ZBuf.ReadRun | ak_fbx.h:2184-2204 | the repeat count is the symbol's base plus its 0, 2, 3 or 7 extra bits; the run is refused exactly when it is 16 with no previous length or passes `ntot` |
| ZlibInflate.ZBuf.ParseHuffmanBlock | ak_fbx.h:2123-2160 | success means the block body is read from the start bit (`HuffmanBodyAt`): steps one after another, each the literal or match its symbols and extra bits encode, then the code of symbol 256; the log gains those steps and the output their bytes; failure leaves log and output unchanged |
| ZlibInflate.ZBuf.EndBlock | ak_fbx.h:2135-2138 | at the end-of-block symbol the block's operations join the log and the output position is kept where the loop reached |
| ZlibInflate.ZBuf.BlockStep | ak_fbx.h:2126-2158 | the symbol decoded has its code at the start bit; symbol 256 ends the block just after its code; a literal, or a length symbol with a distance symbol below 30, is the step its bits encode (`OpAt`); a literal or a fitting match extends the output exactly as its step says; end of block and errors leave the output untouched |
| ZlibInflate.ZBuf.MatchStep | ak_fbx.h:2139-2157 | a distance symbol outside 0..29 fails; otherwise the match is the one the length's extra bits and the distance code encode (`MatchAt`), and it extends the output exactly when its distance is within the output and its length fits the buffer |
| ZlibInflate.ZBuf.WriteMatch | ak_fbx.h:2147-2157 | the match is copied exactly when its distance is within the output and its length fits the buffer; then the output is extended by that step, and otherwise it is untouched |
| ZlibInflate.ZBuf.ReadMatch | ak_fbx.h:2140-2146 | an accepted length is 3..258 and an accepted distance 1..32768; an accepted match is the one the stream encodes from the start bit (`MatchAt`) |
| ZlibInflate.ZBuf.MatchLength | ak_fbx.h:2141-2142 | the length is its base plus its extra bits |
| ZlibInflate.ZBuf.MatchDistance | ak_fbx.h:2143-2146 | a symbol of -1 or at or above 30 is refused; otherwise the symbol's code is the next bits and the distance is its base plus the extra bits that follow (`DistanceAt`), within 1..32768 |
| ZlibInflate.ZBuf.ParseZlib | ak_fbx.h:2283-2309 | success means the stream is a zlib stream (`ZlibAt`): a valid header, then blocks read one after another from bit 16, the last the first final one, whose steps are the log; the output is the log's inflation |
| ZlibInflate.ZBuf.NextBlock | ak_fbx.h:2290-2307 | the final flag is the first header bit; success means the header was inside the input and the block read from it, by its BTYPE bits, is the one whose body encodes the steps added to the log (`BlockAt`) |
| ZlibInflate.ZBuf.ReadBlockHeader | ak_fbx.h:2291-2292 | BFINAL is one bit and BTYPE the next two |
| ZlibInflate.ZBuf.ParseBlock | ak_fbx.h:2293-2306 | type 0 succeeds exactly for an accepted stored block that fits; type 3 fails; success means the body is the one its type reads (`BlockBodyAt`): the stored bytes, a Huffman body under the fixed code lengths, or the dynamic code lengths then a Huffman body under them |
| ZlibInflate.ZBuf.ParseStoredBlock | ak_fbx.h:2293-2294 | success exactly for an accepted stored block that fits; then the log gains its bytes and the body is that stored block |
| ZlibInflate.ZBuf.ParseFixedBlock | ak_fbx.h:2298-2305 | success means the fixed tables were built and the block body is a Huffman body under the fixed code lengths, whose steps the log gains |
| ZlibInflate.ZBuf.SetFixedTables | ak_fbx.h:2300-2301 | it always succeeds; both tables are those of the fixed code lengths, and the position and log are kept |
| ZlibInflate.ZBuf.ParseDynamicBlock | ak_fbx.h:2302-2305 | success means the dynamic code lengths were read from the start bit and the block body is a Huffman body under them, whose steps the log gains |
| ZlibInflate.ZBuf.ResetBits | ak_fbx.h:2288-2289 | the bit buffer is emptied at the current byte |

## Left out

- Atomic instructions, memory orders, retries of lost compare-and-swap races, and thread interleavings: every operation of ak_atomic.h is modelled as one atomic step by a single thread.
- OS primitives behind the semaphore and event: the kernel semaphore waits and posts, thread creation, the job scheduler's threads and work queues, and sleeping. `released` and `mustWait` stand for the posts and blocks.
- Memory allocation: the malloc and free callbacks, the arena's block allocation, and `memset`/`memcpy` are modelled on values. Allocation never fails in the model, so the null returns of a failed allocation are left out. Pointers are indices, and a null pointer is `None`, 0 or `INVALID`.
- `JobStorage.Storage.Free`: as in the source, it has no stale-handle check. Unlike `Free_Slot` of the slot map, it frees whatever the ID's index names. Callers must pass a live job, and that is the precondition.
- The QSBR action list's growth: the dynamic arrays and the copying of user data are modelled as `seq`s.
- `AK_FBX__Hash_U64` is modelled bit for bit as `HashBits`. The map's contracts hold for any hash, which is a parameter of the map.
- Floating-point values are kept as their bit patterns, and geometry maths is not modelled.
- File I/O, the public loading API and debug output are left out.
- An `ASSERT` on what the caller must pass becomes a `requires`: `SyncStatus.UnlockReader` (ak_atomic.h:2095), `SyncStatus.LockWriter` (ak_atomic.h:2105), `SyncStatus.UnlockWriter` (ak_atomic.h:2117), `Qsbr.Qsbr.CreateContext` (ak_atomic.h:2610), `Qsbr.Qsbr.DeleteContext` (ak_atomic.h:2635), `Qsbr.Qsbr.Update` (ak_atomic.h:2659-2661), `JobStorage.Storage.Free` (ak_atomic.h:2878), `SlotMap.SlotMap64.FreeSlot` (`Slot64Index(slot) < Capacity()`, ak_atomic.h:2372) and `FbxIdMap.IdPtrMap.Add` (ak_fbx.h:1267 and 1273).
- `SlotMap.SlotMap64.FreeSlot`: also requires that a handle matching its slot's generation names a slot not on the free list. The source cannot tell an issued handle from a forged one whose generation matches a free slot; freeing that would push the index on the free list a second time.
- `StackIndex.StackIndex32.PushSync` and `StackIndex.StackIndex32.Push`: require an index not already on the stack. The source pushes any index; a second push of one already there links it to itself or to a later entry (ak_atomic.h:2182 and 2190), a cycle that the model's list of distinct contents does not represent.
- An `ASSERT` followed by a recovery path is modelled by that path: a full `Enqueue` returns (ak_atomic.h:2271), `FreeSlot` of a stale slot changes nothing (ak_atomic.h:2378), `Alloc` with no free job returns none (ak_atomic.h:2863), and a file that is not binary yields the bare root (ak_fbx.h:1113-1116, `FbxNode.Parse`).
- An `ASSERT` on state that the model's invariants (`Valid()`) already guarantee holds there by proof (ak_atomic.h:2364, 2374, 2613-2614, 2637, 2668 and 2868), as does the free-slot assert after `FindFreeSlot` (ak_fbx.h:1274). Alignment asserts are left out.
- The inflater's asserts that the output has room are modelled as errors (finding 3).
- `Qsbr.Qsbr.DeleteContext`: requires a context in use. The source also deletes a context that is not in use, and would then link it into the free chain a second time; the model's chain of distinct contexts does not represent that.
- `Peek` of an empty stream returns null in the source, and `Str_Cmp_Raw` of null is not defined. The model reads that file as not binary.
- A `Terminate` child of a nested list is modelled as an empty node, as the source then holds an unset node.
- Stream positions are unbounded naturals. The only 64-bit wrap-around the model keeps is finding 4.
- The arena size `PropertyCount*sizeof(property)` is not modelled, so its overflow in the push is not modelled either.
- The `(int)` casts of lengths in `Decompress_ZLib` are not modelled; lengths are naturals.
- The zlib fast table (`z->fast`, 9-bit lookup) is not built. Every symbol is decoded by the canonical slow path. The fast table gives the same symbols by construction in the source.
- `DecodeSlowPath` searches from length 1 rather than from 10, and also refuses a slot index below 0. Below 10, the fast table would have answered.
- `z_expandable` is always 0 for FBX, so output growth is not modelled.
- Bytes read beyond the input read as 0, as `zget8` gives at its end. The `fill_bits` guard against a corrupt buffer is unreachable in the model.
- `ZlibInflate.ZBuf.Receive` needs n <= 25. The source never asks for more than 16 bits.
- The NLEN check `nlen != (len ^ 0xffff)` is modelled by `Complements`, which `XorAllOnes` justifies.
- `SpmcQueue.SpmcQueueIndex32.Enqueue` and `SpmcQueue.SpmcQueueIndex32.Dequeue` read the signed `Bottom+1`, `Top+1` and `Bottom-Top`, in two's complement where they overflow `int32_t`; C leaves that overflow undefined. Read so, a dequeue finds nothing once `Bottom` passes 2^31-1 (`SpmcQueue.DequeueStallsAsWritten`).
- `SpmcQueue.SpmcQueueIndex32.InitRaw` requires a capacity of at most 2^31-1, because the source compares it as an `int32_t`.
- The relation `SymbolAt` says a symbol's canonical code is the next bits of the input. That a canonical code is prefix-free, so that no other symbol could be read there, is not proved.
- `ZlibInflate.ZBuf.ParseHuffmanBlock`, `ZlibInflate.ZBuf.BlockStep`, `ZlibInflate.ZBuf.MatchStep` and `ZlibInflate.ZBuf.ReadMatch` require `TablesFor()`, that the tables were built from the lengths the model records. The source calls them only after a successful build (ak_fbx.h:2300-2305).
- `FbxIdMap.IdPtrMap.FindSlot`, `FbxIdMap.IdPtrMap.Add` and `FbxIdMap.IdPtrMap.Get` require `Valid()`, which a map created for 0 items or for more than 2^30 items does not satisfy: its slot count wraps to 0 or to no more than the items (`FbxIdMap.SlotCapacityFor`). On such a map the source masks with `SlotCapacity-1` and reads outside the slots, or probes a full table forever; the model does not follow it there.
- `FbxStream.Stream.Skip` and `FbxStream.Stream.Consume` drop the debug `ASSERT(At < Length)` (ak_fbx.h:492 and 502), and move the cursor whatever its position. `FbxStream.Window` reads the bytes of the whole buffer, not of the stream's window, and bytes past the buffer as 0. The source reads past its buffer there, so the model does not promise what the source would read.
- `FbxArena.Arena.PushAlignment`: a new block comes from `malloc` (ak_fbx.h:205, 407-412), which leaves its `Used` and `Next` fields unset. The source then aligns and advances that unset `Used` (ak_fbx.h:444-446), and links the block as the last one without clearing its `Next` (ak_fbx.h:269, 440). The model appends the block at the end of its block list with `Used` 0, which the source relies on but never writes.
- `FbxPolygon.CopyPolygons`: the polygon entries come from the arena, which does not clear them (ak_fbx.h:1608), and the last entry's `Next` is never set (ak_fbx.h:269, 1615). The copy loop (ak_fbx.h:1625) therefore stops only if that memory happens to hold null. The model copies exactly the collected polygons, as if the last `Next` were null.
- `FbxNode.ReadNode`, `FbxNode.ReadRecord`, `FbxNode.ReadTopLevel` and `FbxNode.Parse`: acceptance is stated for records laid out as plain nodes (`PlainNode`, `PlainRecords`). Records holding zlib-compressed arrays are not covered, because acceptance of the inflater is not proved. It is not proved either that every `NodeAt` layout without compressed properties is a `PlainNode`.
- `ZlibInflate.DecodeBuffer`: acceptance is not proved, that is, that a valid zlib stream (`ZlibAt`) is decoded. There are two reasons. First, that needs a proof that a canonical code is prefix-free, so that the decoder reads the very symbols the stream encodes. Second, the end-of-input test in `zhuffman_decode` (ak_fbx.h:2094) fails a symbol whenever fewer than 16 bits are buffered and the input is used up, even when the symbol's code is shorter. So the source itself refuses a valid stream whose last codes are not followed by enough bytes, and acceptance would have to be stated about those trailing bytes.
- `FbxProperty.DecodeArray`: as in the source, a zlib array that inflates to fewer bytes than count times stride is accepted. The model states only the inflated prefix of the payload; the bytes after it are whatever the arena held.

## Findings

| source | as written | input that shows it | evidently intended | confidence | as-written member | corrected member |
|---|---|---|---|---|---|---|
| ak_fbx.h:395-405 | the fit test is `Used + Size <= Capacity`, before the push aligns `Used` up to 16 | a 1 MiB block with 1048566 bytes used, then a push of 9 bytes: the test passes, and the aligned allocation ends at 1048585 | the aligned offset plus the size must fit the block | not executed | FbxArena.FitsAsWrittenOverflows | FbxArena.Arena.PushAlignment |
| ak_fbx.h:895-903 | `ArrayLength*Stride` is computed in 32 bits | a plain `i` array of 2^30 elements storing 0 bytes: the product wraps to 0, so the size check passes | the expected size counts every element | not executed | FbxProperty.UncompressedLengthWraps | FbxProperty.DecodeArray |
| ak_fbx.h:2233-2234 | a stored block's fit in the output is only asserted before `memcpy` | `78 01 01 01 00 FE FF 41` decoded into 0 output bytes writes one byte past the output | refuse a block that does not fit, as the Huffman path refuses a bad distance | not executed | ZlibInflate.StoredOverflowsAsWritten | ZlibInflate.ZBuf.ParseUncompressedBlock |
| ak_fbx.h:998 | `Stream->At + PropertyLength` is a 64-bit sum that can wrap | a 64-bit file with At = 30, PropertyLength = 2^64-10 and a window length of 100: the sum wraps to 20, and the bound check passes | the property list must lie inside the window | not executed | FbxNode.PropertyListBoundWraps | FbxNode.ReadHeaderAndProperties |
| ak_atomic.h:2519-2523 | `NextFree` is a signed 14-bit field, while contexts go up to 16383 (ak_atomic.h:2610) | with 8194 contexts, delete context 8192 and then context 0: `FreeIndex` (an `int16_t`) holds 8192 at first, but context 0's `NextFree` stores it as -8192; once a create reuses context 0, `FreeIndex` is -8192, the next create's test `Result >= 0` (ak_atomic.h:2612) fails and it appends, and context 8192 is never reused | the free link holds any context index | not executed | Qsbr.NextFreeField14Truncates | Qsbr.Qsbr.DeleteContext |
