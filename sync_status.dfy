/**
 * The counter arithmetic behind the blocking primitives of ak_atomic.h:
 * the reader/writer lock's packed status word, the lightweight semaphore's
 * release count and the auto-reset event's status rule.  The waiting
 * itself (OS semaphores, spinning) is not modelled; each transition reports
 * instead whether the calling thread must wait and how many waiters it
 * releases.  Every read-modify-write is taken to succeed first time.
 */
module SyncStatus {
  import opened Bits
  import opened Wrappers

  /** `AK_RW_LOCK_STATUS__MAX_VALUE`, the largest value of a 10-bit field. */
  const RW_LOCK_STATUS_MAX_VALUE: int := 0x3FF
  const FIELD_LIMIT: int := 0x400
  const WRITERS_UNIT: int := 0x10_0000
  const PAD_UNIT: int := 0x4000_0000

  type Field = x: int | 0 <= x < 0x400

  /** The `Bits` view of `ak_rw_lock__status`: three 10-bit fields from the low bit up. */
  datatype RwStatus = RwStatus(readers: Field, waitToRead: Field, writers: Field)

  /** The status word with its two padding bits clear. */
  function Encode(s: RwStatus): (w: u32)
    ensures w < PAD_UNIT
  {
    s.readers + FIELD_LIMIT * (s.waitToRead + FIELD_LIMIT * s.writers)
  }

  /** The three fields of a status word. */
  function Decode(w: u32): RwStatus
  {
    var above := w / FIELD_LIMIT;
    RwStatus(w % FIELD_LIMIT, above % FIELD_LIMIT, (above / FIELD_LIMIT) % FIELD_LIMIT)
  }

  /** The two padding bits above the fields. */
  function Pad(w: u32): int
  {
    w / PAD_UNIT
  }

  /** A word made of fields `s` and padding `pad`. */
  function Compose(s: RwStatus, pad: int): (w: u32)
    requires 0 <= pad < 4
    ensures Decode(w) == s && Pad(w) == pad
  {
    var w := Encode(s) + PAD_UNIT * pad;
    DecodeCompose(s, pad);
    w
  }

  lemma DecodeCompose(s: RwStatus, pad: int)
    requires 0 <= pad < 4
    ensures 0 <= Encode(s) + PAD_UNIT * pad < U32_LIMIT
    ensures Decode(Encode(s) + PAD_UNIT * pad) == s
    ensures Pad(Encode(s) + PAD_UNIT * pad) == pad
  {
    var w := Encode(s) + PAD_UNIT * pad;
    var upper := s.writers + FIELD_LIMIT * pad;
    var above := s.waitToRead + FIELD_LIMIT * upper;
    assert w == s.readers + FIELD_LIMIT * above;
    DivModUnique(w, above, s.readers, FIELD_LIMIT);
    DivModUnique(above, upper, s.waitToRead, FIELD_LIMIT);
    DivModUnique(upper, pad, s.writers, FIELD_LIMIT);
    DivModUnique(w, pad, s.readers + FIELD_LIMIT * (s.waitToRead + FIELD_LIMIT * s.writers), PAD_UNIT);
  }

  /** Encoding then decoding gives the fields back. */
  lemma DecodeEncode(s: RwStatus)
    ensures Decode(Encode(s)) == s
  {
    DecodeCompose(s, 0);
  }

  /** Every word is its fields and its padding; a word below `2^30` is its fields alone. */
  lemma EncodeDecode(w: u32)
    ensures 0 <= Pad(w) < 4
    ensures w == Compose(Decode(w), Pad(w))
    ensures w < PAD_UNIT ==> w == Encode(Decode(w))
  {
    var above := w / FIELD_LIMIT;
    var upper := above / FIELD_LIMIT;
    var pad := upper / FIELD_LIMIT;
    assert w == w % FIELD_LIMIT + FIELD_LIMIT * above;
    assert above == above % FIELD_LIMIT + FIELD_LIMIT * upper;
    assert upper == upper % FIELD_LIMIT + FIELD_LIMIT * pad;
    var s := Decode(w);
    assert w == Encode(s) + PAD_UNIT * pad;
    DecodeCompose(s, pad);
    if w < PAD_UNIT {
      assert pad == 0;
    }
  }

  /** The readers-wait-only-while-a-writer-is-present invariant of the lock, over words with clear padding. */
  ghost predicate Consistent(w: u32)
  {
    w < PAD_UNIT && (Decode(w).waitToRead > 0 ==> Decode(w).writers > 0)
  }

  datatype LockStep = LockStep(word: u32, mustWait: bool)
  datatype UnlockStep = UnlockStep(word: u32, readersReleased: nat, writerReleased: bool)

  /**
   * `AK_RW_Lock_Reader`: with a writer present the reader joins the
   * waiting readers and waits; otherwise it becomes a reader.  The fields
   * are bit-fields, so an increment wraps within its 10 bits.
   */
  function LockReader(w: u32): (r: LockStep)
    ensures r.mustWait <==> Decode(w).writers > 0
    ensures r.mustWait ==> Decode(r.word) == Decode(w).(waitToRead := (Decode(w).waitToRead + 1) % FIELD_LIMIT)
    ensures !r.mustWait ==> Decode(r.word) == Decode(w).(readers := (Decode(w).readers + 1) % FIELD_LIMIT)
    ensures Pad(r.word) == Pad(w)
  {
    var s := Decode(w);
    EncodeDecode(w);
    if s.writers > 0 then
      LockStep(Compose(s.(waitToRead := (s.waitToRead + 1) % FIELD_LIMIT), Pad(w)), true)
    else
      LockStep(Compose(s.(readers := (s.readers + 1) % FIELD_LIMIT), Pad(w)), false)
  }

  /**
   * `AK_RW_Unlock_Reader`: one fetch-add of -1 on the whole word; the last
   * reader out wakes a writer if one is present.  The source asserts that
   * a reader was present.
   */
  function UnlockReader(w: u32): (r: UnlockStep)
    requires Decode(w).readers > 0
    ensures Decode(r.word) == Decode(w).(readers := Decode(w).readers - 1)
    ensures Pad(r.word) == Pad(w)
    ensures r.readersReleased == 0
    ensures r.writerReleased <==> Decode(w).readers == 1 && Decode(w).writers > 0
  {
    var s := Decode(w);
    EncodeDecode(w);
    DecodeCompose(s.(readers := s.readers - 1), Pad(w));
    UnlockStep(Wrap32(w - 1), 0, s.readers == 1 && s.writers > 0)
  }

  /**
   * `AK_RW_Lock_Writer`: one fetch-add of `1 << 20` on the whole word; the
   * writer waits when readers or writers were present.  The source asserts
   * that the writer count stays within its field.
   */
  function LockWriter(w: u32): (r: LockStep)
    requires Decode(w).writers + 1 <= RW_LOCK_STATUS_MAX_VALUE
    ensures Decode(r.word) == Decode(w).(writers := Decode(w).writers + 1)
    ensures Pad(r.word) == Pad(w)
    ensures r.mustWait <==> Decode(w).readers > 0 || Decode(w).writers > 0
  {
    var s := Decode(w);
    EncodeDecode(w);
    DecodeCompose(s.(writers := s.writers + 1), Pad(w));
    LockStep(Wrap32(w + WRITERS_UNIT), s.readers > 0 || s.writers > 0)
  }

  /**
   * `AK_RW_Unlock_Writer`: the writer count drops by one (wrapping within
   * its field); all waiting readers become readers and are released; with
   * none waiting, a further writer is woken when there is one.  The source
   * asserts that no reader holds the lock.
   */
  function UnlockWriter(w: u32): (r: UnlockStep)
    requires Decode(w).readers == 0
    ensures Decode(r.word).writers == (Decode(w).writers - 1) % FIELD_LIMIT
    ensures Decode(r.word).readers == Decode(w).waitToRead && Decode(r.word).waitToRead == 0
    ensures r.readersReleased == Decode(w).waitToRead
    ensures r.writerReleased <==> Decode(w).waitToRead == 0 && Decode(w).writers > 1
    ensures Pad(r.word) == Pad(w)
  {
    var s := Decode(w);
    EncodeDecode(w);
    var next := s.(writers := (s.writers - 1) % FIELD_LIMIT);
    if s.waitToRead > 0 then
      UnlockStep(Compose(next.(waitToRead := 0, readers := s.waitToRead), Pad(w)), s.waitToRead, false)
    else
      UnlockStep(Compose(next, Pad(w)), 0, s.writers > 1)
  }

  /** `AK_RW_Lock_Create`: the status word starts at 0, which is consistent. */
  lemma CreateConsistent()
    ensures Decode(0) == RwStatus(0, 0, 0) && Consistent(0)
  {
  }

  /** Every transition, run within the source's assertions, keeps the lock consistent. */
  lemma TransitionsKeepConsistent(w: u32)
    requires Consistent(w)
    ensures Consistent(LockReader(w).word)
    ensures Decode(w).readers > 0 ==> Consistent(UnlockReader(w).word)
    ensures Decode(w).writers + 1 <= RW_LOCK_STATUS_MAX_VALUE ==> Consistent(LockWriter(w).word)
    ensures Decode(w).readers == 0 && Decode(w).writers > 0 ==> Consistent(UnlockWriter(w).word)
  {
    EncodeDecode(w);
    EncodeDecode(LockReader(w).word);
    if Decode(w).readers > 0 {
      EncodeDecode(UnlockReader(w).word);
    }
    if Decode(w).writers + 1 <= RW_LOCK_STATUS_MAX_VALUE {
      EncodeDecode(LockWriter(w).word);
    }
    if Decode(w).readers == 0 && Decode(w).writers > 0 {
      EncodeDecode(UnlockWriter(w).word);
    }
  }

  /**
   * A writer that has to wait is released by the last reader or writer
   * ahead of it: from a consistent word where a writer holds the lock and
   * a second one queues, unlocking the first hands over to the second
   * unless readers were waiting, in which case they go first.
   */
  lemma WriterHandOff(w: u32)
    requires Consistent(w) && Decode(w).readers == 0 && 0 < Decode(w).writers < RW_LOCK_STATUS_MAX_VALUE
    ensures LockWriter(w).mustWait
    ensures var queued := LockWriter(w).word;
            Decode(queued).readers == 0 &&
            (UnlockWriter(queued).writerReleased <==> Decode(w).waitToRead == 0) &&
            UnlockWriter(queued).readersReleased == Decode(w).waitToRead &&
            Decode(UnlockWriter(queued).word).writers == Decode(w).writers
  {
  }

  /** The lightweight semaphore's count after a step and the waiters it releases. */
  datatype SemaphoreStep = SemaphoreStep(count: s32, released: nat, mustWait: bool)

  /** Threads blocked on a lightweight semaphore: the negative part of its count. */
  function Waiters(count: int): nat
  {
    if count < 0 then -count else 0
  }

  /**
   * `AK_LW_Semaphore_Add`: the count moves by `addend` (a 32-bit
   * fetch-add) and `min(-old, addend)` waiters are released when that is
   * positive.
   */
  function LwSemaphoreAdd(count: s32, addend: s32): (r: SemaphoreStep)
    ensures r.count == ToSigned32(Wrap32(count + addend))
    ensures r.released <= Waiters(count) && r.released <= (if addend > 0 then addend else 0)
    ensures r.released == Waiters(count) || r.released == addend || r.released == 0
    ensures !r.mustWait
  {
    var waiting := 0 - count as int;
    var toRelease := if waiting < addend then waiting else addend;
    SemaphoreStep(ToSigned32(Wrap32(count + addend)), if toRelease > 0 then toRelease else 0, false)
  }

  /**
   * `AK_LW_Semaphore_Decrement`, either path: the count drops by one and
   * the caller blocks when no unit was available.
   */
  function LwSemaphoreDecrement(count: s32): (r: SemaphoreStep)
    requires count > -0x8000_0000
    ensures r.count == count - 1 && r.released == 0
    ensures r.mustWait <==> count <= 0
  {
    SemaphoreStep(count - 1, 0, count <= 0)
  }

  /**
   * Adding `addend` units releases exactly the waiters it satisfies: never
   * more than were waiting nor more than were added, and the waiters left
   * are the ones the new count shows.
   */
  lemma SemaphoreAddReleasesWaiters(count: s32, addend: s32)
    requires addend >= 0
    requires count + addend < 0x8000_0000
    ensures LwSemaphoreAdd(count, addend).released <= Waiters(count)
    ensures LwSemaphoreAdd(count, addend).released <= addend
    ensures Waiters(LwSemaphoreAdd(count, addend).count) == Waiters(count) - LwSemaphoreAdd(count, addend).released
  {
  }

  /** A decrement that blocks adds one waiter; one that does not leaves none. */
  lemma SemaphoreDecrementWaiters(count: s32)
    requires count > -0x8000_0000
    ensures Waiters(LwSemaphoreDecrement(count).count) == Waiters(count) + if LwSemaphoreDecrement(count).mustWait then 1 else 0
  {
  }

  /**
   * `AK_Auto_Reset_Event_Create`: only 0 (unsignalled) and 1 (signalled)
   * are accepted as the initial status.
   */
  function AutoResetEventCreate(initialStatus: s32): (r: Option<int>)
    ensures r.Some? <==> 0 <= initialStatus <= 1
    ensures r.Some? ==> r.value == initialStatus
  {
    if initialStatus < 0 || initialStatus > 1 then None else Some(initialStatus)
  }

  /** The new status, whether a waiter is woken, and whether the caller blocks. */
  datatype EventStep = EventStep(status: int, wakes: bool, mustWait: bool)

  /**
   * `AK_Auto_Reset_Event_Signal`: the status rises by one but not beyond
   * 1, and one waiter is woken when the old status was negative.  The
   * source asserts that the status is at most 1.
   */
  function AutoResetEventSignal(status: int): (r: EventStep)
    requires status <= 1
    ensures r.status <= 1
    ensures r.status == if status < 1 then status + 1 else 1
    ensures r.wakes <==> status < 0
    ensures !r.mustWait
  {
    EventStep(if status < 1 then status + 1 else 1, status < 0, false)
  }

  /**
   * `AK_Auto_Reset_Event_Wait`: the status drops by one; the caller waits
   * unless the event was signalled.
   */
  function AutoResetEventWait(status: int): (r: EventStep)
    requires status <= 1
    ensures r.status < status <= 1 && r.status == status - 1
    ensures r.mustWait <==> status < 1
    ensures !r.wakes
  {
    EventStep(status - 1, false, status < 1)
  }

  /** An event whose status is at most 1 stays so under any order of signals and waits. */
  lemma {:induction false} EventStatusBounded(status: int, ops: seq<bool>)
    requires status <= 1
    ensures RunEvent(status, ops) <= 1
    decreases |ops|
  {
    if ops != [] {
      var next := if ops[0] then AutoResetEventSignal(status).status else AutoResetEventWait(status).status;
      EventStatusBounded(next, ops[1..]);
    }
  }

  /** The status after `ops`, where `true` is a signal and `false` a wait. */
  function RunEvent(status: int, ops: seq<bool>): int
    requires status <= 1
    decreases |ops|
  {
    if ops == [] then status
    else
      var next := if ops[0] then AutoResetEventSignal(status).status else AutoResetEventWait(status).status;
      RunEvent(next, ops[1..])
  }

  /**
   * Waiters are counted by the negative part of the status: a wait that
   * blocks adds one, a signal that wakes removes one, and a signal
   * undoes a wait; signals on a signalled event collapse into one.
   */
  lemma EventWaiters(status: int)
    requires status <= 1
    ensures Waiters(AutoResetEventWait(status).status) == Waiters(status) + if AutoResetEventWait(status).mustWait then 1 else 0
    ensures Waiters(AutoResetEventSignal(status).status) == Waiters(status) - if AutoResetEventSignal(status).wakes then 1 else 0
    ensures AutoResetEventSignal(AutoResetEventWait(status).status).status == status
    ensures status == 1 ==> AutoResetEventSignal(status).status == 1
  {
  }
}
