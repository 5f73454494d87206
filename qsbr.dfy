/**
 * The bookkeeping of `ak_qsbr` (quiescent-state-based reclamation).  All
 * of it runs under the QSBR mutex in the source, so it is plain sequential
 * state here.  Each context has a status; a context that reports a
 * quiescent state becomes idle, and once every context in use has been idle
 * since the last rotation, the deferred actions move one stage on: the
 * pending actions are handed out and the deferred ones become pending.
 */
module Qsbr {
  import opened Bits

  /** `ak_qsbr__status`.  The model's `nextFree` is a full integer (see `NextFreeField14`). */
  datatype Status = Status(inUse: bool, wasIdle: bool, nextFree: int)

  /** `ak_qsbr__action`: the callback and a copy of its user data. */
  datatype Action = Action(callback: nat, userData: seq<u8>)

  /** `1 << 14`, the bound `AK_QSBR_Create_Context` asserts on `NumContexts`. */
  const MAX_CONTEXTS: int := 0x4000

  /** `AK_QSBR__Status_Init`: in use, not idle, `NextFree` 0. */
  const INIT_STATUS: Status := Status(true, false, 0)

  predicate InUse(s: Status) { s.inUse }

  /** A context in use that has not reported a quiescent state since the last rotation. */
  predicate Busy(s: Status) { s.inUse && !s.wasIdle }

  /** The number of entries of `s` for which `f` holds. */
  function CountIf(s: seq<Status>, f: Status -> bool): (n: nat)
    ensures n <= |s|
  {
    if s == [] then 0 else (if f(s[|s| - 1]) then 1 else 0) + CountIf(s[..|s| - 1], f)
  }

  lemma CountIfAppend(s: seq<Status>, x: Status, f: Status -> bool)
    ensures CountIf(s + [x], f) == CountIf(s, f) + if f(x) then 1 else 0
  {
    assert (s + [x])[..|s|] == s;
  }

  lemma {:induction false} CountIfUpdate(s: seq<Status>, i: int, x: Status, f: Status -> bool)
    requires 0 <= i < |s|
    ensures CountIf(s[i := x], f) == CountIf(s, f) - (if f(s[i]) then 1 else 0) + (if f(x) then 1 else 0)
  {
    if i < |s| - 1 {
      assert s[i := x][..|s| - 1] == s[..|s| - 1][i := x];
      CountIfUpdate(s[..|s| - 1], i, x, f);
    } else {
      assert s[i := x][..|s| - 1] == s[..|s| - 1];
    }
  }

  /** The count is the length exactly when every entry qualifies. */
  lemma {:induction false} CountIfAll(s: seq<Status>, f: Status -> bool)
    ensures CountIf(s, f) == |s| <==> forall i :: 0 <= i < |s| ==> f(s[i])
  {
    if s != [] {
      CountIfAll(s[..|s| - 1], f);
      assert forall i :: 0 <= i < |s| - 1 ==> s[..|s| - 1][i] == s[i];
    }
  }

  /** The count is zero exactly when no entry qualifies. */
  lemma {:induction false} CountIfNone(s: seq<Status>, f: Status -> bool)
    ensures CountIf(s, f) == 0 <==> forall i :: 0 <= i < |s| ==> !f(s[i])
  {
    if s != [] {
      CountIfNone(s[..|s| - 1], f);
      assert forall i :: 0 <= i < |s| - 1 ==> s[..|s| - 1][i] == s[i];
    }
  }

  /** Sequences that agree entry by entry on the two predicates count alike. */
  lemma {:induction false} CountIfAgree(s: seq<Status>, f: Status -> bool, t: seq<Status>, g: Status -> bool)
    requires |s| == |t|
    requires forall i :: 0 <= i < |s| ==> f(s[i]) == g(t[i])
    ensures CountIf(s, f) == CountIf(t, g)
  {
    if s != [] {
      CountIfAgree(s[..|s| - 1], f, t[..|t| - 1], g);
    }
  }

  /** Entry `k` of the free chain is a free context whose `NextFree` names entry `k + 1`, or -1. */
  ghost predicate ChainAt(status: seq<Status>, chain: seq<int>, k: int)
    requires 0 <= k < |chain|
  {
    && 0 <= chain[k] < |status|
    && !status[chain[k]].inUse
    && status[chain[k]].nextFree == if k + 1 < |chain| then chain[k + 1] else -1
  }

  /** `FreeIndex` and the `NextFree` fields thread `chain`, without repeats. */
  ghost predicate FreeChain(status: seq<Status>, freeIndex: int, chain: seq<int>)
  {
    && freeIndex == (if chain == [] then -1 else chain[0])
    && (forall k :: 0 <= k < |chain| ==> ChainAt(status, chain, k))
    && (forall j, k :: 0 <= j < k < |chain| ==> chain[j] != chain[k])
  }

  /** `FreeIndex` is a context exactly when the chain is not empty, and -1 otherwise. */
  lemma ChainHead(status: seq<Status>, freeIndex: int, chain: seq<int>)
    requires FreeChain(status, freeIndex, chain)
    ensures chain == [] <==> freeIndex == -1
    ensures chain != [] <==> 0 <= freeIndex < |status|
  {
    if chain != [] {
      assert ChainAt(status, chain, 0);
    }
  }

  /** Exactly the contexts on `chain` are free. */
  ghost predicate FreeSet(status: seq<Status>, chain: seq<int>)
  {
    forall i :: 0 <= i < |status| ==> (!status[i].inUse <==> i in chain)
  }

  /** Reusing the head of the chain leaves the rest threaded from its `NextFree`. */
  lemma ChainPop(status: seq<Status>, chain: seq<int>, x: Status)
    requires chain != [] && FreeChain(status, chain[0], chain) && FreeSet(status, chain)
    requires x.inUse
    ensures 0 <= chain[0] < |status|
    ensures FreeChain(status[chain[0] := x], status[chain[0]].nextFree, chain[1..])
    ensures FreeSet(status[chain[0] := x], chain[1..])
  {
    assert ChainAt(status, chain, 0);
    var rest := chain[1..];
    var after := status[chain[0] := x];
    forall k | 0 <= k < |rest|
      ensures ChainAt(after, rest, k)
    {
      assert ChainAt(status, chain, k + 1);
      assert rest[k] == chain[k + 1] != chain[0];
      if k + 1 < |rest| {
        assert rest[k + 1] == chain[k + 2];
      }
    }
    forall i | 0 <= i < |after|
      ensures !after[i].inUse <==> i in rest
    {
      assert forall k :: 0 <= k < |rest| ==> rest[k] == chain[k + 1];
      if i != chain[0] && i in chain {
        var k :| 0 <= k < |chain| && chain[k] == i;
        assert rest[k - 1] == i;
      }
    }
  }

  /** Freeing context `c` makes it the head of the chain, pointing at the old head. */
  lemma ChainPush(status: seq<Status>, freeIndex: int, chain: seq<int>, c: int, x: Status)
    requires FreeChain(status, freeIndex, chain) && FreeSet(status, chain)
    requires 0 <= c < |status| && status[c].inUse
    requires !x.inUse && x.nextFree == freeIndex
    ensures FreeChain(status[c := x], c, [c] + chain)
    ensures FreeSet(status[c := x], [c] + chain)
  {
    var now := [c] + chain;
    var after := status[c := x];
    forall k | 0 <= k < |now|
      ensures ChainAt(after, now, k)
    {
      if k == 0 {
        assert chain != [] ==> now[1] == chain[0];
      } else {
        assert ChainAt(status, chain, k - 1);
        assert now[k] == chain[k - 1] != c;
        if k + 1 < |now| {
          assert now[k + 1] == chain[k];
        }
      }
    }
  }

  /** A change that keeps `InUse` and `NextFree` of every existing context keeps the chain. */
  lemma ChainFrame(status: seq<Status>, status': seq<Status>, freeIndex: int, chain: seq<int>)
    requires FreeChain(status, freeIndex, chain) && FreeSet(status, chain)
    requires |status| == |status'|
    requires forall i :: 0 <= i < |status| ==>
               status'[i].inUse == status[i].inUse && status'[i].nextFree == status[i].nextFree
    ensures FreeChain(status', freeIndex, chain) && FreeSet(status', chain)
  {
    forall k | 0 <= k < |chain|
      ensures ChainAt(status', chain, k)
    {
      assert ChainAt(status, chain, k);
    }
  }

  /** Appending a context in use keeps the chain and the free set. */
  lemma ChainAppend(status: seq<Status>, freeIndex: int, chain: seq<int>, x: Status)
    requires FreeChain(status, freeIndex, chain) && FreeSet(status, chain)
    requires x.inUse
    ensures FreeChain(status + [x], freeIndex, chain) && FreeSet(status + [x], chain)
  {
    var after := status + [x];
    forall k | 0 <= k < |chain|
      ensures ChainAt(after, chain, k)
    {
      assert ChainAt(status, chain, k);
    }
    forall k | 0 <= k < |chain|
      ensures chain[k] != |status|
    {
      assert ChainAt(status, chain, k);
    }
  }

  /** The statuses with every `WasIdle` cleared. */
  function ClearIdle(status: seq<Status>): (r: seq<Status>)
    ensures |r| == |status|
    ensures forall i :: 0 <= i < |r| ==> r[i] == status[i].(wasIdle := false)
  {
    seq(|status|, i requires 0 <= i < |status| => status[i].(wasIdle := false))
  }

  /** With every `WasIdle` cleared, the busy contexts are the contexts in use. */
  lemma ClearIdleCounts(status: seq<Status>)
    ensures CountIf(ClearIdle(status), Busy) == CountIf(status, InUse)
    ensures CountIf(ClearIdle(status), InUse) == CountIf(status, InUse)
  {
    CountIfAgree(ClearIdle(status), Busy, status, InUse);
    CountIfAgree(ClearIdle(status), InUse, status, InUse);
  }

  /**
   * The model of the 14-bit signed bit-field `NextFree` as written: the
   * stored value is the low 14 bits read in two's complement, so only
   * -8192..8191 survive.
   */
  function NextFreeField14(v: int): (r: int)
    ensures -0x2000 <= r < 0x2000
    ensures (r - v) % 0x4000 == 0
    ensures -0x2000 <= v < 0x2000 ==> r == v
  {
    var low := v % 0x4000;
    if low < 0x2000 then low else low - 0x4000
  }

  /**
   * `AK_QSBR_Create_Context` lets `NumContexts` reach 16383, so context
   * 8192 can exist and be freed; storing it in a 14-bit `NextFree` yields
   * -8192, which ends the free chain early.
   */
  lemma NextFreeField14Truncates()
    ensures 8192 + 1 < MAX_CONTEXTS
    ensures NextFreeField14(8192) == -8192 && NextFreeField14(8192) < 0
  {
  }

  class Qsbr {
    var status: seq<Status>
    var deferredActions: seq<Action>
    var pendingActions: seq<Action>
    var freeIndex: int
    var numContexts: int
    var numRemaining: int
    /** The free contexts, in the order `AK_QSBR_Create_Context` will reuse them. */
    ghost var Chain: seq<int>

    ghost predicate Valid()
      reads this
    {
      && |status| < MAX_CONTEXTS
      && FreeChain(status, freeIndex, Chain)
      && FreeSet(status, Chain)
      && numContexts == CountIf(status, InUse)
      && numRemaining == CountIf(status, Busy)
    }

    /** `AK_QSBR_Create`: no contexts, no actions, an empty free chain. */
    constructor Create()
      ensures Valid()
      ensures status == [] && deferredActions == [] && pendingActions == [] && Chain == []
      ensures freeIndex == -1 && numContexts == 0 && numRemaining == 0
    {
      status := [];
      deferredActions := [];
      pendingActions := [];
      freeIndex := -1;
      numContexts := 0;
      numRemaining := 0;
      Chain := [];
    }

    /**
     * `AK_QSBR__On_All_Quiescent_States_Passed`: hands out the pending
     * actions, makes the deferred ones pending, empties the deferred list,
     * restarts the countdown at `NumContexts` and clears every `WasIdle`.
     */
    method OnAllQuiescentStatesPassed() returns (actionList: seq<Action>)
      requires Valid()
      modifies this
      ensures Valid()
      ensures actionList == old(pendingActions)
      ensures pendingActions == old(deferredActions) && deferredActions == []
      ensures status == ClearIdle(old(status))
      ensures numContexts == old(numContexts) && numRemaining == numContexts
      ensures freeIndex == old(freeIndex) && Chain == old(Chain)
    {
      ghost var before := status;
      actionList := pendingActions;
      pendingActions := deferredActions;
      deferredActions := [];
      numRemaining := numContexts;
      var i := 0;
      while i < |status|
        invariant 0 <= i <= |status| == |before|
        invariant forall j :: 0 <= j < i ==> status[j] == before[j].(wasIdle := false)
        invariant forall j :: i <= j < |status| ==> status[j] == before[j]
        invariant freeIndex == old(freeIndex) && Chain == old(Chain) && numContexts == old(numContexts)
        invariant numRemaining == numContexts && actionList == old(pendingActions)
        invariant pendingActions == old(deferredActions) && deferredActions == []
      {
        status := status[i := status[i].(wasIdle := false)];
        i := i + 1;
      }
      assert status == ClearIdle(before);
      ChainFrame(before, status, freeIndex, Chain);
      ClearIdleCounts(before);
    }

    /**
     * `AK_QSBR_Create_Context`: counts one more context (busy from the
     * start) and hands out the head of the free chain, reinitialised, or
     * else a new status appended at the end.
     */
    method CreateContext() returns (context: int)
      requires Valid()
      requires numContexts + 1 < MAX_CONTEXTS
      modifies this
      ensures Valid()
      ensures numContexts == old(numContexts) + 1 && numRemaining == old(numRemaining) + 1
      ensures old(Chain) != [] ==>
                && context == old(Chain)[0]
                && 0 <= context < |old(status)|
                && Chain == old(Chain)[1..]
                && status == old(status)[context := INIT_STATUS]
      ensures old(Chain) == [] ==>
                && context == |old(status)|
                && Chain == []
                && status == old(status) + [INIT_STATUS]
      ensures 0 <= context < |status| && status[context] == INIT_STATUS
      ensures deferredActions == old(deferredActions) && pendingActions == old(pendingActions)
    {
      ChainHead(status, freeIndex, Chain);
      if freeIndex >= 0 {
        context := ReuseFree();
      } else {
        context := AppendContext();
      }
    }

    /** `AK_QSBR_Create_Context` with a free context: the head of the chain is reinitialised. */
    method ReuseFree() returns (context: int)
      requires Valid() && Chain != []
      modifies this`status, this`freeIndex, this`Chain, this`numContexts, this`numRemaining
      ensures Valid()
      ensures numContexts == old(numContexts) + 1 && numRemaining == old(numRemaining) + 1
      ensures context == old(Chain)[0] && 0 <= context < |old(status)|
      ensures Chain == old(Chain)[1..] && status == old(status)[context := INIT_STATUS]
    {
      numContexts := numContexts + 1;
      numRemaining := numRemaining + 1;
      context := freeIndex;
      ChainHead(status, freeIndex, Chain);
      ChainPop(status, Chain, INIT_STATUS);
      freeIndex := status[context].nextFree;
      CountIfUpdate(status, context, INIT_STATUS, InUse);
      CountIfUpdate(status, context, INIT_STATUS, Busy);
      status := status[context := INIT_STATUS];
      Chain := Chain[1..];
    }

    /** `AK_QSBR_Create_Context` with no free context: a new status is appended. */
    method AppendContext() returns (context: int)
      requires Valid() && Chain == [] && numContexts + 1 < MAX_CONTEXTS
      modifies this`status, this`numContexts, this`numRemaining
      ensures Valid()
      ensures numContexts == old(numContexts) + 1 && numRemaining == old(numRemaining) + 1
      ensures context == |old(status)| && status == old(status) + [INIT_STATUS]
    {
      numContexts := numContexts + 1;
      numRemaining := numRemaining + 1;
      assert forall i :: 0 <= i < |status| ==> InUse(status[i]);
      CountIfAll(status, InUse);
      context := |status|;
      CountIfAppend(status, INIT_STATUS, InUse);
      CountIfAppend(status, INIT_STATUS, Busy);
      ChainAppend(status, freeIndex, Chain, INIT_STATUS);
      status := status + [INIT_STATUS];
    }

    /**
     * `AK_QSBR_Delete_Context`: a busy context stops being waited for; the
     * context is marked free and becomes the head of the free chain; and if
     * no context is busy any more the actions rotate.  The source does not
     * check `InUse` here, but deleting a free context would put it on the
     * free chain twice, so callers must pass a context in use.
     */
    method DeleteContext(context: int) returns (actionList: seq<Action>)
      requires Valid()
      requires 0 <= context < |status| && status[context].inUse
      modifies this
      ensures Valid()
      ensures numContexts == old(numContexts) - 1
      ensures freeIndex == context && Chain == [context] + old(Chain)
      ensures var deleted := old(status)[context := Status(false, old(status[context].wasIdle), old(freeIndex))];
              var remaining := old(numRemaining) - if Busy(old(status[context])) then 1 else 0;
              if remaining == 0 then
                && status == ClearIdle(deleted)
                && actionList == old(pendingActions)
                && pendingActions == old(deferredActions) && deferredActions == []
                && numRemaining == numContexts
              else
                && status == deleted
                && actionList == []
                && pendingActions == old(pendingActions) && deferredActions == old(deferredActions)
                && numRemaining == remaining
    {
      MarkFree(context);
      if numRemaining == 0 {
        actionList := OnAllQuiescentStatesPassed();
      } else {
        actionList := [];
      }
    }

    /** The bookkeeping of `AK_QSBR_Delete_Context` before the rotation test. */
    method MarkFree(context: int)
      requires Valid()
      requires 0 <= context < |status| && status[context].inUse
      modifies this`status, this`freeIndex, this`Chain, this`numContexts, this`numRemaining
      ensures Valid()
      ensures numContexts == old(numContexts) - 1
      ensures numRemaining == old(numRemaining) - if Busy(old(status[context])) then 1 else 0
      ensures freeIndex == context && Chain == [context] + old(Chain)
      ensures status == old(status)[context := Status(false, old(status[context].wasIdle), old(freeIndex))]
    {
      var s := status[context];
      if s.inUse && !s.wasIdle {
        numRemaining := numRemaining - 1;
      }
      var x := Status(false, s.wasIdle, freeIndex);
      CountIfUpdate(status, context, x, InUse);
      CountIfUpdate(status, context, x, Busy);
      ChainPush(status, freeIndex, Chain, context, x);
      status := status[context := x];
      freeIndex := context;
      Chain := [context] + Chain;
      numContexts := numContexts - 1;
    }

    /**
     * `AK_QSBR_Update`: a context reports a quiescent state.  A context
     * already idle changes nothing; otherwise it becomes idle, one fewer
     * context is waited for, and the actions rotate when none is left.
     */
    method Update(context: int) returns (actionList: seq<Action>)
      requires Valid()
      requires 0 <= context < |status| && status[context].inUse
      modifies this
      ensures Valid()
      ensures numContexts == old(numContexts) && freeIndex == old(freeIndex) && Chain == old(Chain)
      ensures old(status[context].wasIdle) ==>
                && actionList == []
                && status == old(status) && numRemaining == old(numRemaining)
                && pendingActions == old(pendingActions) && deferredActions == old(deferredActions)
      ensures !old(status[context].wasIdle) ==>
                var idle := old(status)[context := old(status[context]).(wasIdle := true)];
                if old(numRemaining) == 1 then
                  && status == ClearIdle(idle)
                  && actionList == old(pendingActions)
                  && pendingActions == old(deferredActions) && deferredActions == []
                  && numRemaining == numContexts
                else
                  && status == idle
                  && actionList == []
                  && pendingActions == old(pendingActions) && deferredActions == old(deferredActions)
                  && numRemaining == old(numRemaining) - 1
    {
      var s := status[context];
      if s.wasIdle {
        return [];
      }
      var x := s.(wasIdle := true);
      CountIfUpdate(status, context, x, InUse);
      CountIfUpdate(status, context, x, Busy);
      ChainFrame(status, status[context := x], freeIndex, Chain);
      status := status[context := x];
      numRemaining := numRemaining - 1;
      if numRemaining == 0 {
        actionList := OnAllQuiescentStatesPassed();
      } else {
        actionList := [];
      }
    }

    /** `AK_QSBR_Enqueue`: the action joins the end of the deferred list. */
    method Enqueue(callback: nat, userData: seq<u8>)
      requires Valid()
      modifies this
      ensures Valid()
      ensures deferredActions == old(deferredActions) + [Action(callback, userData)]
      ensures status == old(status) && pendingActions == old(pendingActions)
      ensures freeIndex == old(freeIndex) && Chain == old(Chain)
      ensures numContexts == old(numContexts) && numRemaining == old(numRemaining)
    {
      deferredActions := deferredActions + [Action(callback, userData)];
    }
  }

  /**
   * The countdown reaches zero exactly when every context in use has
   * reported a quiescent state since the last rotation.
   */
  lemma RemainingZeroIffAllIdle(status: seq<Status>)
    ensures CountIf(status, Busy) == 0 <==> forall i :: 0 <= i < |status| ==> status[i].inUse ==> status[i].wasIdle
  {
    CountIfNone(status, Busy);
  }
}
