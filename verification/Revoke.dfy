/**
  The revocation wrappers (`revoke.c`) over a kernel that may fail. A kernel is a script of
  replies: the return code of each `cheri_revoke` call and the epoch counters after it. The
  lemmas say, for every script, what a return code of 0 is worth.
 */
module Revoke {
  import opened Prelude

  datatype Reply = Reply(rc: int, enqueue: nat, dequeue: nat)

  /** Further LAST_PASS calls after the first one. */
  const MAX_WAITS: nat := 10

  /** `cheri_revoke_epoch_clears(now, target)`: an abstract comparison of serial numbers. */
  type Clears = (nat, nat) -> bool

  /** Result of `stopless_revoke_open`: the epoch counter, not the return code, is the truth. */
  function OpenCode(e0: nat, reply: Reply): int {
    if reply.enqueue > e0 || reply.rc == 0 then 0 else reply.rc
  }

  /** The reply number `i`; a script that has run out repeats its last counters and fails. */
  function At(script: seq<Reply>, i: nat): Reply {
    if i < |script| then script[i] else Reply(-1, 0, 0)
  }

  predicate ClearsAt(script: seq<Reply>, start: nat, i: nat, clears: Clears, target: nat) {
    clears(At(script, start + i).dequeue, target)
  }

  predicate SucceedsAt(script: seq<Reply>, start: nat, i: nat) {
    At(script, start + i).rc == 0
  }

  /** One of the 11 replies from `start` on clears `target`: the scan finished within the bounded wait. */
  predicate ClosesWithin(script: seq<Reply>, start: nat, clears: Clears, target: nat) {
    exists i :: 0 <= i <= MAX_WAITS && ClearsAt(script, start, i, clears, target)
  }

  /**
    The epoch read after the first call clears within the bounded wait, and no call up to that
    point fails.
   */
  predicate SweepsWithin(script: seq<Reply>, start: nat, clears: Clears) {
    exists i :: 0 <= i <= MAX_WAITS
      && ClearsAt(script, start, i, clears, At(script, start).enqueue)
      && forall j | 0 <= j <= i :: SucceedsAt(script, start, j)
  }

  /** The epoch counter decides: an open has failed only if the epoch did not advance and the call said so. */
  lemma OpenFailsIff(e0: nat, reply: Reply)
    ensures OpenCode(e0, reply) == 0 <==> reply.enqueue > e0 || reply.rc == 0
  {
  }

  class Revoker {
    const clears: Clears
    /** Whether `g_cri` has been acquired. */
    var acquired: bool
    /** The epoch counters of the shared kernel page. */
    var enqueue: nat
    var dequeue: nat
    /** What the kernel will answer from now on, and how many calls have been made. */
    var script: seq<Reply>
    var calls: nat

    constructor (clears: Clears, script: seq<Reply>)
      ensures !acquired && calls == 0 && this.clears == clears && this.script == script
    {
      this.clears, this.script := clears, script;
      acquired, enqueue, dequeue, calls := false, 0, 0, 0;
    }

    /** `ensure_cri`: acquire the kernel page once. */
    method EnsureCri(available: bool) returns (rc: int)
      modifies this`acquired
      ensures acquired == (old(acquired) || available)
      ensures rc == if acquired then 0 else -1
    {
      if !acquired && !available {
        return -1;
      }
      acquired := true;
      rc := 0;
    }

    /** One kernel call. */
    method CheriRevoke() returns (rc: int)
      modifies this`enqueue, this`dequeue, this`calls
      ensures calls == old(calls) + 1
      ensures Reply(rc, enqueue, dequeue) == At(script, old(calls))
    {
      var r := At(script, calls);
      enqueue, dequeue, calls := r.enqueue, r.dequeue, calls + 1;
      rc := r.rc;
    }

    /**
      `stopless_revoke_open`: one call. It reports success exactly when the epoch advanced or the
      kernel said so; every failure is nonzero.
     */
    method Open(available: bool) returns (rc: int)
      modifies this`acquired, this`enqueue, this`dequeue, this`calls
      ensures !acquired ==> rc == -1 && calls == old(calls)
      ensures acquired ==> calls == old(calls) + 1
      ensures acquired ==> rc == OpenCode(old(enqueue), At(script, old(calls)))
      ensures acquired ==> (rc == 0 <==> enqueue > old(enqueue) || At(script, old(calls)).rc == 0)
      ensures acquired && rc != 0 ==> rc == At(script, old(calls)).rc
    {
      var got := EnsureCri(available);
      if got != 0 {
        return -1;
      }
      var e0 := enqueue;
      var reply := CheriRevoke();
      rc := if enqueue > e0 || reply == 0 then 0 else reply;
    }

    /**
      `stopless_revoke_close`: at most 11 calls, return codes ignored, and success exactly when
      one of their replies cleared the epoch that was open on entry.
     */
    method Close(available: bool) returns (rc: int)
      modifies this`acquired, this`enqueue, this`dequeue, this`calls
      ensures !acquired ==> rc == -1 && calls == old(calls)
      ensures acquired ==> old(calls) < calls <= old(calls) + 11
      ensures acquired ==>
        (rc == 0 <==> ClosesWithin(script, old(calls), clears, old(enqueue)))
      ensures rc == 0 ==> clears(dequeue, old(enqueue))
      ensures rc == 0 || rc == -1
    {
      var got := EnsureCri(available);
      if got != 0 {
        return -1;
      }
      ghost var start := calls;
      var target := enqueue;
      var reply := CheriRevoke();
      var loops := 0;
      while !clears(dequeue, target) && loops < 10
        invariant loops <= MAX_WAITS && calls == start + 1 + loops && acquired
        invariant dequeue == At(script, start + loops).dequeue
        invariant forall i | 0 <= i < loops :: !ClearsAt(script, start, i, clears, target)
        decreases 10 - loops
      {
        assert !ClearsAt(script, start, loops, clears, target);
        reply := CheriRevoke();
        loops := loops + 1;
      }
      assert ClearsAt(script, start, loops, clears, target) <==> clears(dequeue, target);
      rc := if clears(dequeue, target) then 0 else -1;
    }

    /**
      `stopless_revoke_now`: open and close in one. Success exactly when the epoch read after the
      first call cleared within the bounded wait with no failing call before.
     */
    method Now(available: bool) returns (rc: int)
      modifies this`acquired, this`enqueue, this`dequeue, this`calls
      ensures !acquired ==> rc == -1 && calls == old(calls)
      ensures acquired ==> old(calls) < calls <= old(calls) + 11
      ensures acquired ==>
        (rc == 0 <==> SweepsWithin(script, old(calls), clears))
    {
      var got := EnsureCri(available);
      if got != 0 {
        return -1;
      }
      ghost var start := calls;
      rc := CheriRevoke();
      assert SucceedsAt(script, start, 0) <==> rc == 0;
      if rc != 0 {
        return;
      }
      var target := enqueue;
      var loops := 0;
      while !clears(dequeue, target) && loops < 10
        invariant loops <= MAX_WAITS && calls == start + 1 + loops && acquired
        invariant dequeue == At(script, start + loops).dequeue
        invariant forall j | 0 <= j <= loops :: SucceedsAt(script, start, j)
        invariant forall i | 0 <= i < loops :: !ClearsAt(script, start, i, clears, target)
        decreases 10 - loops
      {
        assert !ClearsAt(script, start, loops, clears, target);
        rc := CheriRevoke();
        loops := loops + 1;
        assert SucceedsAt(script, start, loops) <==> rc == 0;
        if rc != 0 {
          return;
        }
      }
      assert ClearsAt(script, start, loops, clears, target) <==> clears(dequeue, target);
      rc := if clears(dequeue, target) then 0 else -1;
    }
  }
}
