/**
  What a lookup, or an insert-or-get that lost, answers while other threads insert: never an
  intermediate hop. The answer is at or beyond the end that the key's chain had when the call
  began, and with no new forwarding in between it is exactly the transitive lookup.
 */
module CasLookup {
  import opened Prelude
  import opened ProbeTable
  import opened Chase
  import opened CasInsert

  /** The chain of `k` in `v` has nothing after its first `n` hops. */
  ghost predicate Exhausted(v: Fwd, k: nat, n: nat) {
    Hop(v, k, n + 1).None?
  }

  lemma {:induction false} NothingBeyond(v: Fwd, k: nat, n: nat, m: nat)
    requires Exhausted(v, k, n) && n < m
    ensures Hop(v, k, m).None?
    decreases m
  {
    if n + 1 < m {
      NothingBeyond(v, k, n, m - 1);
    }
  }

  /** A thread on its chase, now that `slots` is the table; `v` was visible when its call began. */
  ghost predicate Chases(v: Fwd, slots: Table, hash: nat -> nat, th: Thread)
    requires |slots| > 0
  {
    match th.pc
    case Seek(last, hops, p) =>
      hops <= 4096 && Walked(slots, th.key, last, hops) && p <= |slots| && Passed(slots, hash, Target(th), p)
    case SeekAddr(last, hops, i) => hops <= 4096 && Walked(slots, th.key, last, hops) && Holds(slots, i, Target(th))
    case SeekLen(last, hops, i, a) =>
      hops <= 4096 && Walked(slots, th.key, last, hops) && Holds(slots, i, Target(th)) && a == slots[i].val.addr != 0
    case Done(r, hops) => hops <= 4096 && Walked(slots, th.key, r, hops) && Exhausted(v, th.key, hops)
    case TooLong => Hop(Pub(slots), th.key, 4097).Some?
    case PutLen(_) => th.key !in v
    case PutAddr(_) => th.key !in v
    case Count(_) => th.key !in v
    case Idle => false
    case Probe(_) => true
    case Claim(_) => true
    case Spin(_) => true
    case Full => true
  }

  // ------------------------------------------------------------------ the table grows

  lemma ClaimGrows(s: State, hash: nat -> nat, t: nat)
    requires TableOk(s.slots, hash)
    requires t < |s.threads| && s.threads[t].pc.Claim? && Knows(s.slots, hash, s.threads[t])
    ensures Grows(s.slots, Next(s, hash, t).slots)
  {
    var th := s.threads[t];
    var i := Idx(hash(th.key), th.pc.p, |s.slots|);
    if s.slots[i].key == 0 {
      SlotWriteGrows(s.slots, hash, i, th.key, s.slots[i].val, th.pc.p);
    }
    hide TableOk;
  }

  lemma StepGrows(s: State, hash: nat -> nat, base: set<nat>, act: Action)
    requires Inv(s, hash, base)
    ensures Grows(s.slots, Apply(s, hash, act).slots)
  {
    if act.Go? && act.t < |s.threads| {
      var th := s.threads[act.t];
      assert Knows(s.slots, hash, th);
      if th.pc.PutLen? {
        SlotWriteGrows(s.slots, hash, th.pc.i, th.key, Entry(0, th.mine.len), 0);
      } else if th.pc.PutAddr? {
        SlotWriteGrows(s.slots, hash, th.pc.i, th.key, th.mine, 0);
      } else if th.pc.Claim? {
        ClaimGrows(s, hash, act.t);
      }
    }
    hide Inv;
  }

  lemma ChasesIsStable(v: Fwd, a: Table, b: Table, hash: nat -> nat, th: Thread)
    requires |a| > 0 && Grows(a, b) && Chases(v, a, hash, th)
    ensures Chases(v, b, hash, th)
  {
    match th.pc
    case Seek(last, hops, p) =>
      WalkedStable(a, b, th.key, last, hops);
      PassedStable(a, b, hash, Target(th), p);
    case SeekAddr(last, hops, i) => WalkedStable(a, b, th.key, last, hops);
    case SeekLen(last, hops, i, x) => WalkedStable(a, b, th.key, last, hops);
    case Done(r, hops) => WalkedStable(a, b, th.key, r, hops);
    case TooLong => HopMonotone(Pub(a), Pub(b), th.key, 4097);
    case _ =>
  }

  // ------------------------------------------------------------------ where a chase may stop

  /** The place reached so far has no further hop in `v`, because its address is final there. */
  lemma StopsHere(v: Fwd, slots: Table, k: nat, last: Option<Entry>, hops: nat)
    requires Extends(v, Pub(slots)) && Walked(slots, k, last, hops)
    requires if last.None? then k !in v else Final(v, last.value.addr)
    ensures Exhausted(v, k, hops)
  {
    if hops > 0 && Hop(v, k, hops).Some? {
      HopMonotone(v, Pub(slots), k, hops);
    }
  }

  /** A probe run that has met only other keys up to a free slot, or all around, misses the key. */
  lemma PassedMisses(slots: Table, hash: nat -> nat, k: nat, p: nat)
    requires TableOk(slots, hash) && p <= |slots| && Passed(slots, hash, k, p)
    requires p < |slots| ==> slots[Idx(hash(k), p, |slots|)].key == 0
    ensures k !in Pub(slots)
  {
    assert p < |slots| ==> Stops(slots, hash(k), k, p);
    ScanIs(slots, hash(k), k, p);
    FindIffEntry(slots, hash, k);
  }

  lemma SeekChases(v: Fwd, s: State, hash: nat -> nat, t: nat)
    requires TableOk(s.slots, hash) && t < |s.threads| && s.threads[t].pc.Seek?
    requires Extends(v, Pub(s.slots)) && Chases(v, s.slots, hash, s.threads[t])
    ensures Chases(v, s.slots, hash, Next(s, hash, t).threads[t])
  {
    var th := s.threads[t];
    var Seek(last, hops, p) := th.pc;
    if p < |s.slots| && s.slots[Idx(hash(Target(th)), p, |s.slots|)].key != 0 {
      if s.slots[Idx(hash(Target(th)), p, |s.slots|)].key != Target(th) {
        assert !Stops(s.slots, hash(Target(th)), Target(th), p);
      }
    } else {
      PassedMisses(s.slots, hash, Target(th), p);
      StopsHere(v, s.slots, th.key, last, hops);
    }
  }

  lemma SeekAddrChases(v: Fwd, s: State, hash: nat -> nat, t: nat)
    requires TableOk(s.slots, hash) && t < |s.threads| && s.threads[t].pc.SeekAddr?
    requires Extends(v, Pub(s.slots)) && Chases(v, s.slots, hash, s.threads[t])
    ensures Chases(v, s.slots, hash, Next(s, hash, t).threads[t])
  {
    var th := s.threads[t];
    PublishedAt(s.slots, hash, th.pc.i);
    if s.slots[th.pc.i].val.addr == 0 {
      StopsHere(v, s.slots, th.key, th.pc.last, th.pc.hops);
    }
  }

  lemma SeekLenChases(v: Fwd, s: State, hash: nat -> nat, t: nat)
    requires TableOk(s.slots, hash) && t < |s.threads| && s.threads[t].pc.SeekLen?
    requires Extends(v, Pub(s.slots)) && Chases(v, s.slots, hash, s.threads[t])
    ensures Chases(v, s.slots, hash, Next(s, hash, t).threads[t])
  {
    var th := s.threads[t];
    var SeekLen(last, hops, i, a) := th.pc;
    PublishedAt(s.slots, hash, i);
    var e := Entry(a, s.slots[i].val.len);
    assert Pub(s.slots)[Target(th)] == e;
    if last.Some? && last.value.addr == a {
      StopsHere(v, s.slots, th.key, last, hops);
    } else {
      assert Hop(Pub(s.slots), th.key, hops + 1) == Some(e);
    }
  }

  lemma WinnerChases(v: Fwd, s: State, hash: nat -> nat, base: set<nat>, t: nat)
    requires Inv(s, hash, base) && t < |s.threads| && Extends(v, Pub(s.slots)) && Chases(v, s.slots, hash, s.threads[t])
    requires s.threads[t].inserting && !s.threads[t].pc.Seek? && !s.threads[t].pc.SeekAddr? && !s.threads[t].pc.SeekLen?
    ensures Chases(v, Next(s, hash, t).slots, hash, Next(s, hash, t).threads[t])
  {
    var th := s.threads[t];
    assert Knows(s.slots, hash, th);
    StepGrows(s, hash, base, Go(t));
    if th.pc.Claim? && s.slots[Idx(hash(th.key), th.pc.p, |s.slots|)].key == 0 {
      PassedMisses(s.slots, hash, th.key, th.pc.p);
    } else if th.pc.Count? {
      PublishedAt(s.slots, hash, th.pc.i);
      assert Hop(v, th.key, 1).None?;
      assert Walked(s.slots, th.key, Some(th.mine), 1);
    } else if AtRest(th.pc) {
      ChasesIsStable(v, s.slots, Next(s, hash, t).slots, hash, th);
    }
  }

  lemma OwnStepChases(v: Fwd, s: State, hash: nat -> nat, base: set<nat>, t: nat)
    requires Inv(s, hash, base) && t < |s.threads| && Extends(v, Pub(s.slots)) && Chases(v, s.slots, hash, s.threads[t])
    ensures Chases(v, Next(s, hash, t).slots, hash, Next(s, hash, t).threads[t])
  {
    var th := s.threads[t];
    assert Knows(s.slots, hash, th);
    hide Inv;
    if th.pc.Seek? {
      SeekChases(v, s, hash, t);
      SeekWritesNothing(s, hash, t);
    } else if th.pc.SeekAddr? {
      SeekAddrChases(v, s, hash, t);
      SeekWritesNothing(s, hash, t);
    } else if th.pc.SeekLen? {
      SeekLenChases(v, s, hash, t);
      SeekWritesNothing(s, hash, t);
    } else if !AtRest(th.pc) {
      WinnerChases(v, s, hash, base, t);
    }
  }

  lemma SeekWritesNothing(s: State, hash: nat -> nat, t: nat)
    requires t < |s.threads| && |s.slots| > 0
    requires s.threads[t].pc.Seek? || s.threads[t].pc.SeekAddr? || s.threads[t].pc.SeekLen?
    ensures Next(s, hash, t).slots == s.slots
  {
  }

  lemma OthersLeaveThread(s: State, hash: nat -> nat, act: Action, t: nat)
    requires |s.slots| > 0 && t < |s.threads| && act.t != t
    ensures Apply(s, hash, act).threads[t] == s.threads[t]
  {
  }

  lemma GoKeepsCall(s: State, hash: nat -> nat, t: nat)
    requires |s.slots| > 0 && t < |s.threads|
    ensures Next(s, hash, t).threads[t].key == s.threads[t].key
    ensures Next(s, hash, t).threads[t].inserting == s.threads[t].inserting
    ensures Next(s, hash, t).threads[t].mine == s.threads[t].mine
  {
  }

  /** The call in progress on `t`, and what it knows since it began on `v`. */
  ghost predicate InCall(v: Fwd, s: State, hash: nat -> nat, t: nat, call: Action)
    requires call.Begin?
  {
    && t < |s.threads| && |s.slots| > 0
    && s.threads[t].key == call.key && s.threads[t].mine == call.mine && s.threads[t].inserting == call.inserting
    && Extends(v, Pub(s.slots)) && Chases(v, s.slots, hash, s.threads[t])
  }

  /** `call` is accepted in `s`. */
  predicate Accepted(s: State, call: Action) {
    && call.Begin? && call.t < |s.threads| && AtRest(s.threads[call.t].pc)
    && (call.inserting ==> call.key != 0 && call.mine.addr != 0)
  }

  lemma CallBegins(s: State, hash: nat -> nat, call: Action)
    requires |s.slots| > 0 && Accepted(s, call)
    ensures InCall(Pub(s.slots), Apply(s, hash, call), hash, call.t, call)
  {
  }

  lemma InCallStep(v: Fwd, s: State, hash: nat -> nat, base: set<nat>, t: nat, call: Action, act: Action)
    requires Inv(s, hash, base) && call.Begin? && InCall(v, s, hash, t, call) && act != Begin(t, call.key, call.mine, call.inserting)
    requires act.Begin? ==> act.t != t
    ensures InCall(v, Apply(s, hash, act), hash, t, call)
  {
    StepGrows(s, hash, base, act);
    if act.t != t {
      OthersLeaveThread(s, hash, act, t);
      ChasesIsStable(v, s.slots, Apply(s, hash, act).slots, hash, s.threads[t]);
    } else {
      OwnStepChases(v, s, hash, base, t);
      GoKeepsCall(s, hash, t);
    }
  }

  lemma {:induction false} InCallRun(v: Fwd, s: State, hash: nat -> nat, base: set<nat>, t: nat, call: Action, acts: seq<Action>)
    requires Inv(s, hash, base) && call.Begin? && InCall(v, s, hash, t, call)
    requires forall i | 0 <= i < |acts| :: acts[i].Begin? ==> acts[i].t != t
    ensures InCall(v, Run(s, hash, acts), hash, t, call) && Inv(Run(s, hash, acts), hash, base)
  {
    if acts != [] {
      var m := |acts| - 1;
      InCallRun(v, s, hash, base, t, call, acts[..m]);
      InCallStep(v, Run(s, hash, acts[..m]), hash, base, t, call, acts[m]);
      StepKeepsInv(Run(s, hash, acts[..m]), hash, base, acts[m]);
    }
  }

  lemma {:induction false} RunAppends(s: State, hash: nat -> nat, a: seq<Action>, b: seq<Action>)
    requires |s.slots| > 0
    ensures Run(s, hash, a + b) == Run(Run(s, hash, a), hash, b)
  {
    if b == [] {
      assert a + b == a;
    } else {
      var m := |b| - 1;
      assert (a + b)[..|a + b| - 1] == a + b[..m];
      RunAppends(s, hash, a, b[..m]);
    }
  }

  /** The state after `before`, then the call, then `after`, in which the thread begins nothing else. */
  lemma CallInRun(s: State, hash: nat -> nat, before: seq<Action>, call: Action, after: seq<Action>)
    requires Initial(s, hash) && Accepted(Run(s, hash, before), call)
    requires forall i | 0 <= i < |after| :: after[i].Begin? ==> after[i].t != call.t
    ensures var q, r := Run(s, hash, before), Run(s, hash, before + [call] + after);
      InCall(Pub(q.slots), r, hash, call.t, call) && Inv(r, hash, Entries(s.slots).Keys)
  {
    InitialInv(s, hash);
    RunKeepsInv(s, hash, Entries(s.slots).Keys, before);
    var q := Run(s, hash, before);
    CallBegins(q, hash, call);
    StepKeepsInv(q, hash, Entries(s.slots).Keys, call);
    assert (before + [call])[..|before|] == before;
    RunAppends(s, hash, before + [call], after);
    InCallRun(Pub(q.slots), Apply(q, hash, call), hash, Entries(s.slots).Keys, call.t, call, after);
  }

  /**
    Never an intermediate hop. Take any run in which a thread begins a lookup or an insert-or-get
    of a key. If it answers, the answer is a hop of the key's chain with nothing beyond it in what
    was visible when the call began: a miss only for a key that was not visible then, an entry only
    at or past the end the chain had then. It gives up only on a chain of more than 4096 hops.
   */
  lemma NeverAnIntermediateHop(s: State, hash: nat -> nat, before: seq<Action>, call: Action, after: seq<Action>)
    requires Initial(s, hash) && Accepted(Run(s, hash, before), call)
    requires forall i | 0 <= i < |after| :: after[i].Begin? ==> after[i].t != call.t
    ensures var v, r := Pub(Run(s, hash, before).slots), Run(s, hash, before + [call] + after);
      && call.t < |r.threads|
      && var pc := r.threads[call.t].pc;
         && (pc.Done? ==> Walked(r.slots, call.key, pc.r, pc.hops) && pc.hops <= 4096)
         && (pc.Done? ==> forall n | pc.hops < n :: Hop(v, call.key, n).None?)
         && (pc.Done? && pc.r.None? ==> call.key !in v)
         && (pc.TooLong? ==> Hop(Pub(r.slots), call.key, 4097).Some?)
  {
    CallInRun(s, hash, before, call, after);
    var v, r := Pub(Run(s, hash, before).slots), Run(s, hash, before + [call] + after);
    var pc := r.threads[call.t].pc;
    if pc.Done? {
      forall n | pc.hops < n
        ensures Hop(v, call.key, n).None?
      {
        NothingBeyond(v, call.key, pc.hops, n);
      }
    }
  }

  lemma DoneIsLookup(v: Fwd, k: nat, r: Option<Entry>, hops: nat)
    requires hops <= 4096 && Exhausted(v, k, hops)
    requires (hops == 0 && r.None?) || (hops > 0 && r.Some? && Hop(v, k, hops) == r)
    ensures Lookup(v, k) == r && (r.None? ==> k !in v)
  {
    if r.Some? {
      assert Final(v, r.value.addr);
      LookupExact(v, k, r.value);
    }
  }

  lemma LongIsNoLookup(v: Fwd, k: nat)
    requires Hop(v, k, 4097).Some?
    ensures k in v && Lookup(v, k) == None
  {
    HopDefinedBelow(v, k, 1, 4097);
    if Lookup(v, k).Some? {
      var e := Lookup(v, k).value;
      LookupExact(v, k, e);
      var n :| 1 <= n <= 4096 && Hop(v, k, n) == Some(e) && Final(v, e.addr);
      HopDefinedBelow(v, k, n + 1, 4097);
    }
  }

  /**
    While no new forwarding becomes visible, a lookup (or an insert-or-get of a key that is there)
    is exactly the transitive lookup: it answers that lookup's result, and fails with a chain too
    long exactly when the key is there and that lookup has no answer.
   */
  lemma QuietLookupIsExact(s: State, hash: nat -> nat, before: seq<Action>, call: Action, after: seq<Action>)
    requires Initial(s, hash) && Accepted(Run(s, hash, before), call)
    requires forall i | 0 <= i < |after| :: after[i].Begin? ==> after[i].t != call.t
    requires Pub(Run(s, hash, before + [call] + after).slots) == Pub(Run(s, hash, before).slots)
    ensures var v, r := Pub(Run(s, hash, before).slots), Run(s, hash, before + [call] + after);
      && call.t < |r.threads|
      && var pc := r.threads[call.t].pc;
         && (pc.Done? ==> pc.r == Lookup(v, call.key))
         && (pc.Done? || pc.TooLong? ==> (pc.TooLong? <==> call.key in v && Lookup(v, call.key) == None))
  {
    NeverAnIntermediateHop(s, hash, before, call, after);
    var v, r := Pub(Run(s, hash, before).slots), Run(s, hash, before + [call] + after);
    var pc := r.threads[call.t].pc;
    if pc.Done? {
      DoneIsLookup(v, call.key, pc.r, pc.hops);
    } else if pc.TooLong? {
      LongIsNoLookup(v, call.key);
    }
  }

  /** A lookup running alone always comes back. */
  lemma LookupReturns(s: State, hash: nat -> nat, call: Action)
    requires |s.slots| > 0 && Accepted(s, call) && !call.inserting
    ensures Returns(Apply(s, hash, call), hash, call.t)
  {
    var n := MovingReturns(Apply(s, hash, call), hash, call.t);
  }
}
