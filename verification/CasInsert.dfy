/**
  `forward_table_cas_insert` and the lookups that run beside it, as an interleaving of their
  atomic steps by any number of threads. The table neither grows nor takes overwriting
  inserts during this phase; both are safepoint operations.
 */
module CasInsert {
  import opened Prelude
  import opened ProbeTable
  import opened Chase

  type Table = seq<Slot<Entry>>

  /** Where a thread is between two atomic accesses. */
  datatype Pc =
    | Idle
      // cas_insert: about to load the key of probe `p`; about to CAS it
    | Probe(p: nat)
    | Claim(p: nat)
      // the winner of slot `i`: about to store length, store address, bump g_size
    | PutLen(i: nat)
    | PutAddr(i: nat)
    | Count(i: nat)
      // a loser waiting for the address of slot `i`
    | Spin(i: nat)
      // the chase: about to load a key, an address, a length
    | Seek(last: Option<Entry>, hops: nat, p: nat)
    | SeekAddr(last: Option<Entry>, hops: nat, i: nat)
    | SeekLen(last: Option<Entry>, hops: nat, i: nat, a: nat)
      // returned: an entry (so many hops down) or a miss; NULL from a full table; NULL from too long a chain
    | Done(r: Option<Entry>, hops: nat)
    | Full
    | TooLong

  datatype Thread = Thread(key: nat, mine: Entry, inserting: bool, pc: Pc)

  /** `won` and `wins` are history: the mapping of each successful CAS, and how many there were. */
  datatype State = State(slots: Table, size: nat, threads: seq<Thread>, won: map<nat, Entry>, wins: nat)

  datatype Action =
    | Begin(t: nat, key: nat, mine: Entry, inserting: bool)
    | Go(t: nat)

  predicate AtRest(pc: Pc) {
    pc.Idle? || pc.Done? || pc.Full? || pc.TooLong?
  }

  function Target(th: Thread): nat
    requires th.pc.Seek? || th.pc.SeekAddr? || th.pc.SeekLen?
  {
    if th.pc.last.None? then th.key else th.pc.last.value.addr
  }

  function SetPc(s: State, t: nat, pc: Pc): State
    requires t < |s.threads|
  {
    s.(threads := s.threads[t := s.threads[t].(pc := pc)])
  }

  /** One atomic step of thread `t`. */
  function Next(s: State, hash: nat -> nat, t: nat): (r: State)
    requires t < |s.threads| && |s.slots| > 0
    ensures |r.slots| == |s.slots| && |r.threads| == |s.threads|
  {
    var th, n := s.threads[t], |s.slots|;
    match th.pc
    case Probe(p) =>
      if p >= n then SetPc(s, t, Full)
      else
        var i := Idx(hash(th.key), p, n);
        if s.slots[i].key == th.key then SetPc(s, t, Spin(i))
        else if s.slots[i].key == 0 then SetPc(s, t, Claim(p))
        else SetPc(s, t, Probe(p + 1))
    case Claim(p) =>
      var i := Idx(hash(th.key), p, n);
      if s.slots[i].key == 0 then
        SetPc(s, t, PutLen(i)).(slots := s.slots[i := s.slots[i].(key := th.key)],
                                won := s.won[th.key := th.mine], wins := s.wins + 1)
      else if s.slots[i].key == th.key then SetPc(s, t, Spin(i))
      else SetPc(s, t, Probe(p + 1))
    case PutLen(i) =>
      if i >= n then s else
        SetPc(s, t, PutAddr(i)).(slots := s.slots[i := s.slots[i].(val := s.slots[i].val.(len := th.mine.len))])
    case PutAddr(i) =>
      if i >= n then s else
        SetPc(s, t, Count(i)).(slots := s.slots[i := s.slots[i].(val := s.slots[i].val.(addr := th.mine.addr))])
    case Count(i) => SetPc(s, t, Done(Some(th.mine), 1)).(size := s.size + 1)
    case Spin(i) =>
      if i < n && s.slots[i].val.addr != 0 then SetPc(s, t, Seek(None, 0, 0)) else s
    case Seek(last, hops, p) =>
      if p >= n then SetPc(s, t, Done(last, hops))
      else
        var i := Idx(hash(Target(th)), p, n);
        if s.slots[i].key == 0 then SetPc(s, t, Done(last, hops))
        else if s.slots[i].key == Target(th) then SetPc(s, t, SeekAddr(last, hops, i))
        else SetPc(s, t, Seek(last, hops, p + 1))
    case SeekAddr(last, hops, i) =>
      if i >= n || s.slots[i].val.addr == 0 then SetPc(s, t, Done(last, hops))
      else SetPc(s, t, SeekLen(last, hops, i, s.slots[i].val.addr))
    case SeekLen(last, hops, i, a) =>
      if i >= n then s
      else if last.Some? && last.value.addr == a then SetPc(s, t, Done(last, hops))
      else if hops >= CHASE_MAX then SetPc(s, t, TooLong)
      else SetPc(s, t, Seek(Some(Entry(a, s.slots[i].val.len)), hops + 1, 0))
    case _ => s
  }

  function Apply(s: State, hash: nat -> nat, act: Action): State
    requires |s.slots| > 0
  {
    match act
    case Begin(t, key, mine, inserting) =>
      if t < |s.threads| && AtRest(s.threads[t].pc) && (inserting ==> key != 0 && mine.addr != 0) then
        s.(threads := s.threads[t := Thread(key, mine, inserting, if inserting then Probe(0) else Seek(None, 0, 0))])
      else s
    case Go(t) => if t < |s.threads| then Next(s, hash, t) else s
  }

  function Run(s: State, hash: nat -> nat, acts: seq<Action>): (r: State)
    requires |s.slots| > 0
    ensures |r.slots| == |s.slots| && |r.threads| == |s.threads|
  {
    if acts == [] then s else Apply(Run(s, hash, acts[..|acts| - 1]), hash, acts[|acts| - 1])
  }

  // ------------------------------------------------------------------ the invariant

  /** The mappings readers can see. */
  function Pub(slots: Table): Fwd {
    Visible(Entries(slots))
  }

  /** `last` is the entry `hops` hops down the chain of `k` (none before the first hop). */
  ghost predicate Walked(slots: Table, k: nat, last: Option<Entry>, hops: nat) {
    (hops == 0 && last.None?) || (hops > 0 && last.Some? && Hop(Pub(slots), k, hops) == last)
  }

  /** Probes below `p` met other keys only. */
  ghost predicate Passed(slots: Table, hash: nat -> nat, k: nat, p: nat)
    requires |slots| > 0
  {
    forall q | 0 <= q < p :: !Stops(slots, hash(k), k, q)
  }

  ghost predicate Holds(slots: Table, i: nat, k: nat) {
    i < |slots| && slots[i].key == k != 0
  }

  /** What thread `th` knows between its steps, whatever the others do. */
  ghost predicate Knows(slots: Table, hash: nat -> nat, th: Thread)
    requires |slots| > 0
  {
    && (th.inserting ==> th.key != 0 && th.mine.addr != 0)
    && match th.pc
       case Idle => true
       case Probe(p) => th.inserting && p <= |slots| && Passed(slots, hash, th.key, p)
       case Claim(p) => th.inserting && p < |slots| && Passed(slots, hash, th.key, p)
       case PutLen(i) => th.inserting && Holds(slots, i, th.key) && slots[i].val.addr == 0
       case PutAddr(i) => th.inserting && Holds(slots, i, th.key) && slots[i].val == Entry(0, th.mine.len)
       case Count(i) => th.inserting && Holds(slots, i, th.key) && slots[i].val == th.mine
       case Spin(i) => th.inserting && Holds(slots, i, th.key)
       case Seek(last, hops, p) =>
         && Walked(slots, th.key, last, hops)
         && (last.None? && th.inserting ==> p <= |slots| && th.key in Pub(slots) && Passed(slots, hash, th.key, p))
       case SeekAddr(last, hops, i) =>
         && Walked(slots, th.key, last, hops) && Holds(slots, i, Target(th))
         && (last.None? && th.inserting ==> th.key in Pub(slots))
       case SeekLen(last, hops, i, a) =>
         && Walked(slots, th.key, last, hops) && Holds(slots, i, Target(th)) && a == slots[i].val.addr != 0
       case Done(r, hops) => Walked(slots, th.key, r, hops) && (th.inserting ==> r.Some?)
       case Full => th.inserting && Passed(slots, hash, th.key, |slots|)
       case TooLong => true
  }

  /** The winner of slot `i`, before it has published the address. */
  predicate Owner(th: Thread, i: nat) {
    th.pc == PutLen(i) || th.pc == PutAddr(i)
  }

  predicate Uncounted(th: Thread) {
    th.pc.PutLen? || th.pc.PutAddr? || th.pc.Count?
  }

  function Pending(threads: seq<Thread>): nat {
    if threads == [] then 0
    else Pending(threads[..|threads| - 1]) + if Uncounted(threads[|threads| - 1]) then 1 else 0
  }

  ghost predicate TableOk(slots: Table, hash: nat -> nat) {
    WF(slots, hash) && forall j | 0 <= j < |slots| && slots[j].key == 0 :: slots[j].val.addr == 0
  }

  ghost predicate AllKnow(slots: Table, hash: nat -> nat, threads: seq<Thread>)
    requires |slots| > 0
  {
    forall t | 0 <= t < |threads| :: Knows(slots, hash, threads[t])
  }

  ghost predicate SoleOwners(threads: seq<Thread>) {
    forall t, u, i: nat | 0 <= t < u < |threads| && Owner(threads[t], i) :: !Owner(threads[u], i)
  }

  ghost predicate HasOwner(threads: seq<Thread>, j: nat) {
    exists t :: 0 <= t < |threads| && Owner(threads[t], j)
  }

  /** Every claimed but unpublished slot has a winner on its way to publish it. */
  ghost predicate AllOwned(slots: Table, threads: seq<Thread>) {
    forall j: nat | j < |slots| && slots[j].key != 0 && slots[j].val.addr == 0 :: HasOwner(threads, j)
  }

  /** Every key beyond `base` was won by exactly one CAS, and holds what that winner brought. */
  ghost predicate HistoryOk(entries: Fwd, pub: Fwd, won: map<nat, Entry>, base: set<nat>) {
    && (forall k :: k in entries <==> k in base || k in won)
    && (forall k | k in won :: k !in base)
    && forall k | k in won && k in pub :: pub[k] == won[k]
  }

  ghost predicate WinnersOk(threads: seq<Thread>, won: map<nat, Entry>) {
    forall t | 0 <= t < |threads| && Uncounted(threads[t]) ::
      threads[t].key in won && won[threads[t].key] == threads[t].mine
  }

  /** `base` is the set of keys the table held before the phase. */
  ghost predicate Inv(s: State, hash: nat -> nat, base: set<nat>) {
    && TableOk(s.slots, hash)
    && AllKnow(s.slots, hash, s.threads)
    && SoleOwners(s.threads)
    && AllOwned(s.slots, s.threads)
    && s.size + Pending(s.threads) == Occupied(s.slots)
    && HistoryOk(Entries(s.slots), Pub(s.slots), s.won, base)
    && s.wins == |s.won|
    && WinnersOk(s.threads, s.won)
  }

  ghost predicate Initial(s: State, hash: nat -> nat) {
    && TableOk(s.slots, hash)
    && (forall j | 0 <= j < |s.slots| && s.slots[j].key != 0 :: s.slots[j].val.addr != 0)
    && (forall t | 0 <= t < |s.threads| :: s.threads[t].pc == Idle && !s.threads[t].inserting)
    && s.size == Occupied(s.slots)
    && s.won == map[] && s.wins == 0
  }

  // ------------------------------------------------------------------ how the table may change

  ghost predicate Extends(v: Fwd, w: Fwd) {
    forall k | k in v :: k in w && w[k] == v[k]
  }

  lemma {:induction false} HopMonotone(v: Fwd, w: Fwd, k: nat, n: nat)
    requires Extends(v, w) && Hop(v, k, n).Some?
    ensures Hop(w, k, n) == Hop(v, k, n)
  {
    if n > 1 {
      HopMonotone(v, w, k, n - 1);
    }
  }

  /** Keys stay, published entries stay, and what is visible only grows. */
  ghost predicate Grows(a: Table, b: Table) {
    && |a| == |b|
    && (forall j | 0 <= j < |a| && a[j].key != 0 :: b[j].key == a[j].key)
    && (forall j | 0 <= j < |a| && a[j].val.addr != 0 :: b[j] == a[j])
    && Extends(Pub(a), Pub(b))
  }

  lemma PassedStable(a: Table, b: Table, hash: nat -> nat, k: nat, p: nat)
    requires |a| > 0 && Grows(a, b) && Passed(a, hash, k, p)
    ensures Passed(b, hash, k, p)
  {
    forall q | 0 <= q < p
      ensures !Stops(b, hash(k), k, q)
    {
      assert !Stops(a, hash(k), k, q);
    }
  }

  lemma WalkedStable(a: Table, b: Table, k: nat, last: Option<Entry>, hops: nat)
    requires Grows(a, b) && Walked(a, k, last, hops)
    ensures Walked(b, k, last, hops)
  {
    if hops > 0 {
      HopMonotone(Pub(a), Pub(b), k, hops);
    }
  }

  lemma SeekingIsStable(a: Table, b: Table, hash: nat -> nat, th: Thread)
    requires |a| > 0 && Grows(a, b) && Knows(a, hash, th)
    requires th.pc.Seek? || th.pc.SeekAddr? || th.pc.SeekLen? || th.pc.Done?
    ensures Knows(b, hash, th)
  {
    match th.pc
    case Seek(last, hops, p) =>
      WalkedStable(a, b, th.key, last, hops);
      if last.None? && th.inserting {
        PassedStable(a, b, hash, th.key, p);
      }
    case SeekAddr(last, hops, i) => WalkedStable(a, b, th.key, last, hops);
    case SeekLen(last, hops, i, x) => WalkedStable(a, b, th.key, last, hops);
    case Done(r, hops) => WalkedStable(a, b, th.key, r, hops);
  }

  /** A thread's knowledge survives any growth that leaves the slot it owns alone. */
  lemma KnowsIsStable(a: Table, b: Table, hash: nat -> nat, th: Thread)
    requires |a| > 0 && Grows(a, b) && Knows(a, hash, th)
    requires Uncounted(th) && th.pc.i < |a| ==> b[th.pc.i] == a[th.pc.i]
    ensures Knows(b, hash, th)
  {
    if th.pc.Seek? || th.pc.SeekAddr? || th.pc.SeekLen? || th.pc.Done? {
      SeekingIsStable(a, b, hash, th);
    } else if th.pc.Probe? || th.pc.Claim? {
      PassedStable(a, b, hash, th.key, th.pc.p);
    } else if th.pc.Full? {
      PassedStable(a, b, hash, th.key, |a|);
    }
  }

  /** Writing slot `i`, free or already holding `k`, is a `Put` of `k`. */
  lemma SlotWriteIsPut(a: Table, hash: nat -> nat, i: nat, k: nat, v: Entry, p: nat)
    requires TableOk(a, hash) && k != 0 && i < |a|
    requires a[i].key == k || (a[i].key == 0 && p < |a| && i == Idx(hash(k), p, |a|) && Passed(a, hash, k, p))
    ensures TableOk(a[i := Slot(k, v)], hash)
    ensures Entries(a[i := Slot(k, v)]) == Entries(a)[k := v]
    ensures Occupied(a[i := Slot(k, v)]) == Occupied(a) + if a[i].key == 0 then 1 else 0
    ensures a[i].key == 0 <==> k !in Entries(a)
    ensures a[i].key == k ==> Entries(a)[k] == a[i].val
  {
    if a[i].key == k {
      assert Settled(a, hash, i);
    } else {
      assert Stops(a, hash(k), k, p);
      ScanIs(a, hash(k), k, p);
    }
    assert a[i := Slot(k, v)] == Put(a, hash, k, v);
    FindIffEntry(a, hash, k);
    StopMeansRoom(a, hash, k);
    PutCorrect(a, hash, k, v);
  }

  /** A write to a free or unpublished slot is a growth. */
  lemma SlotWriteGrows(a: Table, hash: nat -> nat, i: nat, k: nat, v: Entry, p: nat)
    requires TableOk(a, hash) && k != 0 && i < |a| && a[i].val.addr == 0
    requires a[i].key == k || (a[i].key == 0 && p < |a| && i == Idx(hash(k), p, |a|) && Passed(a, hash, k, p))
    ensures Grows(a, a[i := Slot(k, v)])
    ensures Pub(a[i := Slot(k, v)]) == if v.addr == 0 then Pub(a) else Pub(a)[k := v]
  {
    SlotWriteIsPut(a, hash, i, k, v, p);
    assert k !in Pub(a);
    assert Pub(a[i := Slot(k, v)]) == if v.addr == 0 then Pub(a) else Pub(a)[k := v];
  }

  lemma {:induction false} PendingUpdate(threads: seq<Thread>, t: nat, th: Thread)
    requires t < |threads|
    ensures Pending(threads[t := th]) + (if Uncounted(threads[t]) then 1 else 0)
         == Pending(threads) + (if Uncounted(th) then 1 else 0)
  {
    var m := |threads| - 1;
    if t == m {
      assert threads[t := th][..m] == threads[..m];
    } else {
      assert threads[t := th][..m] == threads[..m][t := th];
      PendingUpdate(threads[..m], t, th);
    }
  }

  // ------------------------------------------------------------------ every step keeps the invariant

  lemma AllKnowAfter(a: Table, b: Table, hash: nat -> nat, threads: seq<Thread>, t: nat, th: Thread)
    requires |a| > 0 && Grows(a, b) && AllKnow(a, hash, threads) && t < |threads| && Knows(b, hash, th)
    requires forall u | 0 <= u < |threads| && u != t && Uncounted(threads[u]) && threads[u].pc.i < |a| ::
               b[threads[u].pc.i] == a[threads[u].pc.i]
    ensures AllKnow(b, hash, threads[t := th])
  {
    var after := threads[t := th];
    forall u | 0 <= u < |after|
      ensures Knows(b, hash, after[u])
    {
      if u != t {
        assert Knows(a, hash, threads[u]);
        KnowsIsStable(a, b, hash, threads[u]);
      }
    }
  }

  /** If only slot `i` changed, and `t` owns it or has published it, everything is still owned. */
  lemma AllOwnedAfter(a: Table, b: Table, threads: seq<Thread>, t: nat, th: Thread, i: nat)
    requires AllOwned(a, threads) && t < |threads| && |a| == |b| && i < |a|
    requires forall j | 0 <= j < |a| && j != i :: b[j] == a[j]
    requires forall j: nat | Owner(threads[t], j) :: j == i
    requires Owner(th, i) || b[i].key == 0 || b[i].val.addr != 0
    ensures AllOwned(b, threads[t := th])
  {
    forall j: nat | j < |b| && b[j].key != 0 && b[j].val.addr == 0
      ensures HasOwner(threads[t := th], j)
    {
      if j == i {
        assert Owner(threads[t := th][t], j);
      } else {
        var u :| 0 <= u < |threads| && Owner(threads[u], j);
        assert Owner(threads[t := th][u], j);
      }
    }
  }

  lemma AllOwnedQuietly(a: Table, threads: seq<Thread>, t: nat, th: Thread)
    requires AllOwned(a, threads) && t < |threads| && !threads[t].pc.PutLen? && !threads[t].pc.PutAddr?
    ensures AllOwned(a, threads[t := th])
  {
    forall j: nat | j < |a| && a[j].key != 0 && a[j].val.addr == 0
      ensures HasOwner(threads[t := th], j)
    {
      var u :| 0 <= u < |threads| && Owner(threads[u], j);
      assert Owner(threads[t := th][u], j);
    }
  }

  /** Steps that write no slot and do not enter or leave the winner's path. */
  lemma QuietStep(s: State, hash: nat -> nat, base: set<nat>, t: nat, th: Thread)
    requires Inv(s, hash, base) && t < |s.threads|
    requires !Uncounted(s.threads[t]) && !Uncounted(th) && Knows(s.slots, hash, th)
    ensures Inv(s.(threads := s.threads[t := th]), hash, base)
  {
    PendingUpdate(s.threads, t, th);
    AllOwnedQuietly(s.slots, s.threads, t, th);
  }

  /** No other thread is on the winner's path for slot `i`. */
  ghost predicate OthersElsewhere(threads: seq<Thread>, t: nat, i: nat) {
    forall u | 0 <= u < |threads| && u != t && Uncounted(threads[u]) :: threads[u].pc.i != i
  }

  lemma ClaimedAlone(s: State, hash: nat -> nat, base: set<nat>, t: nat, i: nat)
    requires Inv(s, hash, base) && t < |s.threads| && i < |s.slots| && s.slots[i].val.addr == 0
    requires s.slots[i].key == 0 || Owner(s.threads[t], i)
    ensures OthersElsewhere(s.threads, t, i)
  {
    forall u | 0 <= u < |s.threads| && u != t && Uncounted(s.threads[u])
      ensures s.threads[u].pc.i != i
    {
      OnWinnersPath(s.slots, hash, s.threads[u]);
    }
  }

  lemma OnWinnersPath(slots: Table, hash: nat -> nat, th: Thread)
    requires |slots| > 0 && Knows(slots, hash, th) && Uncounted(th)
    ensures Holds(slots, th.pc.i, th.key)
    ensures Owner(th, th.pc.i) || slots[th.pc.i].val.addr != 0
  {
  }

  lemma SoleOwnersAfter(threads: seq<Thread>, t: nat, th: Thread, i: nat)
    requires SoleOwners(threads) && t < |threads| && OthersElsewhere(threads, t, i)
    requires forall j: nat | Owner(th, j) :: j == i
    ensures SoleOwners(threads[t := th])
  {
  }

  lemma HistoryAfterClaim(entries: Fwd, pub: Fwd, won: map<nat, Entry>, base: set<nat>, k: nat, v: Entry, e: Entry)
    requires HistoryOk(entries, pub, won, base) && k !in entries && k !in pub
    ensures HistoryOk(entries[k := v], pub, won[k := e], base)
  {
  }

  lemma HistoryAfterWrite(entries: Fwd, pub: Fwd, won: map<nat, Entry>, base: set<nat>, k: nat, v: Entry)
    requires HistoryOk(entries, pub, won, base) && k in entries && k in won && (v.addr == 0 || won[k] == v)
    ensures HistoryOk(entries[k := v], if v.addr == 0 then pub else pub[k := v], won, base)
  {
  }

  lemma WinnersAfter(threads: seq<Thread>, won: map<nat, Entry>, t: nat, pc: Pc)
    requires WinnersOk(threads, won) && t < |threads|
    requires threads[t].key in won ==> won[threads[t].key] == threads[t].mine
    ensures WinnersOk(threads[t := threads[t].(pc := pc)], won[threads[t].key := threads[t].mine])
  {
    assert forall u | 0 <= u < |threads| && u != t && Uncounted(threads[u]) && threads[u].key == threads[t].key ::
      threads[u].mine == threads[t].mine;
  }

  lemma ClaimStep(s: State, hash: nat -> nat, base: set<nat>, t: nat, i: nat)
    requires Inv(s, hash, base) && t < |s.threads| && s.threads[t].pc.Claim?
    requires i == Idx(hash(s.threads[t].key), s.threads[t].pc.p, |s.slots|) && s.slots[i].key == 0
    ensures var th := s.threads[t];
      Inv(State(s.slots[i := Slot(th.key, s.slots[i].val)], s.size, s.threads[t := th.(pc := PutLen(i))],
                s.won[th.key := th.mine], s.wins + 1), hash, base)
  {
    var th, v := s.threads[t], s.slots[i].val;
    var b, th' := s.slots[i := Slot(th.key, v)], th.(pc := PutLen(i));
    assert Knows(s.slots, hash, th);
    ClaimedAlone(s, hash, base, t, i);
    SlotWriteIsPut(s.slots, hash, i, th.key, v, th.pc.p);
    SlotWriteGrows(s.slots, hash, i, th.key, v, th.pc.p);
    PendingUpdate(s.threads, t, th');
    AllKnowAfter(s.slots, b, hash, s.threads, t, th');
    AllOwnedAfter(s.slots, b, s.threads, t, th', i);
    SoleOwnersAfter(s.threads, t, th', i);
    assert th.key !in Pub(s.slots);
    HistoryAfterClaim(Entries(s.slots), Pub(s.slots), s.won, base, th.key, v, th.mine);
    WinnersAfter(s.threads, s.won, t, PutLen(i));
  }

  lemma WinnerStep(s: State, hash: nat -> nat, base: set<nat>, t: nat, pc: Pc, v: Entry)
    requires Inv(s, hash, base) && t < |s.threads|
    requires var th := s.threads[t];
      || (th.pc.PutLen? && pc == PutAddr(th.pc.i) && v == Entry(0, th.mine.len))
      || (th.pc.PutAddr? && pc == Count(th.pc.i) && v == th.mine)
    ensures var th := s.threads[t];
      th.pc.i < |s.slots|
      && Inv(State(s.slots[th.pc.i := Slot(th.key, v)], s.size, s.threads[t := th.(pc := pc)], s.won, s.wins), hash, base)
  {
    var th, i := s.threads[t], s.threads[t].pc.i;
    assert Knows(s.slots, hash, th);
    var b, th' := s.slots[i := Slot(th.key, v)], th.(pc := pc);
    ClaimedAlone(s, hash, base, t, i);
    SlotWriteIsPut(s.slots, hash, i, th.key, v, 0);
    SlotWriteGrows(s.slots, hash, i, th.key, v, 0);
    PendingUpdate(s.threads, t, th');
    AllKnowAfter(s.slots, b, hash, s.threads, t, th');
    AllOwnedAfter(s.slots, b, s.threads, t, th', i);
    SoleOwnersAfter(s.threads, t, th', i);
    HistoryAfterWrite(Entries(s.slots), Pub(s.slots), s.won, base, th.key, v);
    WinnersAfter(s.threads, s.won, t, pc);
    assert s.won[th.key := th.mine] == s.won;
  }

  lemma CountStep(s: State, hash: nat -> nat, base: set<nat>, t: nat)
    requires Inv(s, hash, base) && t < |s.threads| && s.threads[t].pc.Count?
    ensures Inv(Next(s, hash, t), hash, base)
  {
    var th, r := s.threads[t], Next(s, hash, t);
    assert Knows(s.slots, hash, th);
    PublishedAt(s.slots, hash, th.pc.i);
    assert Walked(s.slots, th.key, Some(th.mine), 1);
    PendingUpdate(s.threads, t, r.threads[t]);
    AllOwnedQuietly(s.slots, s.threads, t, r.threads[t]);
  }

  /** A probing, waiting or seeking step moves the thread to a position it may believe in. */
  lemma SearchStep(s: State, hash: nat -> nat, base: set<nat>, t: nat)
    requires Inv(s, hash, base) && t < |s.threads| && !Uncounted(s.threads[t])
    requires s.threads[t].pc.Claim? ==> s.slots[Idx(hash(s.threads[t].key), s.threads[t].pc.p, |s.slots|)].key != 0
    ensures Inv(Next(s, hash, t), hash, base)
  {
    var th := s.threads[t];
    assert Knows(s.slots, hash, th);
    if th.pc.Probe? || th.pc.Claim? {
      ProbeStep(s, hash, t);
    } else if th.pc.Spin? {
      PublishedAt(s.slots, hash, th.pc.i);
    } else if th.pc.Seek? {
      SeekStep(s, hash, t);
    } else if th.pc.SeekAddr? {
      SeekAddrStep(s, hash, t);
    } else if th.pc.SeekLen? {
      HopTaken(s, hash, t);
    }
    SearchMovesOnlyItself(s, hash, t);
    QuietStep(s, hash, base, t, Next(s, hash, t).threads[t]);
  }

  lemma SearchMovesOnlyItself(s: State, hash: nat -> nat, t: nat)
    requires t < |s.threads| && |s.slots| > 0 && !Uncounted(s.threads[t])
    requires s.threads[t].pc.Claim? ==> s.slots[Idx(hash(s.threads[t].key), s.threads[t].pc.p, |s.slots|)].key != 0
    ensures !Uncounted(Next(s, hash, t).threads[t])
    ensures Next(s, hash, t) == s.(threads := s.threads[t := Next(s, hash, t).threads[t]])
  {
  }

  lemma ProbeStep(s: State, hash: nat -> nat, t: nat)
    requires TableOk(s.slots, hash) && t < |s.threads| && (s.threads[t].pc.Probe? || s.threads[t].pc.Claim?)
    requires Knows(s.slots, hash, s.threads[t])
    requires s.threads[t].pc.Claim? ==> s.slots[Idx(hash(s.threads[t].key), s.threads[t].pc.p, |s.slots|)].key != 0
    ensures Knows(s.slots, hash, Next(s, hash, t).threads[t])
  {
    var th := s.threads[t];
    if th.pc.p < |s.slots| && !Stops(s.slots, hash(th.key), th.key, th.pc.p) {
      assert Passed(s.slots, hash, th.key, th.pc.p + 1);
    }
  }

  lemma PublishedAt(slots: Table, hash: nat -> nat, i: nat)
    requires TableOk(slots, hash) && i < |slots| && slots[i].key != 0
    ensures slots[i].key in Entries(slots) && Entries(slots)[slots[i].key] == slots[i].val
    ensures slots[i].val.addr != 0 <==> slots[i].key in Pub(slots)
  {
    WFUnique(slots, hash);
    EntriesAre(slots);
  }

  /** A loser that has seen its key published cannot miss it again. */
  lemma SeekStep(s: State, hash: nat -> nat, t: nat)
    requires TableOk(s.slots, hash) && t < |s.threads| && s.threads[t].pc.Seek?
    requires Knows(s.slots, hash, s.threads[t])
    ensures Knows(s.slots, hash, Next(s, hash, t).threads[t])
  {
    var th := s.threads[t];
    if th.pc.last.None? && th.inserting {
      FindIffEntry(s.slots, hash, th.key);
      var stop := Scan(s.slots, hash(th.key), th.key, 0);
      assert Stops(s.slots, hash(th.key), th.key, stop);
      if th.pc.p < |s.slots| {
        if Stops(s.slots, hash(th.key), th.key, th.pc.p) {
          ScanIs(s.slots, hash(th.key), th.key, th.pc.p);
        } else {
          assert Passed(s.slots, hash, th.key, th.pc.p + 1);
        }
      }
    }
  }

  lemma SeekAddrStep(s: State, hash: nat -> nat, t: nat)
    requires TableOk(s.slots, hash) && t < |s.threads| && s.threads[t].pc.SeekAddr?
    requires Knows(s.slots, hash, s.threads[t])
    ensures Knows(s.slots, hash, Next(s, hash, t).threads[t])
  {
    PublishedAt(s.slots, hash, s.threads[t].pc.i);
  }

  /** The pair read is the published one, and extends the chain walked so far by one hop. */
  lemma HopTaken(s: State, hash: nat -> nat, t: nat)
    requires TableOk(s.slots, hash) && t < |s.threads| && s.threads[t].pc.SeekLen?
    requires Knows(s.slots, hash, s.threads[t])
    ensures Knows(s.slots, hash, Next(s, hash, t).threads[t])
    ensures var th := s.threads[t];
      Target(th) in Pub(s.slots) && Pub(s.slots)[Target(th)] == Entry(th.pc.a, s.slots[th.pc.i].val.len)
  {
    var th := s.threads[t];
    PublishedAt(s.slots, hash, th.pc.i);
    if th.pc.last.None? || th.pc.last.value.addr != th.pc.a {
      assert Hop(Pub(s.slots), th.key, th.pc.hops + 1) == Some(Entry(th.pc.a, s.slots[th.pc.i].val.len));
    }
  }

  /** Every atomic step of every thread keeps the invariant. */
  lemma StepKeepsInv(s: State, hash: nat -> nat, base: set<nat>, act: Action)
    requires Inv(s, hash, base)
    ensures Inv(Apply(s, hash, act), hash, base)
  {
    match act
    case Begin(t, key, mine, inserting) =>
      if Apply(s, hash, act) != s {
        QuietStep(s, hash, base, t, Apply(s, hash, act).threads[t]);
      }
    case Go(t) =>
      if t < |s.threads| {
        GoKeepsInv(s, hash, base, t);
      }
  }

  lemma GoKeepsInv(s: State, hash: nat -> nat, base: set<nat>, t: nat)
    requires Inv(s, hash, base) && t < |s.threads|
    ensures Inv(Next(s, hash, t), hash, base)
  {
    var th := s.threads[t];
    assert Knows(s.slots, hash, th);
    if th.pc.PutLen? || th.pc.PutAddr? {
      var pc := if th.pc.PutLen? then PutAddr(th.pc.i) else Count(th.pc.i);
      var v := if th.pc.PutLen? then Entry(0, th.mine.len) else th.mine;
      WinnerStep(s, hash, base, t, pc, v);
      WinnerNext(s, hash, t, pc, v);
    } else if th.pc.Count? {
      CountStep(s, hash, base, t);
    } else if th.pc.Claim? && s.slots[Idx(hash(th.key), th.pc.p, |s.slots|)].key == 0 {
      ClaimStep(s, hash, base, t, Idx(hash(th.key), th.pc.p, |s.slots|));
    } else {
      SearchStep(s, hash, base, t);
    }
  }

  lemma WinnerNext(s: State, hash: nat -> nat, t: nat, pc: Pc, v: Entry)
    requires |s.slots| > 0 && t < |s.threads|
    requires var th := s.threads[t];
      && Uncounted(th) && Holds(s.slots, th.pc.i, th.key) && s.slots[th.pc.i].val.addr == 0
      && ((th.pc.PutLen? && pc == PutAddr(th.pc.i) && v == Entry(0, th.mine.len))
          || (th.pc.PutAddr? && s.slots[th.pc.i].val.len == th.mine.len && pc == Count(th.pc.i) && v == th.mine))
    ensures var th := s.threads[t];
      Next(s, hash, t) == State(s.slots[th.pc.i := Slot(th.key, v)], s.size, s.threads[t := th.(pc := pc)], s.won, s.wins)
  {
  }

  // ------------------------------------------------------------------ over whole runs

  lemma InitialInv(s: State, hash: nat -> nat)
    requires Initial(s, hash)
    ensures Inv(s, hash, Entries(s.slots).Keys)
  {
    NothingPending(s.threads);
  }

  lemma {:induction false} NothingPending(threads: seq<Thread>)
    requires forall t | 0 <= t < |threads| :: !Uncounted(threads[t])
    ensures Pending(threads) == 0
  {
    if threads != [] {
      assert forall t | 0 <= t < |threads| - 1 :: threads[..|threads| - 1][t] == threads[t];
      NothingPending(threads[..|threads| - 1]);
    }
  }

  lemma {:induction false} RunKeepsInv(s: State, hash: nat -> nat, base: set<nat>, acts: seq<Action>)
    requires Inv(s, hash, base)
    ensures Inv(Run(s, hash, acts), hash, base)
  {
    if acts != [] {
      RunKeepsInv(s, hash, base, acts[..|acts| - 1]);
      StepKeepsInv(Run(s, hash, acts[..|acts| - 1]), hash, base, acts[|acts| - 1]);
    }
  }

  /**
    In every interleaving each key is claimed exactly once: there were as many successful CASes
    as there are new keys, none of them for a key already present, and each new key that is
    visible maps to exactly the pair its one winner brought.
   */
  lemma ClaimedExactlyOnce(s: State, hash: nat -> nat, acts: seq<Action>)
    requires Initial(s, hash)
    ensures var r := Run(s, hash, acts);
      && Entries(r.slots).Keys == Entries(s.slots).Keys + r.won.Keys
      && Entries(s.slots).Keys !! r.won.Keys
      && r.wins == |r.won|
      && |Entries(r.slots)| == |Entries(s.slots)| + r.wins
      && (forall k | k in r.won && k in Pub(r.slots) :: Pub(r.slots)[k] == r.won[k])
  {
    InitialInv(s, hash);
    RunKeepsInv(s, hash, Entries(s.slots).Keys, acts);
    var r := Run(s, hash, acts);
    CountWins(Entries(r.slots), Pub(r.slots), r.won, Entries(s.slots));
  }

  lemma CountWins(entries: Fwd, pub: Fwd, won: map<nat, Entry>, before: Fwd)
    requires HistoryOk(entries, pub, won, before.Keys)
    ensures entries.Keys == before.Keys + won.Keys && before.Keys !! won.Keys
    ensures |entries| == |before| + |won|
  {
    var e, b, w := entries.Keys, before.Keys, won.Keys;
    assert e == b + w && b !! w by {
      assert forall k :: k in e <==> k in b || k in w;
      assert forall k | k in w :: k !in b;
    }
    UnionSize(b, w);
  }

  lemma UnionSize(b: set<nat>, w: set<nat>)
    requires b !! w
    ensures |b + w| == |b| + |w|
  {
  }

  /**
    Every non-NULL answer for a key is a whole published hop of that key's chain, so all
    answers denote the same object; answers whose destinations have not moved on are equal.
   */
  lemma AnswersAgree(s: State, hash: nat -> nat, acts: seq<Action>, t: nat, u: nat)
    requires Initial(s, hash) && t < |s.threads| && u < |s.threads|
    requires Run(s, hash, acts).threads[t].pc.Done? && Run(s, hash, acts).threads[t].pc.r.Some?
    requires Run(s, hash, acts).threads[u].pc.Done? && Run(s, hash, acts).threads[u].pc.r.Some?
    requires Run(s, hash, acts).threads[t].key == Run(s, hash, acts).threads[u].key
    ensures var r := Run(s, hash, acts);
      var v, k, x, y := Pub(r.slots), r.threads[t].key, r.threads[t].pc, r.threads[u].pc;
      && Hop(v, k, x.hops) == x.r && Hop(v, k, y.hops) == y.r
      && (Final(v, x.r.value.addr) && Final(v, y.r.value.addr) ==> x.r == y.r)
  {
    InitialInv(s, hash);
    RunKeepsInv(s, hash, Entries(s.slots).Keys, acts);
    var r := Run(s, hash, acts);
    assert Knows(r.slots, hash, r.threads[t]) && Knows(r.slots, hash, r.threads[u]);
    TwoAnswers(r.slots, hash, r.threads[t], r.threads[u]);
  }

  lemma TwoAnswers(slots: Table, hash: nat -> nat, x: Thread, y: Thread)
    requires |slots| > 0 && Knows(slots, hash, x) && Knows(slots, hash, y)
    requires x.pc.Done? && x.pc.r.Some? && y.pc.Done? && y.pc.r.Some? && x.key == y.key
    ensures Hop(Pub(slots), x.key, x.pc.hops) == x.pc.r && Hop(Pub(slots), x.key, y.pc.hops) == y.pc.r
    ensures Final(Pub(slots), x.pc.r.value.addr) && Final(Pub(slots), y.pc.r.value.addr) ==> x.pc.r == y.pc.r
  {
    DoneIsOnChain(slots, hash, x);
    DoneIsOnChain(slots, hash, y);
    OneEnd(Pub(slots), x.key, x.pc.hops, y.pc.hops);
    OneEnd(Pub(slots), x.key, y.pc.hops, x.pc.hops);
  }

  lemma DoneIsOnChain(slots: Table, hash: nat -> nat, th: Thread)
    requires |slots| > 0 && Knows(slots, hash, th) && th.pc.Done? && th.pc.r.Some?
    ensures Hop(Pub(slots), th.key, th.pc.hops) == th.pc.r
  {
    assert Walked(slots, th.key, th.pc.r, th.pc.hops);
  }

  lemma OneEnd(v: Fwd, k: nat, m: nat, n: nat)
    requires Hop(v, k, m).Some? && Hop(v, k, n).Some?
    ensures Final(v, Hop(v, k, m).value.addr) ==> n <= m
  {
    if m < n {
      HopDefinedBelow(v, k, m + 1, n);
    }
  }

  /** `cas_insert` returns NULL only from a table full of other keys, or from too long a chain. */
  lemma NullIsNeverSpurious(s: State, hash: nat -> nat, acts: seq<Action>, t: nat)
    requires Initial(s, hash) && t < |s.threads|
    requires Run(s, hash, acts).threads[t].inserting && AtRest(Run(s, hash, acts).threads[t].pc)
    ensures var r := Run(s, hash, acts);
      var th := r.threads[t];
      th.pc.Idle? || th.pc.TooLong? || (th.pc.Done? && th.pc.r.Some?)
      || (th.pc.Full? && th.key !in Entries(r.slots) && |Entries(r.slots)| == |r.slots|)
  {
    var r := Run(s, hash, acts);
    InitialInv(s, hash);
    RunKeepsInv(s, hash, Entries(s.slots).Keys, acts);
    assert Knows(r.slots, hash, r.threads[t]);
    if r.threads[t].pc.Full? {
      ScanIs(r.slots, hash(r.threads[t].key), r.threads[t].key, |r.slots|);
      ExhaustedMeansFull(r.slots, hash, r.threads[t].key);
    }
  }

  lemma AllPublished(s: State, hash: nat -> nat, base: set<nat>, k: nat)
    requires Inv(s, hash, base) && k in Entries(s.slots)
    requires forall t | 0 <= t < |s.threads| :: !Uncounted(s.threads[t])
    ensures k in Pub(s.slots)
  {
    WFUnique(s.slots, hash);
    EntriesAre(s.slots);
    var j: nat :| j < |s.slots| && s.slots[j].key == k;
    assert forall t | 0 <= t < |s.threads| :: !Owner(s.threads[t], j);
    assert !HasOwner(s.threads, j);
  }

  /** Once all threads are at rest, everything claimed is visible and `g_size` is exact. */
  lemma Quiescent(s: State, hash: nat -> nat, acts: seq<Action>)
    requires Initial(s, hash)
    requires forall t | 0 <= t < |s.threads| :: AtRest(Run(s, hash, acts).threads[t].pc)
    ensures var r := Run(s, hash, acts);
      r.size == Occupied(r.slots) == |Entries(r.slots)| && Pub(r.slots) == Entries(r.slots)
  {
    InitialInv(s, hash);
    RunKeepsInv(s, hash, Entries(s.slots).Keys, acts);
    QuiescentIn(Run(s, hash, acts), hash, Entries(s.slots).Keys);
  }

  lemma QuiescentIn(r: State, hash: nat -> nat, base: set<nat>)
    requires Inv(r, hash, base) && forall t | 0 <= t < |r.threads| :: AtRest(r.threads[t].pc)
    ensures r.size == Occupied(r.slots) == |Entries(r.slots)| && Pub(r.slots) == Entries(r.slots)
  {
    NothingPending(r.threads);
    WFUnique(r.slots, hash);
    EntriesAre(r.slots);
    forall k | k in Entries(r.slots)
      ensures k in Pub(r.slots)
    {
      AllPublished(r, hash, base, k);
    }
  }

  lemma OwnerPublishesInTwo(s: State, hash: nat -> nat, u: nat, i: nat)
    requires u < |s.threads| && i < |s.slots| && Owner(s.threads[u], i) && s.threads[u].mine.addr != 0
    ensures Next(Next(s, hash, u), hash, u).slots[i].val.addr != 0
  {
    var r := Next(s, hash, u);
    assert r.threads[u].mine == s.threads[u].mine && |r.slots| == |s.slots|;
    if s.threads[u].pc.PutLen? {
      assert r.threads[u].pc == PutAddr(i);
    } else {
      assert r.threads[u].pc == Count(i) && r.slots[i].val.addr != 0;
    }
  }

  /** A waiting loser always has a winner whose next two steps let it go on. */
  lemma SpinnerIsReleased(s: State, hash: nat -> nat, acts: seq<Action>, t: nat) returns (u: nat)
    requires Initial(s, hash) && t < |s.threads| && Run(s, hash, acts).threads[t].pc.Spin?
    ensures u < |s.threads|
    ensures var r := Run(s, hash, acts);
      var i := r.threads[t].pc.i;
      i < |r.slots| && (r.slots[i].val.addr != 0 || Next(Next(r, hash, u), hash, u).slots[i].val.addr != 0)
  {
    InitialInv(s, hash);
    RunKeepsInv(s, hash, Entries(s.slots).Keys, acts);
    u := Releaser(Run(s, hash, acts), hash, t);
  }

  lemma Releaser(r: State, hash: nat -> nat, t: nat) returns (u: nat)
    requires |r.slots| > 0 && AllKnow(r.slots, hash, r.threads) && AllOwned(r.slots, r.threads)
    requires t < |r.threads| && r.threads[t].pc.Spin?
    ensures u < |r.threads| && r.threads[t].pc.i < |r.slots|
    ensures var i := r.threads[t].pc.i;
      r.slots[i].val.addr != 0 || Next(Next(r, hash, u), hash, u).slots[i].val.addr != 0
  {
    assert Knows(r.slots, hash, r.threads[t]);
    var i := r.threads[t].pc.i;
    u := t;
    if r.slots[i].val.addr == 0 {
      assert HasOwner(r.threads, i);
      u :| 0 <= u < |r.threads| && Owner(r.threads[u], i);
      assert Knows(r.slots, hash, r.threads[u]);
      OwnerPublishesInTwo(r, hash, u, i);
    }
  }

  // ------------------------------------------------------------------ a hidden key

  /** Slot `i` holds a key with address 0 that no winner is about to publish: a NULL insertion. */
  ghost predicate Hidden(s: State, i: nat) {
    && i < |s.slots| && s.slots[i].key != 0 && s.slots[i].val.addr == 0
    && forall t | 0 <= t < |s.threads| && Uncounted(s.threads[t]) :: s.threads[t].pc.i != i
  }

  lemma GoLeavesHidden(s: State, hash: nat -> nat, t: nat, i: nat)
    requires Hidden(s, i) && t < |s.threads|
    ensures var r := Next(s, hash, t);
      && r.slots[i] == s.slots[i]
      && (Uncounted(r.threads[t]) ==> r.threads[t].pc.i != i)
      && forall u | 0 <= u < |s.threads| && u != t :: r.threads[u] == s.threads[u]
  {
    assert Uncounted(s.threads[t]) ==> s.threads[t].pc.i != i;
  }

  lemma HiddenStays(s: State, hash: nat -> nat, act: Action, i: nat)
    requires Hidden(s, i)
    ensures Hidden(Apply(s, hash, act), i)
  {
    if act.Go? && act.t < |s.threads| {
      GoLeavesHidden(s, hash, act.t, i);
    }
  }

  /** A caller that waits on a hidden slot waits in every continuation. */
  lemma {:induction false} HiddenKeySpinsForever(s: State, hash: nat -> nat, t: nat, acts: seq<Action>)
    requires t < |s.threads| && s.threads[t].pc.Spin? && Hidden(s, s.threads[t].pc.i)
    ensures Run(s, hash, acts).threads[t] == s.threads[t] && Hidden(Run(s, hash, acts), s.threads[t].pc.i)
  {
    if acts != [] {
      var m := |acts| - 1;
      HiddenKeySpinsForever(s, hash, t, acts[..m]);
      HiddenStays(Run(s, hash, acts[..m]), hash, acts[m], s.threads[t].pc.i);
      SpinnerWaits(Run(s, hash, acts[..m]), hash, t, acts[m]);
    }
  }

  lemma SpinnerWaits(s: State, hash: nat -> nat, t: nat, act: Action)
    requires t < |s.threads| && s.threads[t].pc.Spin? && Hidden(s, s.threads[t].pc.i)
    ensures Apply(s, hash, act).threads[t] == s.threads[t]
  {
  }

  // ------------------------------------------------------------------ when insert-or-get returns

  /** `n` steps of thread `t` alone. */
  function Alone(t: nat, n: nat): seq<Action> {
    seq(n, _ => Go(t))
  }

  lemma AloneStep(s: State, hash: nat -> nat, t: nat, n: nat)
    requires t < |s.threads| && |s.slots| > 0
    ensures Run(s, hash, Alone(t, n + 1)) == Next(Run(s, hash, Alone(t, n)), hash, t)
  {
    assert Alone(t, n + 1)[..n] == Alone(t, n);
  }

  lemma {:induction false} AloneLater(s: State, hash: nat -> nat, t: nat, n: nat)
    requires t < |s.threads| && |s.slots| > 0
    ensures Run(s, hash, Alone(t, n + 1)) == Run(Next(s, hash, t), hash, Alone(t, n))
  {
    AloneStep(s, hash, t, n);
    if n > 0 {
      AloneLater(s, hash, t, n - 1);
      AloneStep(Next(s, hash, t), hash, t, n - 1);
    } else {
      assert Alone(t, 0) == [];
    }
  }

  /** Running alone, the call comes back. */
  ghost predicate Returns(s: State, hash: nat -> nat, t: nat)
    requires t < |s.threads| && |s.slots| > 0
  {
    exists n :: AtRest(Run(s, hash, Alone(t, n)).threads[t].pc)
  }

  /** The thread has just called insert-or-get. */
  predicate Called(s: State, t: nat) {
    t < |s.threads| && s.threads[t].inserting && s.threads[t].key != 0 && s.threads[t].pc == Probe(0)
  }

  /** The thread is at, or on its probe run to, a slot that holds its key with address 0. */
  ghost predicate Stuck(s: State, hash: nat -> nat, t: nat) {
    && t < |s.threads| && |s.slots| > 0
    && var th := s.threads[t];
       var stop := Scan(s.slots, hash(th.key), th.key, 0);
       && stop < |s.slots|
       && s.slots[Idx(hash(th.key), stop, |s.slots|)].key == th.key != 0
       && s.slots[Idx(hash(th.key), stop, |s.slots|)].val.addr == 0
       && (th.pc == Spin(Idx(hash(th.key), stop, |s.slots|)) || (th.pc.Probe? && th.pc.p <= stop))
  }

  lemma StuckStep(s: State, hash: nat -> nat, t: nat)
    requires Stuck(s, hash, t)
    ensures var r := Next(s, hash, t);
      && Stuck(r, hash, t) && r.slots == s.slots && r.threads[t].key == s.threads[t].key
      && forall u | 0 <= u < |s.threads| && u != t :: r.threads[u] == s.threads[u]
    ensures var th, stop := s.threads[t], Scan(s.slots, hash(s.threads[t].key), s.threads[t].key, 0);
      th.pc.Probe? ==>
        Next(s, hash, t).threads[t].pc
        == if th.pc.p < stop then Probe(th.pc.p + 1) else Spin(Idx(hash(th.key), stop, |s.slots|))
  {
    var th := s.threads[t];
    if th.pc.Probe? && th.pc.p < Scan(s.slots, hash(th.key), th.key, 0) {
      assert !Stops(s.slots, hash(th.key), th.key, th.pc.p);
    }
  }

  lemma {:induction false} StuckStays(s: State, hash: nat -> nat, t: nat, n: nat)
    requires Stuck(s, hash, t)
    ensures Stuck(Run(s, hash, Alone(t, n)), hash, t)
  {
    if n > 0 {
      StuckStays(s, hash, t, n - 1);
      AloneStep(s, hash, t, n - 1);
      StuckStep(Run(s, hash, Alone(t, n - 1)), hash, t);
    } else {
      assert Alone(t, 0) == [];
    }
  }

  lemma CalledIsStuck(s: State, hash: nat -> nat, t: nat)
    requires WF(s.slots, hash) && Called(s, t)
    requires s.threads[t].key in Entries(s.slots) && Entries(s.slots)[s.threads[t].key].addr == 0
    ensures Stuck(s, hash, t)
  {
    FindIffEntry(s.slots, hash, s.threads[t].key);
  }

  /** Every slot that holds `k` has been published. */
  ghost predicate Answerable(slots: Table, k: nat) {
    forall j | 0 <= j < |slots| && slots[j].key == k :: slots[j].val.addr != 0
  }

  /** From here a thread running alone meets no unpublished slot. */
  ghost predicate Moving(s: State, hash: nat -> nat, t: nat) {
    && t < |s.threads| && |s.slots| > 0
    && var n, k := |s.slots|, s.threads[t].key;
       match s.threads[t].pc
       case Probe(p) => p <= n && Answerable(s.slots, k)
       case Claim(p) => p < n && Answerable(s.slots, k)
       case PutLen(i) => i < n
       case PutAddr(i) => i < n
       case Count(i) => true
       case Spin(i) => i < n && s.slots[i].val.addr != 0
       case Seek(last, hops, p) => hops <= CHASE_MAX && p <= n
       case SeekAddr(last, hops, i) => hops <= CHASE_MAX && i < n
       case SeekLen(last, hops, i, a) => hops <= CHASE_MAX && i < n
       case _ => true
  }

  /** Stages of a call, from its last to its first. */
  function Stage(pc: Pc): nat {
    match pc
    case Probe(_) => 6
    case Claim(_) => 6
    case PutLen(_) => 5
    case PutAddr(_) => 4
    case Count(_) => 3
    case Spin(_) => 2
    case Seek(_, _, _) => 1
    case SeekAddr(_, _, _) => 1
    case SeekLen(_, _, _, _) => 1
    case _ => 0
  }

  /** Hops left in the chase. */
  function HopsLeft(pc: Pc): nat {
    var hops := if pc.Seek? || pc.SeekAddr? || pc.SeekLen? then pc.hops else 0;
    if hops <= CHASE_MAX then CHASE_MAX - hops else 0
  }

  /** Work left in the present probe run. */
  function ProbesLeft(pc: Pc, n: nat): nat {
    match pc
    case Probe(p) => if p <= n then 2 * (n - p) + 3 else 0
    case Claim(p) => if p <= n then 2 * (n - p) + 2 else 0
    case Seek(_, _, p) => if p <= n then n - p + 3 else 0
    case SeekAddr(_, _, _) => 2
    case SeekLen(_, _, _, _) => 1
    case _ => 0
  }

  /** Less work is left at `y` than at `x`. */
  predicate Nearer(y: Pc, x: Pc, n: nat) {
    || Stage(y) < Stage(x)
    || (Stage(y) == Stage(x) && HopsLeft(y) < HopsLeft(x))
    || (Stage(y) == Stage(x) && HopsLeft(y) == HopsLeft(x) && ProbesLeft(y, n) < ProbesLeft(x, n))
  }

  lemma ProbeMoves(s: State, hash: nat -> nat, t: nat)
    requires Moving(s, hash, t) && (s.threads[t].pc.Probe? || s.threads[t].pc.Claim?)
    ensures Moving(Next(s, hash, t), hash, t) && Nearer(Next(s, hash, t).threads[t].pc, s.threads[t].pc, |s.slots|)
  {
  }

  lemma WinnerMoves(s: State, hash: nat -> nat, t: nat)
    requires Moving(s, hash, t)
    requires var pc := s.threads[t].pc; pc.PutLen? || pc.PutAddr? || pc.Count? || pc.Spin?
    ensures Moving(Next(s, hash, t), hash, t) && Nearer(Next(s, hash, t).threads[t].pc, s.threads[t].pc, |s.slots|)
  {
  }

  lemma SeekMoves(s: State, hash: nat -> nat, t: nat)
    requires Moving(s, hash, t)
    requires var pc := s.threads[t].pc; pc.Seek? || pc.SeekAddr? || pc.SeekLen?
    ensures Moving(Next(s, hash, t), hash, t) && Nearer(Next(s, hash, t).threads[t].pc, s.threads[t].pc, |s.slots|)
  {
  }

  lemma MovingStep(s: State, hash: nat -> nat, t: nat)
    requires Moving(s, hash, t) && !AtRest(s.threads[t].pc)
    ensures Moving(Next(s, hash, t), hash, t) && Nearer(Next(s, hash, t).threads[t].pc, s.threads[t].pc, |s.slots|)
  {
    var pc := s.threads[t].pc;
    hide Moving, Next, Nearer;
    if pc.Probe? || pc.Claim? {
      ProbeMoves(s, hash, t);
    } else if pc.Seek? || pc.SeekAddr? || pc.SeekLen? {
      SeekMoves(s, hash, t);
    } else {
      WinnerMoves(s, hash, t);
    }
  }

  lemma {:induction false} MovingReturns(s: State, hash: nat -> nat, t: nat) returns (n: nat)
    requires Moving(s, hash, t)
    ensures AtRest(Run(s, hash, Alone(t, n)).threads[t].pc)
    decreases Stage(s.threads[t].pc), HopsLeft(s.threads[t].pc), ProbesLeft(s.threads[t].pc, |s.slots|)
  {
    n := 0;
    assert Alone(t, 0) == [];
    if !AtRest(s.threads[t].pc) {
      MovingStep(s, hash, t);
      n := MovingReturns(Next(s, hash, t), hash, t);
      AloneLater(s, hash, t, n);
      n := n + 1;
    }
  }

  /**
    Insert-or-get, running alone, comes back if and only if its key is not in the table or is
    there with a nonzero address; a key deleted by inserting NULL makes it wait.
   */
  lemma ReturnsIff(s: State, hash: nat -> nat, t: nat)
    requires WF(s.slots, hash) && Called(s, t)
    ensures Returns(s, hash, t)
       <==> (s.threads[t].key !in Entries(s.slots) || Entries(s.slots)[s.threads[t].key].addr != 0)
  {
    var k := s.threads[t].key;
    if k in Entries(s.slots) && Entries(s.slots)[k].addr == 0 {
      CalledIsStuck(s, hash, t);
      forall n
        ensures !AtRest(Run(s, hash, Alone(t, n)).threads[t].pc)
      {
        StuckStays(s, hash, t, n);
      }
    } else {
      WFUnique(s.slots, hash);
      EntriesAre(s.slots);
      var n := MovingReturns(s, hash, t);
    }
  }

  lemma {:induction false} StuckSpins(s: State, hash: nat -> nat, t: nat) returns (n: nat)
    requires Stuck(s, hash, t)
    ensures var r := Run(s, hash, Alone(t, n));
      && Stuck(r, hash, t) && r.threads[t].pc.Spin? && r.slots == s.slots
      && forall u | 0 <= u < |s.threads| && u != t :: r.threads[u] == s.threads[u]
    decreases if s.threads[t].pc.Probe? then |s.slots| + 1 - s.threads[t].pc.p else 0
  {
    n := 0;
    assert Alone(t, 0) == [];
    if s.threads[t].pc.Probe? {
      StuckStep(s, hash, t);
      n := StuckSpins(Next(s, hash, t), hash, t);
      AloneLater(s, hash, t, n);
      n := n + 1;
    }
  }

  /**
    The run that shows it: a table in which NULL was inserted for `k`, nobody about to publish, one
    call for `k`. The caller comes to wait for an address, and goes on waiting whatever the
    others do.
   */
  lemma NullInsertThenCallWaits(s: State, hash: nat -> nat, before: Table, k: nat, len: nat, t: nat, more: seq<Action>)
    returns (n: nat)
    requires WF(before, hash) && k != 0 && (k in Entries(before) || |Entries(before)| < |before|)
    requires s.slots == Put(before, hash, k, Entry(0, len))
    requires Called(s, t) && s.threads[t].key == k
    requires forall u | 0 <= u < |s.threads| :: !Uncounted(s.threads[u])
    ensures Run(Run(s, hash, Alone(t, n)), hash, more).threads[t].pc.Spin?
  {
    PutCorrect(before, hash, k, Entry(0, len));
    CalledIsStuck(s, hash, t);
    n := StuckSpins(s, hash, t);
    var r := Run(s, hash, Alone(t, n));
    assert Hidden(r, r.threads[t].pc.i);
    HiddenKeySpinsForever(r, hash, t, more);
  }
}
