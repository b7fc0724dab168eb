/**
  Evacuation as the fault handler sees it: a mutator dereferences a captured, revoked reference
  anywhere inside an object. Either the object has been published and the forwarding table leads
  to its copy, or the hook is asked and answers with it; the patched register points at the same
  byte of that copy.
 */
module EvacuationHeal {
  import opened Prelude
  import opened Representable
  import opened Cheri
  import opened Chase
  import opened ForwardTable
  import opened Handler
  import opened Evacuation

  /** Where the source objects start, and the destination arena. */
  datatype Arenas = Arenas(src: nat, dst: Cap)

  ghost predicate ArenasOk(c: Config, m: Arenas) {
    && RootOk(m.dst) && 0 < c.cells && c.cells * OBJ <= m.dst.len && |c.src| <= c.cells
    && 0 < m.src && m.src + c.cells * OBJ < WORD
    && (m.src + c.cells * OBJ <= m.dst.base || m.dst.base + m.dst.len <= m.src)
  }

  function SourceAt(m: Arenas, i: nat): nat {
    m.src + i * OBJ
  }

  /** Where the copy in a destination slot starts. */
  function CopyAt(c: Config, m: Arenas, slot: nat): nat
    requires c.cells > 0
  {
    m.dst.base + Pos(c.cells, slot, 0)
  }

  /** What `my_evacuate` answers for an address once the object it is in has been published. */
  function Answer(c: Config, s: State, m: Arenas, from: nat): Cap
    requires c.cells > 0
  {
    match IndexOf(c, m.src, from)
    case None => NULL
    case Some(i) => if i in s.fwd then ObjCap(m.dst, CopyAt(c, m, s.fwd[i]), OBJ) else NULL
  }

  /** The forwarding table with the mappings in `seen`. */
  function Filed(c: Config, seen: map<nat, nat>, m: Arenas): (v: Fwd)
    requires c.cells > 0
    ensures forall i | i in seen :: SourceAt(m, i) in v && v[SourceAt(m, i)] == Entry(CopyAt(c, m, seen[i]), OBJ)
    ensures forall k | k in v :: exists i {:trigger SourceAt(m, i)} :: i in seen && k == SourceAt(m, i)
  {
    map i | i in seen :: SourceAt(m, i) := Entry(CopyAt(c, m, seen[i]), OBJ)
  }

  /**
    The handler with the hook installed: it looked `seen` up in the table, and asked the hook,
    which answers as things stand in `s`.
   */
  function Wired(c: Config, seen: map<nat, nat>, s: State, m: Arenas): Resolver
    requires c.cells > 0
  {
    Resolver(Some(m.dst), Filed(c, seen, m), Some((from: nat) => Answer(c, s, m, from)))
  }

  /** Every mapping the handler saw is still there, and its objects are objects. */
  ghost predicate SeenBefore(c: Config, seen: map<nat, nat>, s: State) {
    forall i | i in seen :: i < |c.src| && i in s.fwd && s.fwd[i] == seen[i]
  }

  /** A captured reference to byte `off` of object `i`, after the sweep. */
  function Captured(m: Arenas, i: nat, off: nat, perms: set<Perm>): Cap {
    Cap(false, SourceAt(m, i), OBJ, SourceAt(m, i) + off, perms)
  }

  // ------------------------------------------------------------------ where things are

  lemma SlotInside(c: Config, m: Arenas, slot: nat, off: nat)
    requires ArenasOk(c, m) && off < OBJ
    ensures Pos(c.cells, slot, off) == Pos(c.cells, slot, 0) + off
    ensures CopyAt(c, m, slot) + OBJ <= m.dst.base + m.dst.len < WORD
  {
    PosIs(c.cells, slot, 0);
    PosIs(c.cells, slot, off);
    PosInside(c.cells, slot, OBJ - 1);
    PosIs(c.cells, slot, OBJ - 1);
  }

  lemma SourceInside(c: Config, m: Arenas, i: nat)
    requires ArenasOk(c, m) && i < |c.src|
    ensures m.src <= SourceAt(m, i) && SourceAt(m, i) + OBJ <= m.src + c.cells * OBJ
  {
    assert (i + 1) * OBJ <= c.cells * OBJ;
  }

  /** No copy starts where a source object does. */
  lemma CopiesAreNotSources(c: Config, m: Arenas, seen: map<nat, nat>, s: State, slot: nat)
    requires ArenasOk(c, m) && SeenBefore(c, seen, s)
    ensures CopyAt(c, m, slot) !in Filed(c, seen, m)
  {
    SlotInside(c, m, slot, 0);
    forall i | i in seen
      ensures CopyAt(c, m, slot) != SourceAt(m, i)
    {
      SourceInside(c, m, i);
    }
    hide CopyAt, SourceAt;
  }

  lemma ObjIsAligned()
    ensures Align(OBJ) == 1
  {
    assert Pow2(7) == OBJ;
    BitLenExact(OBJ, 7);
  }

  lemma CopyIsDerived(c: Config, m: Arenas, slot: nat)
    requires ArenasOk(c, m)
    ensures var h := ObjCap(m.dst, CopyAt(c, m, slot), OBJ);
      FtDerive(Some(m.dst), CopyAt(c, m, slot), OBJ) == h && Live(h) && !IsNull(h)
  {
    SlotInside(c, m, slot, 0);
    ObjIsAligned();
    MultipleHasNoRemainder(CopyAt(c, m, slot), 1);
    MultipleHasNoRemainder(OBJ, 1);
    DerivePlaced(m.dst, CopyAt(c, m, slot), OBJ);
  }

  // ------------------------------------------------------------------ what the handler finds

  /** The table leads from the start of a published object to its copy. */
  lemma TableLeadsToCopy(c: Config, seen: map<nat, nat>, s: State, m: Arenas, i: nat)
    requires ArenasOk(c, m) && SeenBefore(c, seen, s) && i in seen
    ensures Resolve(Wired(c, seen, s, m), SourceAt(m, i)) == ObjCap(m.dst, CopyAt(c, m, s.fwd[i]), OBJ)
  {
    var v := Filed(c, seen, m);
    CopiesAreNotSources(c, m, seen, s, s.fwd[i]);
    CopyIsDerived(c, m, s.fwd[i]);
    assert v[SourceAt(m, i)] == Entry(CopyAt(c, m, s.fwd[i]), OBJ);
    assert ChaseFrom(v, v[SourceAt(m, i)], 0) == Some(v[SourceAt(m, i)]);
  }

  /** An address in an object that was not seen is not in the table. */
  lemma UnseenMisses(c: Config, seen: map<nat, nat>, s: State, m: Arenas, from: nat)
    requires ArenasOk(c, m) && SeenBefore(c, seen, s)
    requires IndexOf(c, m.src, from).Some? ==> IndexOf(c, m.src, from).value !in seen
    ensures IsNull(Resolve(Wired(c, seen, s, m), from))
  {
    if from in Filed(c, seen, m) {
      var i :| i in seen && from == SourceAt(m, i);
      IndexOfIff(c, m.src, from, i);
    }
  }

  lemma AnswerIsCopy(c: Config, s: State, m: Arenas, i: nat)
    requires ArenasOk(c, m) && i < |c.src| && i in s.fwd
    ensures Answer(c, s, m, SourceAt(m, i)) == ObjCap(m.dst, CopyAt(c, m, s.fwd[i]), OBJ)
  {
    IndexOfIff(c, m.src, SourceAt(m, i), i);
  }

  /** An object the handler has not seen is asked of the hook. */
  lemma HookIsAsked(c: Config, seen: map<nat, nat>, s: State, m: Arenas, i: nat, off: nat, perms: set<Perm>)
    requires ArenasOk(c, m) && SeenBefore(c, seen, s) && i < |c.src| && i in s.fwd && i !in seen && off < OBJ
    ensures var f, stale := Wired(c, seen, s, m), Captured(m, i, off, perms);
      AsksHook(f, stale) && f.evacuate.value(stale.base) == ObjCap(m.dst, CopyAt(c, m, s.fwd[i]), OBJ)
  {
    hide Answer, Filed, SeenBefore, IndexOf, Resolve;
    var stale := Captured(m, i, off, perms);
    AnswerIsCopy(c, s, m, i);
    IndexOfIff(c, m.src, stale.base, i);
    IndexOfIff(c, m.src, stale.addr, i);
    UnseenMisses(c, seen, s, m, stale.base);
    UnseenMisses(c, seen, s, m, stale.addr);
  }

  /** An object the handler has seen is found by its base. */
  lemma TableHeals(c: Config, seen: map<nat, nat>, s: State, m: Arenas, i: nat, off: nat, perms: set<Perm>)
    requires ArenasOk(c, m) && SeenBefore(c, seen, s) && i in seen && off < OBJ
    ensures var h := ObjCap(m.dst, CopyAt(c, m, s.fwd[i]), OBJ);
      TryReg(Wired(c, seen, s, m), Captured(m, i, off, perms)) == Some(h.(addr := h.base + off))
  {
    TableLeadsToCopy(c, seen, s, m, i);
    SlotInside(c, m, s.fwd[i], off);
    CopyIsDerived(c, m, s.fwd[i]);
    hide CopyAt, Wired, Resolve, ArenasOk, SeenBefore;
    CarriedOver(ObjCap(m.dst, CopyAt(c, m, s.fwd[i]), OBJ), off);
  }

  /**
    The healed register is live, bounded to the published copy, and points at the same byte of
    it, whether the handler already found the mapping or had to ask the hook for it.
   */
  lemma HealedPointsAtByte(c: Config, seen: map<nat, nat>, s: State, m: Arenas, i: nat, off: nat, perms: set<Perm>)
    requires ArenasOk(c, m) && SeenBefore(c, seen, s) && i < |c.src| && i in s.fwd && off < OBJ
    ensures var heal := TryReg(Wired(c, seen, s, m), Captured(m, i, off, perms));
      && heal.Some? && Live(heal.value)
      && heal.value.base == m.dst.base + Pos(c.cells, s.fwd[i], 0) && heal.value.len == OBJ
      && heal.value.addr == m.dst.base + Pos(c.cells, s.fwd[i], off)
      && heal.value.base <= heal.value.addr < heal.value.base + heal.value.len
  {
    assert c.cells > 0;
    SlotInside(c, m, s.fwd[i], off);
    CopyIsDerived(c, m, s.fwd[i]);
    hide ArenasOk, SeenBefore, Pos, TryReg, Wired, FtDerive;
    if i in seen {
      TableHeals(c, seen, s, m, i, off, perms);
    } else {
      HookIsAsked(c, seen, s, m, i, off, perms);
      HookGivesOffset(Wired(c, seen, s, m), Captured(m, i, off, perms));
    }
  }

  lemma CarriedOver(h: Cap, off: nat)
    requires Live(h) && 0 < h.addr == h.base && h.base + h.len < WORD && off < h.len
    ensures U64(off) == off && WithOffset(h, off) == Some(h.(addr := h.base + off))
  {
    U64Small(off);
    U64Small(h.base + off);
  }

  /** Mappings stay as they are. */
  lemma {:induction false} SeenStays(c: Config, s: State, acts: seq<Action>, n: nat)
    requires c.cells > 0 && n <= |acts|
    ensures forall i | i in Run(c, s, acts[..n]).fwd ::
      i in Run(c, s, acts).fwd && Run(c, s, acts).fwd[i] == Run(c, s, acts[..n]).fwd[i]
  {
    if n < |acts| {
      var m := |acts| - 1;
      assert acts[..m][..n] == acts[..n];
      SeenStays(c, s, acts[..m], n);
    } else {
      assert acts[..n] == acts;
    }
  }

  /** The handler rewrites the captured reference so that a read through it yields `v`. */
  ghost predicate HealsToRead(f: Resolver, m: Arenas, dst: seq<nat>, stale: Cap, v: nat) {
    var heal := TryReg(f, stale);
    && heal.Some? && Live(heal.value) && heal.value.base <= heal.value.addr < heal.value.base + heal.value.len
    && m.dst.base <= heal.value.addr < m.dst.base + |dst|
    && dst[heal.value.addr - m.dst.base] == v
  }

  lemma HealedReadsByte(c: Config, seen: map<nat, nat>, s: State, m: Arenas, i: nat, off: nat, perms: set<Perm>)
    requires ArenasOk(c, m) && SeenBefore(c, seen, s) && i < |c.src| && i in s.fwd && off < OBJ
    requires |s.dst| == c.cells * OBJ
    ensures HealsToRead(Wired(c, seen, s, m), m, s.dst, Captured(m, i, off, perms), ByteAt(c.cells, s.dst, s.fwd[i], off))
  {
    ByteThere(c.cells, s.dst, s.fwd[i], off);
    HealedPointsAtByte(c, seen, s, m, i, off, perms);
    hide *;
    ReadsAt(Wired(c, seen, s, m), m, s.dst, Captured(m, i, off, perms), Pos(c.cells, s.fwd[i], off));
  }

  lemma ReadsAt(f: Resolver, m: Arenas, dst: seq<nat>, stale: Cap, p: nat)
    requires p < |dst| && TryReg(f, stale).Some?
    requires var n := TryReg(f, stale).value; Live(n) && n.addr == m.dst.base + p && n.base <= n.addr < n.base + n.len
    ensures HealsToRead(f, m, dst, stale, dst[p])
  {
    hide TryReg, Live;
  }

  /**
    Over every run: a thread faults, the handler looks the object up as the table stands at any
    earlier moment of the run, and asks the hook if it is not there. What is read through the
    patched register is the last value any thread stored to that byte, or the byte of the source.
   */
  lemma HealedReadsLatest(c: Config, s: State, m: Arenas, acts: seq<Action>, n: nat, t: nat, off: nat, perms: set<Perm>)
    requires ConfigOk(c) && Initial(c, s) && |s.threads| * |c.src| <= c.cells && ArenasOk(c, m)
    requires n <= |acts| && t < |s.threads| && off < OBJ && Run(c, s, acts).threads[t].Holding?
    ensures var r := Run(c, s, acts);
      var i := r.threads[t].i;
      && i < |c.src| && |c.src[i]| == OBJ
      && HealsToRead(Wired(c, Run(c, s, acts[..n]).fwd, r, m), m, r.dst, Captured(m, i, off, perms),
                     LastStore(c, s, acts, i, off))
  {
    ReadsLatest(c, s, acts, t, off);
    SeenAndHeld(c, s, acts, n, t);
    var q, r := Run(c, s, acts[..n]), Run(c, s, acts);
    hide Run, Initial, LastStore, ArenasOk, SeenBefore, Wired, Captured, ByteAt, HealsToRead;
    HealedReadsByte(c, q.fwd, r, m, r.threads[t].i, off, perms);
  }

  lemma ByteThere(cells: nat, dst: seq<nat>, slot: nat, off: nat)
    requires cells > 0 && |dst| == cells * OBJ && off < OBJ
    ensures Pos(cells, slot, off) < |dst| && dst[Pos(cells, slot, off)] == ByteAt(cells, dst, slot, off)
  {
    PosInside(cells, slot, off);
  }

  lemma SeenAndHeld(c: Config, s: State, acts: seq<Action>, n: nat, t: nat)
    requires ConfigOk(c) && Initial(c, s) && |s.threads| * |c.src| <= c.cells
    requires n <= |acts| && t < |s.threads|
    ensures var r := Run(c, s, acts);
      && SeenBefore(c, Run(c, s, acts[..n]).fwd, r) && |r.dst| == c.cells * OBJ
      && (r.threads[t].Holding? ==> r.threads[t].i in r.fwd && r.fwd[r.threads[t].i] == r.threads[t].slot)
  {
    RunKeepsInv(c, s, acts);
    RunKeepsInv(c, s, acts[..n]);
    SeenStays(c, s, acts, n);
    PublishedAreObjects(c, Run(c, s, acts[..n]));
    assert PcOk(c, Run(c, s, acts), t);
    hide Run, Initial;
  }

  lemma PublishedAreObjects(c: Config, s: State)
    requires c.cells > 0 && Inv(c, s)
    ensures forall i | i in s.fwd :: i < |c.src|
  {
    forall i | i in s.fwd
      ensures i < |c.src|
    {
      assert Current(c, s, i);
    }
  }

  /** An address in no object, or an object nobody has published, is not healed. */
  lemma NothingToHeal(c: Config, seen: map<nat, nat>, s: State, m: Arenas, stale: Cap)
    requires ArenasOk(c, m) && SeenBefore(c, seen, s) && !Live(stale)
    requires forall a | a in {stale.base, stale.addr} ::
      IndexOf(c, m.src, a).None? || IndexOf(c, m.src, a).value !in s.fwd
    ensures TryReg(Wired(c, seen, s, m), stale) == None
  {
    assert stale.base in {stale.base, stale.addr} && stale.addr in {stale.base, stale.addr};
    UnseenMisses(c, seen, s, m, stale.base);
    UnseenMisses(c, seen, s, m, stale.addr);
    hide TryReg, Resolve;
    HookGivesOffset(Wired(c, seen, s, m), stale);
  }
}
