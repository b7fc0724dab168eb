/**
  What each step of the moving heap does and shows, and when the program stops: the guards are
  written out, so a step that refuses, gives up or stops without cause contradicts this module.
 */
module MovingHeapSteps {
  import opened Prelude
  import opened Representable
  import opened Cheri
  import opened Allocator
  import opened Chase
  import opened ForwardTable
  import opened Handler
  import opened Revoke
  import opened MovingHeap
  import opened MovingHeapRefinement
  import opened MovingHeapPause
  import opened MovingHeapPlan
  import opened MovingHeapRuns

  // ------------------------------------------------------------------ allocation

  /**
    An allocation is refused exactly when the aligned reservation would pass the end of the arena.
    Otherwise the register holds a live, tight, usable capability of at least the requested size
    at the aligned cursor, and the event tells the same object and length.
   */
  lemma AllocExact(s: State, clears: Clears, rd: nat, size: nat)
    requires Inv(s) && !s.halted && rd < |s.regs| && Sound(size, s.root.len)
    ensures var (r, ev) := Apply(s, clears, Alloc(rd, size));
      var off, len := Up(s.bump, Align(ReprLen(size))), ReprLen(size);
      if off + len > s.root.len then ev == DidNotAlloc(rd) && r == s.(regs := s.regs[rd := NULL])
      else
        && ev == DidAlloc(rd, s.root.base + off, len) && r.bump == off + len && size <= len
        && |r.regs| == |s.regs|
        && var c := r.regs[rd];
           c.base == c.addr == s.root.base + off && c.len == len && Live(c) && Usable(r, c)
  {
    AllocIsPlacement(s.root, s.bump, size);
    SoundNeverWraps(s.bump, size, s.root.len);
    PlaceWithoutWrap(s.bump, size, s.root.len);
    assert Load in ObjCap(s.root, s.root.base + Up(s.bump, Align(ReprLen(size))), ReprLen(size)).perms;
    hide Inv, Place, Up, Align, ReprLen, AllocCap;
  }

  // ------------------------------------------------------------------ mutator steps

  lemma SetIntShows(s: State, clears: Clears, rd: nat, n: nat)
    requires !s.halted && rd < |s.regs|
    ensures Apply(s, clears, SetInt(rd, n)).1 == DidSetInt(rd, n)
  {
  }

  lemma CopyShows(s: State, clears: Clears, rd: nat, rs: nat)
    requires !s.halted && rd < |s.regs| && rs < |s.regs|
    ensures Apply(s, clears, Copy(rd, rs)).1 == DidCopy(rd, rs)
  {
  }

  /** Arithmetic inside an object goes through on every reference, live or revoked. */
  lemma OffsetShows(s: State, clears: Clears, rd: nat, rs: nat, off: nat)
    requires Inv(s) && !s.halted && rd < |s.regs| && rs < |s.regs|
    requires s.regs[rs].base in s.blocks && off < s.blocks[s.regs[rs].base].len
    ensures Apply(s, clears, Offset(rd, rs, off)).1 == DidOffset(rd, rs, off)
  {
    assert CapOk(ShapeOf(s), s.regs[rs]);
  }

  lemma LiveReferenceIsUsable(s: State, c: Cap)
    requires Core(s) && CapOk(ShapeOf(s), c) && Live(c)
    ensures Usable(s, c)
  {
    assert c.base <= c.addr < c.base + s.blocks[c.base].len;
  }

  /** A load or a store through any live reference goes through, and shows as what it is. */
  lemma AccessShows(s: State, clears: Clears, rd: nat, rs: nat)
    requires Inv(s) && !s.halted && rd < |s.regs| && rs < |s.regs| && Live(s.regs[rs])
    ensures Apply(s, clears, LoadCell(rd, rs)).1 == DidLoad(rd, rs)
    ensures Apply(s, clears, StoreCell(rs, rd)).1 == DidStore(rs, rd)
  {
    assert CapOk(ShapeOf(s), s.regs[rs]);
    LiveReferenceIsUsable(s, s.regs[rs]);
    hide Inv, Usable, Loaded;
  }

  /** The lookup an operand needs can be followed exactly up to 4096 hops. */
  lemma ResolvableIff(s: State, c: Cap)
    requires Core(s) && Increasing(s.table) && PointsInside(s, c)
    ensures Resolvable(s, c) <==> Live(c) || Depth(s.table, c.base) <= 4096
  {
    NoZeroCopy(s.blocks);
    LookupResolves(s.table, c.base);
  }

  /** A comparison of two references shows the truth about them, exactly when both can be followed or agree. */
  lemma CompareShows(s: State, clears: Clears, r1: nat, r2: nat)
    requires Inv(s) && !s.halted && r1 < |s.regs| && r2 < |s.regs| && s.clearsTags
    requires s.regs[r1].base in s.blocks && s.regs[r2].base in s.blocks
    ensures Increasing(s.table)
    ensures var a, b := s.regs[r1], s.regs[r2];
      var near := (Live(a) || Depth(s.table, a.base) <= 4096) && (Live(b) || Depth(s.table, b.base) <= 4096);
      Apply(s, clears, Compare(r1, r2))
      == (s, DidCompare(r1, r2, Den(s.blocks, a) == Den(s.blocks, b) && (a.addr == b.addr || near), near))
  {
    TableIncreases(s.blocks, s.table);
    var a, b := s.regs[r1], s.regs[r2];
    assert CapOk(ShapeOf(s), a) && CapOk(ShapeOf(s), b);
    ResolvableIff(s, a);
    ResolvableIff(s, b);
    BarrierExact(s, a, b);
    hide Inv, Core, AcmpBarrier, Resolvable, Live, Depth, Den;
  }

  // ------------------------------------------------------------------ kernel steps

  /** The barrier's sweep of one cell leaves nothing loadable into an armed range there. */
  lemma LazySweepKills(s: State, clears: Clears, x: nat)
    requires !s.halted && x in s.mem
    ensures var r := Apply(s, clears, LazySweep(x)).0;
      x in r.mem && r.mem[x] == Swept(s.clearsTags, s.mem[x], s.armed) && !(Live(r.mem[x]) && r.mem[x].base in s.armed)
  {
  }

  /** Nothing loadable, in a register or in memory, is bounded to one of these copies. */
  ghost predicate AllDead(regs: seq<Cap>, mem: map<nat, Cap>, dead: set<nat>) {
    && (forall i | 0 <= i < |regs| && Live(regs[i]) :: regs[i].base !in dead)
    && (forall x | x in mem && Live(mem[x]) :: mem[x].base !in dead)
  }

  /** A sweep of registers and memory kills every such capability and touches nothing else. */
  lemma SweepKills(s: State, dead: set<nat>)
    ensures var r := SweepMem(SweepRegs(s, dead), dead);
      && AllDead(r.regs, r.mem, dead)
      && r.(regs := s.regs, mem := s.mem) == s
    ensures SweepRegs(s, dead).(regs := s.regs) == s
  {
  }

  /**
    The closing scan ends a pending epoch exactly when one of its 11 replies clears the target; then
    nothing armed is loadable any more. Otherwise everything stays as it is.
   */
  lemma CloseEndsIff(s: State, clears: Clears, target: nat, script: seq<Reply>)
    requires !s.halted && s.pending
    ensures var r := Apply(s, clears, Close(target, script)).0;
      if exists i :: 0 <= i < 11 && ClearsAt(script, 0, i, clears, target) then
        !r.pending && r.armed == {} && AllDead(r.regs, r.mem, s.armed)
      else r == s
  {
    SweepKills(s, s.armed);
    hide SweepMem, SweepRegs, AllDead;
    assert ClosesWithin(script, 0, clears, target) <==> exists i :: 0 <= i < 11 && ClearsAt(script, 0, i, clears, target);
  }

  // ------------------------------------------------------------------ when a fault stops the program

  /** Neither is the fault one of a revoked capability that a register or `si_addr` answers for. */
  predicate Unanswered(s: State, lo: nat, fault: Fault)
    requires lo + REGS <= |s.regs|
  {
    || (fault.code != 2 && fault.code != 5)
    || (Picked(s, lo, fault) >= 30 && IsNull(Resolve(ResolverOf(s), fault.siAddr)))
  }

  /** When no register is patched, only `si_addr` is left. */
  lemma UnpatchedIff(f: Resolver, file: seq<Cap>, fault: Fault)
    requires |file| == REGS && !Decide(f, file, fault).Patched?
    ensures Decide(f, file, fault).Unhealed?
       <==> (fault.code != 2 && fault.code != 5) || IsNull(Resolve(f, fault.siAddr))
  {
    hide TryReg, Resolve;
  }

  lemma ResumeHaltsIff(s: State, lo: nat, o: Outcome)
    requires !s.halted
    ensures Resume(s, lo, o).halted <==> o.Unhealed?
  {
  }

  /** A fault stops the program exactly when nothing answers for it. */
  lemma HealHaltsIff(s: State, lo: nat, fault: Fault)
    requires Core(s) && !s.halted && lo + REGS <= |s.regs|
    ensures DoHeal(s, lo, fault).halted <==> Unanswered(s, lo, fault)
  {
    PickedIsPatched(s, lo, fault);
    var o := Decide(ResolverOf(s), s.regs[lo..lo + REGS], fault);
    hide Core, Picked, TryReg, Resolve, Decide, Resume;
    ResumeHaltsIff(s, lo, o);
    if !o.Patched? {
      UnpatchedIff(ResolverOf(s), s.regs[lo..lo + REGS], fault);
    }
  }

  // ------------------------------------------------------------------ when a pause stops the program

  /** The epoch did not open and the fallback sweep did not finish. */
  ghost predicate RevocationFails(clears: Clears, e0: nat, script: seq<Reply>) {
    At(script, 0).enqueue <= e0 && At(script, 0).rc != 0 && !SweepsWithin(script, 1, clears)
  }

  /** Publishing stops the program exactly when revocation fails both ways; otherwise it is known what is armed. */
  lemma PublishExact(s: State, clears: Clears, e0: nat, script: seq<Reply>)
    requires !s.halted && !s.pending && s.armed == {}
    ensures var r := Publish(s, clears, e0, script);
      && (r.halted <==> RevocationFails(clears, e0, script))
      && (!r.halted ==>
            if At(script, 0).enqueue > e0 || At(script, 0).rc == 0 then r.pending && r.armed == s.marks
            else !r.pending && r.armed == {} && AllDead(r.regs, r.mem, s.marks))
      && r.table == s.table && r.marks == s.marks
  {
    SweepKills(s, s.marks);
    hide SweepMem, AllDead, SweepsWithin;
  }

  lemma TrackedIsKey(s: State, v: Fwd, moved: set<nat>, x: nat)
    requires Increasing(s.table) && Increasing(v) && Tracks(s, v, moved, x) && (x in s.table || x in moved)
    ensures x in v
  {
  }

  /** Whatever had moved, or was planned to, has a mapping after the walk. */
  lemma PlannedIsKey(s: State, r: State, p: Plan, x: nat)
    requires Chains(s.blocks, s.table) && Increasing(s.table) && Increasing(r.table) && Knows(s, r, p)
    requires x in s.table || x in p.moved
    ensures x in r.table
  {
    hide Tracks, Increasing;
    assert x in s.table ==> MapsUp(s.blocks, s.table, x);
    assert Tracks(s, r.table, p.moved, x);
    TrackedIsKey(s, r.table, p.moved, x);
  }

  lemma PlannedAreNew(s: State, r: State, p: Plan)
    requires Increasing(s.table) && Increasing(r.table) && Knows(s, r, p)
    ensures s.table.Keys !! p.moved
  {
    hide Tracks, Increasing;
  }

  /** A planned walk ends with exactly the planned objects moved. */
  lemma KeysArePlanned(s: State, r: State, p: Plan)
    requires Chains(s.blocks, s.table) && Increasing(s.table) && Increasing(r.table) && Knows(s, r, p)
    requires |r.table| == |s.table| + |p.moved|
    ensures r.table.Keys == s.table.Keys + p.moved
  {
    hide *;
    PlannedAreNew(s, r, p);
    forall x | x in s.table.Keys + p.moved
      ensures x in r.table
    {
      PlannedIsKey(s, r, p, x);
    }
    SameKeys(s.table.Keys, p.moved, r.table.Keys);
  }

  lemma SameKeys(a: set<nat>, b: set<nat>, c: set<nat>)
    requires a !! b && a + b <= c && |c| == |a| + |b|
    ensures c == a + b
  {
    assert |a + b| == |a| + |b|;
    var rest := c - (a + b);
    assert c == (a + b) + rest && |c| == |a + b| + |rest|;
  }

  /** The walk of a fitting pause, and its plan. */
  lemma WalkIsPlanned(s: State, callocOk: bool, roots: seq<Root>, limit: nat, fixup: bool)
    requires Inv(s) && Increasing(s.table) && !s.halted && PauseFits(s, callocOk, roots, limit, fixup)
    ensures var sc := ScanRoots(Grown(s, callocOk), roots, LimitNow(s, limit), fixup, |roots|);
      var p := PlanRoots(s, roots, LimitNow(s, limit), |roots|);
      && sc.heap.halted == p.stopped && sc.moved == |p.moved|
      && (!p.stopped ==>
            && sc.heap.table.Keys == s.table.Keys + p.moved && sc.heap.marks == sc.heap.table.Keys
            && sc.heap.armed == s.armed && sc.heap.pending == s.pending)
  {
    GrownIsSame(s, callocOk);
    FitsIff(s, callocOk, roots, limit, fixup);
    var g := Grown(s, callocOk);
    assert Chains(g.blocks, g.table);
    hide Inv, Core, ScanRoots, PlanRoots, PauseFits;
    PlanFollowsWalk(g, roots, LimitNow(s, limit), fixup, |roots|);
    PlanIgnoresSlots(s, g.slots, roots, LimitNow(s, limit), |roots|);
    var sc := ScanRoots(g, roots, LimitNow(s, limit), fixup, |roots|);
    if !sc.heap.halted {
      FollowEnds(g, sc, PlanRoots(s, roots, LimitNow(s, limit), |roots|), |roots|);
    }
  }

  lemma FollowEnds(g: State, sc: Scan, p: Plan, n: nat)
    requires Increasing(g.table) && Chains(g.blocks, g.table) && Follows(g, sc, p, n) && !sc.heap.halted
    ensures sc.heap.table.Keys == g.table.Keys + p.moved && sc.heap.marks == sc.heap.table.Keys
    ensures sc.heap.armed == g.armed && sc.heap.pending == g.pending
  {
    hide Tracks, NewEntriesFresh;
    KeysArePlanned(g, sc.heap, p);
  }

  /** The plan of this pause. */
  ghost function PausePlan(s: State, roots: seq<Root>, limit: nat): Plan
    requires Increasing(s.table)
  {
    PlanRoots(s, roots, LimitNow(s, limit), |roots|)
  }

  /**
    A fitting pause stops the program if and only if its walk meets a revoked root that does not
    resolve, or it moved something and revocation failed both ways. Otherwise exactly the planned
    objects have moved, and the marks are armed with the close pending, or all swept, or nothing
    moved and nothing changed.
   */
  lemma PauseHaltsIff(s: State, clears: Clears, callocOk: bool, roots: seq<Root>, limit: nat, fixup: bool, e0: nat,
                      script: seq<Reply>)
    requires Inv(s) && !s.halted && PauseFits(s, callocOk, roots, limit, fixup)
    ensures Increasing(s.table)
    ensures var r, p := DoPause(s, clears, callocOk, roots, limit, fixup, e0, script), PausePlan(s, roots, limit);
      && (r.halted <==> p.stopped || (p.moved != {} && RevocationFails(clears, e0, script)))
      && (!r.halted ==>
            && r.table.Keys == s.table.Keys + p.moved && r.marks == r.table.Keys
            && (p.moved == {} ==> r.armed == s.armed && r.pending == s.pending)
            && (p.moved != {} ==>
                  if At(script, 0).enqueue > e0 || At(script, 0).rc == 0 then r.pending && r.armed == r.marks
                  else !r.pending && r.armed == {} && AllDead(r.regs, r.mem, r.marks)))
  {
    TableIncreases(s.blocks, s.table);
    assert !s.pending ==> s.armed == {};
    WalkIsPlanned(s, callocOk, roots, limit, fixup);
    hide Inv, ScanRoots, PlanRoots, PauseFits, Publish, AllDead, RevocationFails;
    var sc := ScanRoots(Grown(s, callocOk), roots, LimitNow(s, limit), fixup, |roots|);
    MovedIsBounded(Grown(s, callocOk), roots, LimitNow(s, limit), fixup, |roots|);
    if !sc.heap.halted && sc.moved > 0 {
      PublishExact(sc.heap, clears, e0, script);
    }
  }

  /** From `s` to `r` the object of root slot `i` has moved to `b`, and the root with it. */
  ghost predicate MovedTo(s: State, r: State, i: nat, b: nat) {
    && i < |s.regs| && s.regs[i].base in s.blocks
    && var a := s.regs[i].base;
       var len := s.blocks[a].len;
       && a !in s.table && b !in s.blocks
       && r.table == s.table[a := Entry(b, len)] && b !in r.table
       && r.blocks == s.blocks[b := s.blocks[a]] && r.marks == s.marks + {a}
       && (forall x | b <= x < b + len :: CellOf(r.mem, x) == CellOf(s.mem, a + x - b))
       && r.regs == s.regs[i := ObjCap(s.root, b, len)] && Live(r.regs[i])
  }

  lemma MovedScanIs(s: State, i: nat, a: nat, b: nat, next: nat)
    requires i < |s.regs| && s.regs[i].base == a && a in s.blocks && a !in s.table && a != b
    requires b !in s.blocks && b !in s.table && RootOk(s.root) && RoomAt(s, a, b, next)
    ensures MovedTo(s, StoreRoot(Moved(s, a, b, next), i, true, FtDerive(Some(s.root), b, s.blocks[a].len)), i, b)
  {
    CopyIsPlaced(s, a, b, next);
    hide RoomAt, RootOk, FtDerive;
    var r := Moved(s, a, b, next);
    assert CopiedTo(s.mem, r.mem, a, b, s.blocks[a].len);
  }

  lemma CopyIsPlaced(s: State, a: nat, b: nat, next: nat)
    requires RootOk(s.root) && a in s.blocks && RoomAt(s, a, b, next)
    ensures var c := ObjCap(s.root, b, s.blocks[a].len);
      FtDerive(Some(s.root), b, s.blocks[a].len) == c && Live(c)
  {
    assert CopyPlaced(s.root, next, b, s.blocks[b := s.blocks[a]][b].len);
    DerivePlaced(s.root, b, s.blocks[a].len);
  }

  lemma ScannedHasArena(s0: State, sc: Scan, n: nat)
    requires Increasing(s0.table) && Scanned(s0, sc, n)
    ensures RootOk(sc.heap.root)
  {
    assert Core(sc.heap);
  }

  /**
    A root whose object moves while the table has room: the copy has every cell of the old one,
    lies where no copy was, and is where the old one is forwarded to; the old one is marked. With
    fixups on the root becomes the copy's own loadable capability, and no other root changes.
   */
  lemma MovedRootIsCurrent(s0: State, sc: Scan, i: nat, kind: Root, limit: nat)
    requires Inv(s0) && Increasing(s0.table) && Scanned(s0, sc, i) && Moves(sc, i, kind, limit)
    requires |sc.heap.table| < sc.heap.slots
    ensures RootPlacement(sc.heap, i).Fit?
    ensures var q := VisitRoot(sc, i, kind, limit, true);
      q.moved == sc.moved + 1 && MovedTo(sc.heap, q.heap, i, sc.heap.root.base + RootPlacement(sc.heap, i).off)
  {
    hide VisitRoot, Moves, Scanned, RootPlacement, RoomAt, FtDerive, Inv, Core, RootOk, Moved, MovedTo;
    var a, b, next := MoveFacts(s0, sc, i, kind, limit);
    ScannedHasArena(s0, sc, i);
    VisitIsMove(s0, sc, i, kind, limit, true, a, b, next);
    MovedScanIs(sc.heap, i, a, b, next);
  }

  /** With fixups off a walk rewrites no root. */
  lemma {:induction false} NoFixupKeepsRoots(s: State, roots: seq<Root>, limit: nat, n: nat)
    requires n <= |roots|
    ensures ScanRoots(s, roots, limit, false, n).heap.regs == s.regs
  {
    hide Moves, Resolve, Moved, LostCopy;
    if n > 0 {
      NoFixupKeepsRoots(s, roots, limit, n - 1);
      VisitKeepsRoots(ScanRoots(s, roots, limit, false, n - 1), n - 1, roots[n - 1], limit);
    }
  }

  lemma VisitKeepsRoots(sc: Scan, i: nat, kind: Root, limit: nat)
    ensures VisitRoot(sc, i, kind, limit, false).heap.regs == sc.heap.regs
  {
    hide Place, Resolve, CopyCells, FtDerive;
  }

  /** The table grows exactly at 70 percent load, when memory allows. */
  lemma GrowsIff(s: State, callocOk: bool)
    ensures Grown(s, callocOk).slots == if callocOk && 10 * |s.table| >= 7 * s.slots then 2 * s.slots else s.slots
  {
  }

  // ------------------------------------------------------------------ when a run stops

  /** This step is one of the two that may stop the program, and has cause to. */
  ghost predicate HasCause(s: State, clears: Clears, act: Action)
    requires Increasing(s.table)
  {
    match act
    case HealFault(lo, fault) => lo + REGS <= |s.regs| && Unanswered(s, lo, fault)
    case Pause(callocOk, roots, limit, fixup, e0, script) =>
      var p := PausePlan(s, roots, limit);
      p.stopped || (p.moved != {} && RevocationFails(clears, e0, script))
    case _ => false
  }

  lemma MutatorNeverHalts(s: State, clears: Clears, act: Action)
    requires !s.halted && !act.HealFault? && !act.Pause?
    ensures !Apply(s, clears, act).0.halted
  {
    hide Place, Usable, AcmpBarrier, Resolvable, ClosesWithin, SweepMem, SweepRegs, AllocCap;
    if act.Close? {
      CloseNeverHalts(s, clears, act.target, act.script);
    }
  }

  lemma CloseNeverHalts(s: State, clears: Clears, target: nat, script: seq<Reply>)
    ensures DoClose(s, clears, target, script).halted == s.halted
  {
    hide ClosesWithin;
  }

  lemma DisabledStays(s: State, clears: Clears, act: Action)
    ensures !Enabled(s, act) ==> Apply(s, clears, act) == (s, Silent)
  {
  }

  /** A step stops the program exactly when it has cause. */
  lemma StepHaltsIff(s: State, clears: Clears, act: Action)
    requires Inv(s) && !s.halted && Enabled(s, act)
    ensures Increasing(s.table) && (Apply(s, clears, act).0.halted <==> HasCause(s, clears, act))
  {
    TableIncreases(s.blocks, s.table);
    match act
    case HealFault(lo, fault) => HealHaltsIff(s, lo, fault);
    case Pause(callocOk, roots, limit, fixup, e0, script) =>
      PauseHaltsIff(s, clears, callocOk, roots, limit, fixup, e0, script);
    case _ => MutatorNeverHalts(s, clears, act);
  }

  lemma RunStep(s: State, clears: Clears, acts: seq<Action>, n: nat)
    requires 0 < n <= |acts|
    ensures Run(s, clears, acts[..n]).0 == Run(Apply(s, clears, acts[0]).0, clears, acts[1..][..n - 1]).0
  {
    assert acts[..n][1..] == acts[1..][..n - 1];
  }

  /**
    A run that ends stopped was stopped by one step that had cause: an unanswered fault, or a pause
    that met one or whose revocation failed both ways after it had moved something.
   */
  lemma {:induction false} RunStopsWithCause(s: State, clears: Clears, acts: seq<Action>) returns (n: nat)
    requires Inv(s) && !s.halted && Run(s, clears, acts).0.halted
    ensures n < |acts|
    ensures var q := Run(s, clears, acts[..n]).0;
      && Inv(q) && !q.halted && Enabled(q, acts[n]) && Increasing(q.table) && HasCause(q, clears, acts[n])
    decreases |acts|
  {
    var q := Apply(s, clears, acts[0]).0;
    StepRefines(s, clears, acts[0]);
    if q.halted {
      n := 0;
      assert acts[..0] == [];
      DisabledStays(s, clears, acts[0]);
      StepHaltsIff(s, clears, acts[0]);
    } else {
      n := RunStopsWithCause(q, clears, acts[1..]);
      RunStep(s, clears, acts, n + 1);
      n := n + 1;
    }
  }
}
