/**
  The mutator is not stopped for no reason: a revoked reference always has a forwarding, so the
  handler heals every fault on one, and the retried access succeeds, unless the chain is longer
  than the lookup follows.
 */
module MovingHeapProgress {
  import opened Prelude
  import opened Representable
  import opened Cheri
  import opened Allocator
  import opened Chase
  import opened Handler
  import opened Revoke
  import opened MovingHeap
  import opened MovingHeapRefinement
  import opened MovingHeapPause
  import opened MovingHeapRuns

  // ------------------------------------------------------------------ revoked means forwarded

  /** Whatever is revoked points into a copy that has moved. */
  ghost predicate DeadIsMoved(blocks: Blocks, table: Fwd, c: Cap) {
    !Live(c) && c.base in blocks ==> c.base in table
  }

  ghost predicate RegsForwarded(blocks: Blocks, table: Fwd, regs: seq<Cap>) {
    forall i | 0 <= i < |regs| :: DeadIsMoved(blocks, table, regs[i])
  }

  ghost predicate MemForwarded(blocks: Blocks, table: Fwd, mem: map<nat, Cap>) {
    forall x | x in mem :: DeadIsMoved(blocks, table, mem[x])
  }

  ghost predicate Forwarded(s: State) {
    RegsForwarded(s.blocks, s.table, s.regs) && MemForwarded(s.blocks, s.table, s.mem)
  }

  /** A new copy is nobody's base yet, and no forwarding is ever removed. */
  lemma DeadStaysMoved(h: Shape, table: Fwd, b: nat, blk: Block, later: Fwd, c: Cap)
    requires CapOk(h, c) && DeadIsMoved(h.blocks, table, c) && b !in h.blocks && b != 0 && table.Keys <= later.Keys
    ensures DeadIsMoved(h.blocks[b := blk], later, c)
  {
  }

  lemma SweepForwards(s: State, dead: set<nat>)
    requires Forwarded(s) && dead <= s.table.Keys
    ensures Forwarded(SweepRegs(s, dead)) && Forwarded(SweepMem(s, dead))
  {
  }

  lemma SetRegForwards(s: State, i: nat, c: Cap)
    requires Forwarded(s) && i < |s.regs| && DeadIsMoved(s.blocks, s.table, c)
    ensures Forwarded(s.(regs := s.regs[i := c]))
  {
  }

  lemma NewCopyIsNew(s: State, len: nat, off: nat)
    requires RootOk(s.root) && s.bump <= s.root.len && AllPlaced(s.root, s.bump, s.blocks)
    requires Sound(len, s.root.len) && ReprLen(len) == len
    requires Place(s.bump, len, s.root.len).Fit? && off == Place(s.bump, len, s.root.len).off
    ensures 0 < s.root.base + off && s.root.base + off !in s.blocks
  {
    NewCopy(s.root, s.bump, s.blocks, len);
  }

  /** The two outcomes of an allocation, as states. */
  lemma AllocCase(s: State, rd: nat, size: nat) returns (b: nat, next: nat)
    requires RootOk(s.root) && s.bump <= s.root.len && AllPlaced(s.root, s.bump, s.blocks)
    requires rd < |s.regs| && Sound(size, s.root.len)
    ensures var r, len := DoAlloc(s, rd, size).0, ReprLen(size);
      || r == s.(regs := s.regs[rd := NULL])
      || (b > 0 && b !in s.blocks
          && r == s.(bump := next, blocks := s.blocks[b := Block(b, len)], mem := ClearCells(s.mem, b, len),
                     regs := s.regs[rd := ObjCap(s.root, b, len)]))
  {
    var len := ReprLen(size);
    AllocIsPlacement(s.root, s.bump, size);
    var p := Place(s.bump, len, s.root.len);
    b, next := 0, 0;
    if p.NoFit? {
      assert DoAlloc(s, rd, size).0 == s.(regs := s.regs[rd := NULL]);
    } else {
      b, next := s.root.base + p.off, p.next;
      NewCopyIsNew(s, len, p.off);
    }
  }

  lemma AllocForwards(s: State, rd: nat, size: nat)
    requires Core(s) && Forwarded(s) && rd < |s.regs| && Sound(size, s.root.len)
    ensures Forwarded(DoAlloc(s, rd, size).0)
  {
    NoZeroCopy(s.blocks);
    var b, next := AllocCase(s, rd, size);
    if b > 0 && b !in s.blocks {
      AllocatedForwards(s, rd, b, ReprLen(size));
    }
    SetRegForwards(s, rd, NULL);
  }

  lemma AllocatedForwards(s: State, rd: nat, b: nat, len: nat)
    requires Forwarded(s) && MemOk(ShapeOf(s), s.mem) && RegsOk(ShapeOf(s), s.regs) && RootOk(s.root)
    requires rd < |s.regs| && b !in s.blocks && b != 0 && 0 !in s.blocks
    ensures var g, m := s.blocks[b := Block(b, len)], ClearCells(s.mem, b, len);
      RegsForwarded(g, s.table, s.regs[rd := ObjCap(s.root, b, len)]) && MemForwarded(g, s.table, m)
  {
    var g, m := s.blocks[b := Block(b, len)], ClearCells(s.mem, b, len);
    assert Load in ObjCap(s.root, b, len).perms;
    forall x | x in m
      ensures DeadIsMoved(g, s.table, m[x])
    {
      if !(b <= x < b + len) {
        DeadStaysMoved(ShapeOf(s), s.table, b, Block(b, len), s.table, s.mem[x]);
      }
    }
    forall i | 0 <= i < |s.regs| && i != rd
      ensures DeadIsMoved(g, s.table, s.regs[i])
    {
      DeadStaysMoved(ShapeOf(s), s.table, b, Block(b, len), s.table, s.regs[i]);
    }
  }

  lemma MovedForwards(s: State, a: nat, b: nat, next: nat)
    requires Forwarded(s) && MemOk(ShapeOf(s), s.mem) && RegsOk(ShapeOf(s), s.regs)
    requires a in s.blocks && b !in s.blocks && b != 0 && 0 !in s.blocks
    ensures Forwarded(Moved(s, a, b, next))
  {
    var r := Moved(s, a, b, next);
    var len := s.blocks[a].len;
    forall x | x in r.mem
      ensures DeadIsMoved(r.blocks, r.table, r.mem[x])
    {
      assert r.mem[x] == CellOf(r.mem, x);
      if r.mem[x] != NULL {
        DeadStaysMoved(ShapeOf(s), s.table, b, s.blocks[a], r.table, r.mem[x]);
      }
    }
    forall i | 0 <= i < |r.regs|
      ensures DeadIsMoved(r.blocks, r.table, r.regs[i])
    {
      DeadStaysMoved(ShapeOf(s), s.table, b, s.blocks[a], r.table, s.regs[i]);
    }
  }

  /** What a visit stores into a root, if anything, is loadable. */
  lemma StoreRootForwards(s: State, i: nat, fixup: bool, c: Cap)
    requires Forwarded(s) && i < |s.regs| && DeadIsMoved(s.blocks, s.table, c)
    ensures Forwarded(StoreRoot(s, i, fixup, c))
  {
    SetRegForwards(s, i, c);
  }

  lemma MovedRootForwards(s: State, i: nat, fixup: bool, a: nat, b: nat, next: nat)
    requires Core(s) && Forwarded(s) && a in s.blocks && a !in s.table && RoomAt(s, a, b, next)
    requires i < |s.regs| && s.regs[i].base == a == s.regs[i].addr
    ensures Forwarded(StoreRoot(Moved(s, a, b, next), i, fixup, FtDerive(Some(s.root), b, s.blocks[a].len)))
  {
    NoZeroCopy(s.blocks);
    RoomIsAbove(s, a, b, next);
    MovedForwards(s, a, b, next);
    MovedRoot(s, a, b, next, s.regs[i]);
    hide Core, Forwarded, RoomAt, Moved, FtDerive, Live, CapOk;
    StoreRootForwards(Moved(s, a, b, next), i, fixup, FtDerive(Some(s.root), b, s.blocks[a].len));
  }

  lemma RoomIsAbove(s: State, a: nat, b: nat, next: nat)
    requires Core(s) && a in s.blocks && RoomAt(s, a, b, next)
    ensures 0 < b && b !in s.blocks
  {
    assert CopyOwned(s.blocks, a) && EndsBelow(s.blocks, a, b);
  }

  lemma MoveForwards(s0: State, sc: Scan, i: nat, kind: Root, limit: nat, fixup: bool)
    requires Inv(s0) && Increasing(s0.table) && Scanned(s0, sc, i) && Moves(sc, i, kind, limit)
    requires |sc.heap.table| < sc.heap.slots && Forwarded(sc.heap)
    ensures Forwarded(VisitRoot(sc, i, kind, limit, fixup).heap)
  {
    hide Inv, Accounted, RoomAt, RootPlacement, Moved, FtDerive, Forwarded;
    var a, b, next := MoveFacts(s0, sc, i, kind, limit);
    VisitIsMove(s0, sc, i, kind, limit, fixup, a, b, next);
    hide VisitRoot, Moves, Core;
    MovedRootForwards(sc.heap, i, fixup, a, b, next);
  }

  lemma SettleForwards(sc: Scan, i: nat, kind: Root, limit: nat, fixup: bool)
    requires Core(sc.heap) && Forwarded(sc.heap) && !Moves(sc, i, kind, limit)
    ensures Forwarded(VisitRoot(sc, i, kind, limit, fixup).heap)
  {
    var s := sc.heap;
    hide Place;
    if HoldsObject(s, i, kind) && !IsNull(Resolve(ResolverOf(s), s.regs[i].addr)) {
      assert CapOk(ShapeOf(s), s.regs[i]);
      FixIsFresh(s, s.regs[i]);
      hide Resolve, Core, CapOk;
      StoreRootForwards(s, i, fixup, Resolve(ResolverOf(s), s.regs[i].addr));
    }
  }

  lemma {:induction false} WalkForwards(s: State, roots: seq<Root>, limit: nat, fixup: bool, n: nat)
    requires Inv(s) && Increasing(s.table) && !s.halted && Forwarded(s) && n <= |roots|
    requires ScanRoots(s, roots, limit, fixup, n).moved <= Free(s)
    ensures Forwarded(ScanRoots(s, roots, limit, fixup, n).heap)
  {
    hide VisitRoot, Moves, Accounted, Inv, Core, Forwarded;
    if n > 0 {
      var sc := ScanRoots(s, roots, limit, fixup, n - 1);
      OneMoveAtMost(sc, n - 1, roots[n - 1], limit, fixup);
      WalkForwards(s, roots, limit, fixup, n - 1);
      WalkIsUnseen(s, roots, limit, fixup, n - 1);
      if sc.heap.halted {
        HaltedStays(sc, n - 1, roots[n - 1], limit, fixup);
      } else {
        VisitForwards(s, sc, n - 1, roots[n - 1], limit, fixup);
      }
    }
  }

  lemma VisitForwards(s0: State, sc: Scan, i: nat, kind: Root, limit: nat, fixup: bool)
    requires Inv(s0) && Increasing(s0.table) && Scanned(s0, sc, i) && Forwarded(sc.heap)
    requires Moves(sc, i, kind, limit) ==> sc.moved + 1 <= Free(s0)
    ensures Forwarded(VisitRoot(sc, i, kind, limit, fixup).heap)
  {
    hide VisitRoot, Moves, Inv, Core, Forwarded;
    if Moves(sc, i, kind, limit) {
      MoveForwards(s0, sc, i, kind, limit, fixup);
    } else {
      SettleForwards(sc, i, kind, limit, fixup);
    }
  }

  lemma PublishForwards(s: State, clears: Clears, e0: nat, script: seq<Reply>)
    requires Core(s) && Forwarded(s)
    ensures Forwarded(Publish(s, clears, e0, script))
  {
    SweepForwards(s, s.marks);
    SweepForwards(SweepRegs(s, s.marks), s.marks);
  }

  lemma PauseForwards(s: State, clears: Clears, callocOk: bool, roots: seq<Root>, limit: nat, fixup: bool, e0: nat,
                      script: seq<Reply>)
    requires Inv(s) && !s.halted && Forwarded(s) && PauseFits(s, callocOk, roots, limit, fixup)
    ensures Forwarded(DoPause(s, clears, callocOk, roots, limit, fixup, e0, script))
  {
    TableIncreases(s.blocks, s.table);
    var g := Grown(s, callocOk);
    GrownIsSame(s, callocOk);
    FitsIff(s, callocOk, roots, limit, fixup);
    FittingPause(s, clears, callocOk, roots, limit, fixup, e0, script);
    hide ScanRoots, Publish, Accounted, Core, Inv;
    WalkForwards(g, roots, LimitNow(s, limit), fixup, |roots|);
    var sc := ScanRoots(g, roots, LimitNow(s, limit), fixup, |roots|);
    if !sc.heap.halted {
      PublishForwards(sc.heap, clears, e0, script);
    }
  }

  lemma HealForwards(s: State, lo: nat, fault: Fault)
    requires Inv(s) && Forwarded(s) && lo + REGS <= |s.regs| && SparesIntegers(s, lo, fault)
    ensures Forwarded(DoHeal(s, lo, fault))
  {
    HealCarries(s, lo, fault);
    ResumeForwards(s, lo, Decide(ResolverOf(s), s.regs[lo..lo + REGS], fault));
  }

  lemma ResumeForwards(s: State, lo: nat, o: Outcome)
    requires Forwarded(s) && Carries(s, lo, o)
    ensures Forwarded(Resume(s, lo, o))
  {
    if o.Patched? {
      SetRegForwards(s, lo + o.reg, o.cap);
    }
  }

  lemma CloseForwards(s: State, clears: Clears, target: nat, script: seq<Reply>)
    requires Inv(s) && Forwarded(s)
    ensures Forwarded(DoClose(s, clears, target, script))
  {
    SweepForwards(s, s.armed);
    SweepForwards(SweepRegs(s, s.armed), s.armed);
  }

  lemma LoadForwards(s: State, rd: nat, rs: nat)
    requires Inv(s) && Forwarded(s) && rd < |s.regs| && rs < |s.regs| && Usable(s, s.regs[rs])
    ensures Forwarded(s.(regs := s.regs[rd := Loaded(s, s.regs[rs])]))
  {
    assert DeadIsMoved(s.blocks, s.table, s.mem[s.regs[rs].addr]);
    SetRegForwards(s, rd, Loaded(s, s.regs[rs]));
  }

  lemma OffsetForwards(s: State, rd: nat, rs: nat, off: nat)
    requires Forwarded(s) && rd < |s.regs| && rs < |s.regs| && off < s.regs[rs].len
    ensures Forwarded(s.(regs := s.regs[rd := AddressSet(s.regs[rs], s.regs[rs].base + off)]))
  {
    SetRegForwards(s, rd, AddressSet(s.regs[rs], s.regs[rs].base + off));
  }

  lemma LazySweepForwards(s: State, x: nat)
    requires Inv(s) && Forwarded(s) && x in s.mem
    ensures Forwarded(s.(mem := s.mem[x := Swept(s.clearsTags, s.mem[x], s.armed)]))
  {
    assert DeadIsMoved(s.blocks, s.table, s.mem[x]);
  }

  lemma BackgroundForwards(s: State, clears: Clears, act: Action)
    requires Inv(s) && Forwarded(s) && !s.halted && Background(act)
    ensures Forwarded(Apply(s, clears, act).0)
  {
    if Enabled(s, act) {
      match act
      case HealFault(lo, fault) => HealForwards(s, lo, fault);
      case Pause(callocOk, roots, limit, fixup, e0, script) =>
        PauseForwards(s, clears, callocOk, roots, limit, fixup, e0, script);
      case Close(target, script) => CloseForwards(s, clears, target, script);
      case LazySweep(x) => LazySweepForwards(s, x);
    }
  }

  lemma MutatorForwards(s: State, clears: Clears, act: Action)
    requires Inv(s) && Forwarded(s) && !Background(act)
    ensures Forwarded(Apply(s, clears, act).0)
  {
    if Enabled(s, act) {
      match act
      case Alloc(rd, size) => AllocForwards(s, rd, size);
      case SetInt(rd, n) => NoZeroCopy(s.blocks); SetRegForwards(s, rd, IntCap(n));
      case Copy(rd, rs) => SetRegForwards(s, rd, s.regs[rs]);
      case Offset(rd, rs, off) => OffsetForwards(s, rd, rs, off);
      case LoadCell(rd, rs) => LoadForwards(s, rd, rs);
      case StoreCell(rs, rv) => assert DeadIsMoved(s.blocks, s.table, s.regs[rv]);
      case Compare(r1, r2) =>
    }
  }

  lemma {:induction false} RunForwards(s: State, clears: Clears, acts: seq<Action>)
    requires Inv(s) && Forwarded(s) && !s.halted
    ensures var r := Run(s, clears, acts).0; !r.halted ==> Inv(r) && Increasing(r.table) && Forwarded(r)
    decreases |acts|
  {
    if acts != [] {
      var (q, ev) := Apply(s, clears, acts[0]);
      StepRefines(s, clears, acts[0]);
      if q.halted {
        HaltedRun(q, clears, acts[1..], Abs(s));
      } else {
        if Background(acts[0]) {
          BackgroundForwards(s, clears, acts[0]);
        } else {
          MutatorForwards(s, clears, acts[0]);
        }
        RunForwards(q, clears, acts[1..]);
      }
    }
  }

  // ------------------------------------------------------------------ the retry succeeds

  /** The handler recognizes the fault, and the decoded base register is in the frame. */
  predicate Recognized(fault: Fault) {
    (fault.code == PROT_CHERI_TAG || fault.code == PROT_CHERI_PERM) && fault.rn < REGS
  }

  /** Only register `i` changed, to a usable reference for the same object and offset. */
  ghost predicate Retries(s: State, r: State, i: nat) {
    && i < |s.regs| && i < |r.regs|
    && r == s.(regs := s.regs[i := r.regs[i]])
    && Usable(r, r.regs[i]) && Den(r.blocks, r.regs[i]) == Den(s.blocks, s.regs[i])
  }

  /** The decoded base register is tried first. */
  lemma BaseRegisterFirst(f: Resolver, file: seq<Cap>, fault: Fault)
    requires |file| == REGS && Recognized(fault) && TryReg(f, file[fault.rn]).Some?
    ensures Decide(f, file, fault) == Patched(fault.rn, TryReg(f, file[fault.rn]).value)
  {
  }

  lemma HealPatchesBase(s: State, lo: nat, fault: Fault, c: Cap)
    requires lo + REGS <= |s.regs| && Recognized(fault) && TryReg(ResolverOf(s), s.regs[lo + fault.rn]) == Some(c)
    ensures DoHeal(s, lo, fault) == s.(regs := s.regs[lo + fault.rn := c])
  {
    var file := s.regs[lo..lo + REGS];
    assert file[fault.rn] == s.regs[lo + fault.rn];
    BaseRegisterFirst(ResolverOf(s), file, fault);
  }

  /** Healing the base register of a faulting access makes that access possible, and touches nothing else. */
  lemma HealEnablesRetry(s: State, lo: nat, fault: Fault)
    requires Core(s) && lo + REGS <= |s.regs| && Recognized(fault)
    requires var c := s.regs[lo + fault.rn]; c.base in s.blocks && !Live(c) && Lookup(s.table, c.base).Some?
    ensures Retries(s, DoHeal(s, lo, fault), lo + fault.rn)
  {
    var c := s.regs[lo + fault.rn];
    assert CapOk(ShapeOf(s), c);
    HealsMoved(s, c);
    CarriedIsUsable(s, c);
    HealPatchesBase(s, lo, fault, Carried(s, Terminus(s.table, c.base), c));
  }

  lemma CarriedIsUsable(s: State, c: Cap)
    requires Core(s) && PointsInside(s, c)
    ensures Terminus(s.table, c.base) in s.blocks && Usable(s, Carried(s, Terminus(s.table, c.base), c))
    ensures Den(s.blocks, Carried(s, Terminus(s.table, c.base), c)) == Den(s.blocks, c)
  {
    CarriedIsSame(s, c);
    var t := Terminus(s.table, c.base);
    assert Load in Carried(s, t, c).perms;
    assert t <= t + (c.addr - c.base) < t + s.blocks[t].len;
  }

  /**
    In every reachable running state an access through an in-bounds reference either goes
    through, or faults and is healed so that the retry goes through, unless the reference's
    chain is longer than the lookup follows.
   */
  lemma AccessSucceeds(s: State, clears: Clears, acts: seq<Action>, lo: nat, fault: Fault)
    requires Inv(s) && Forwarded(s) && !s.halted
    requires var r := Run(s, clears, acts).0;
      && !r.halted && lo + REGS <= |r.regs| && Recognized(fault)
      && r.regs[lo + fault.rn].base in r.blocks
    ensures var r := Run(s, clears, acts).0;
      var c := r.regs[lo + fault.rn];
      || Usable(r, c)
      || Retries(r, DoHeal(r, lo, fault), lo + fault.rn)
      || (c.base in r.table && Increasing(r.table) && Depth(r.table, c.base) > CHASE_MAX)
  {
    RunForwards(s, clears, acts);
    var r := Run(s, clears, acts).0;
    var c := r.regs[lo + fault.rn];
    assert CapOk(ShapeOf(r), c) && DeadIsMoved(r.blocks, r.table, c);
    if Live(c) {
      LiveIsUsable(r, c);
    } else {
      LookupResolves(r.table, c.base);
      if Lookup(r.table, c.base).Some? {
        HealEnablesRetry(r, lo, fault);
      }
    }
  }

  lemma LiveIsUsable(s: State, c: Cap)
    requires Core(s) && CapOk(ShapeOf(s), c) && Live(c) && c.base in s.blocks
    ensures Usable(s, c)
  {
    assert c.base <= c.addr < c.base + s.blocks[c.base].len;
  }

  // ------------------------------------------------------------------ how many heals

  /** Steps that run no sweep over the registers. */
  predicate Unswept(act: Action) {
    !act.Pause? && !act.Close?
  }

  /** Steps with which the mutator writes a register. */
  predicate WritesReg(act: Action) {
    act.Alloc? || act.SetInt? || act.Copy? || act.Offset? || act.LoadCell?
  }

  function Writes(acts: seq<Action>): nat {
    if acts == [] then 0 else (if WritesReg(acts[0]) then 1 else 0) + Writes(acts[1..])
  }

  /** This step heals a register. */
  predicate Heals(s: State, clears: Clears, act: Action) {
    act.HealFault? && Apply(s, clears, act).0.regs != s.regs
  }

  function HealCount(s: State, clears: Clears, acts: seq<Action>): nat
    decreases |acts|
  {
    if acts == [] then 0
    else (if Heals(s, clears, acts[0]) then 1 else 0) + HealCount(Apply(s, clears, acts[0]).0, clears, acts[1..])
  }

  lemma WriteRevives(regs: seq<Cap>, i: nat, c: Cap)
    requires i < |regs|
    ensures DeadRegs(regs[i := c]) <= DeadRegs(regs) + 1
    ensures !Live(regs[i]) && Live(c) ==> DeadRegs(regs[i := c]) == DeadRegs(regs) - 1
  {
    DeadRegsUpdate(regs, i, c);
  }

  /** A patch, if any, replaces a capability that is not loadable by one that is. */
  ghost predicate Revives(s: State, lo: nat, o: Outcome) {
    match o
    case Unhealed => true
    case SiAddrOnly => true
    case Patched(reg, cap) => lo + reg < |s.regs| && !Live(s.regs[lo + reg]) && Live(cap)
  }

  lemma DecisionRevives(s: State, lo: nat, fault: Fault)
    requires Core(s) && lo + REGS <= |s.regs|
    ensures Revives(s, lo, Decide(ResolverOf(s), s.regs[lo..lo + REGS], fault))
  {
    hide Decide, Picked, Hits, Resolve;
    PickedIsPatched(s, lo, fault);
    var i := Picked(s, lo, fault);
    if Handled(fault) && i < REGS {
      assert CapOk(ShapeOf(s), s.regs[lo + i]);
      assert !Live(s.regs[lo + i]);
      ReplacementShows(s, s.regs[lo + i]);
    }
  }

  lemma ResumeRevives(s: State, lo: nat, o: Outcome)
    requires Revives(s, lo, o)
    ensures Resume(s, lo, o).regs == s.regs || DeadRegs(Resume(s, lo, o).regs) == DeadRegs(s.regs) - 1
  {
    hide Live, DeadRegs;
    if o.Patched? {
      WriteRevives(s.regs, lo + o.reg, o.cap);
    }
  }

  lemma HealRevives(s: State, lo: nat, fault: Fault)
    requires Core(s) && lo + REGS <= |s.regs|
    ensures var r := DoHeal(s, lo, fault); r.regs == s.regs || DeadRegs(r.regs) == DeadRegs(s.regs) - 1
  {
    hide Core, Decide, Revives, Resume, DeadRegs;
    DecisionRevives(s, lo, fault);
    ResumeRevives(s, lo, Decide(ResolverOf(s), s.regs[lo..lo + REGS], fault));
  }

  lemma MutatorWrites(s: State, clears: Clears, act: Action)
    requires WritesReg(act)
    ensures DeadRegs(Apply(s, clears, act).0.regs) <= DeadRegs(s.regs) + 1
  {
    if Enabled(s, act) {
      hide Place, Live, DeadRegs, AllocCap, Loaded, AddressSet, Sound;
      match act
      case Alloc(rd, size) =>
        WriteRevives(s.regs, rd, NULL);
        match Place(s.bump, RepresentableLength(size), s.root.len) {
          case NoFit =>
          case Fit(off, next) => WriteRevives(s.regs, rd, AllocCap(s.root, off, size));
        }
      case SetInt(rd, n) => WriteRevives(s.regs, rd, IntCap(n));
      case Copy(rd, rs) => WriteRevives(s.regs, rd, s.regs[rs]);
      case Offset(rd, rs, off) => WriteRevives(s.regs, rd, AddressSet(s.regs[rs], s.regs[rs].base + off));
      case LoadCell(rd, rs) => WriteRevives(s.regs, rd, Loaded(s, s.regs[rs]));
    }
  }

  lemma StepRevives(s: State, clears: Clears, act: Action)
    requires Inv(s) && Unswept(act)
    ensures DeadRegs(Apply(s, clears, act).0.regs) + (if Heals(s, clears, act) then 1 else 0)
         <= DeadRegs(s.regs) + if WritesReg(act) then 1 else 0
  {
    if WritesReg(act) {
      MutatorWrites(s, clears, act);
    } else if Enabled(s, act) && act.HealFault? {
      HealRevives(s, act.lo, act.fault);
    } else {
      hide Inv, DeadRegs, AcmpBarrier, Resolvable;
    }
  }

  lemma {:induction false} HaltedHealsNothing(s: State, clears: Clears, acts: seq<Action>)
    requires s.halted
    ensures HealCount(s, clears, acts) == 0
    decreases |acts|
  {
    if acts != [] {
      HaltedHealsNothing(s, clears, acts[1..]);
    }
  }

  /**
    Between two sweeps no more registers are healed than were not loadable to begin with, plus one
    for each register the mutator wrote: a load can bring in another stale reference.
   */
  lemma {:induction false} HealsAreBounded(s: State, clears: Clears, acts: seq<Action>)
    requires Inv(s) && !s.halted && forall i | 0 <= i < |acts| :: Unswept(acts[i])
    ensures HealCount(s, clears, acts) + DeadRegs(Run(s, clears, acts).0.regs) <= DeadRegs(s.regs) + Writes(acts)
    decreases |acts|
  {
    if acts != [] {
      var q := Apply(s, clears, acts[0]).0;
      StepRevives(s, clears, acts[0]);
      StepRefines(s, clears, acts[0]);
      hide Apply, Inv, DeadRegs, Heals;
      if q.halted {
        HaltedRun(q, clears, acts[1..], AState(map[], []));
        HaltedHealsNothing(q, clears, acts[1..]);
      } else {
        HealsAreBounded(q, clears, acts[1..]);
      }
    }
  }

  // ------------------------------------------------------------------ from the start

  /**
    All of it, from the start: whatever the kernel answers, a run shows the mutator only what a
    heap that never moves could show it; and while the program runs, the moving heap stands for
    that heap and everything revoked has a forwarding.
   */
  lemma RunFromStart(root: Cap, clearsTags: bool, slots: nat, registers: nat, clears: Clears, acts: seq<Action>)
    requires RootOk(root)
    ensures var a := AState(map[], seq(registers, _ => VInt(0)));
      var (r, evs) := Run(Start(root, clearsTags, slots, registers), clears, acts);
      && Allows(a, evs)
      && (!r.halted ==> Inv(r) && Forwarded(r) && Increasing(r.table) && Abs(r) == After(a, evs))
  {
    var s := Start(root, clearsTags, slots, registers);
    StartIsGood(root, clearsTags, slots, registers);
    StartIsForwarded(root, clearsTags, slots, registers);
    RunRefines(s, clears, acts);
    RunForwards(s, clears, acts);
  }

  /** And from the start every access through a reference that can be followed goes through, at once or after one heal. */
  lemma AccessFromStart(root: Cap, clearsTags: bool, slots: nat, registers: nat, clears: Clears, acts: seq<Action>,
                        lo: nat, fault: Fault)
    requires RootOk(root) && Recognized(fault)
    requires var r := Run(Start(root, clearsTags, slots, registers), clears, acts).0;
      !r.halted && lo + REGS <= |r.regs| && r.regs[lo + fault.rn].base in r.blocks
    ensures var r := Run(Start(root, clearsTags, slots, registers), clears, acts).0;
      var c := r.regs[lo + fault.rn];
      || Usable(r, c)
      || Retries(r, DoHeal(r, lo, fault), lo + fault.rn)
      || (c.base in r.table && Increasing(r.table) && Depth(r.table, c.base) > CHASE_MAX)
  {
    StartIsGood(root, clearsTags, slots, registers);
    StartIsForwarded(root, clearsTags, slots, registers);
    AccessSucceeds(Start(root, clearsTags, slots, registers), clears, acts, lo, fault);
  }

  /** A collector that has just started has revoked nothing. */
  lemma StartIsForwarded(root: Cap, clearsTags: bool, slots: nat, registers: nat)
    ensures Forwarded(Start(root, clearsTags, slots, registers))
  {
  }

  /** Visiting a root that holds the start of a moved object makes it the current copy's own capability, and moves nothing. */
  lemma FixedRootIsCurrent(sc: Scan, i: nat, kind: Root, limit: nat)
    requires Core(sc.heap) && !sc.heap.halted && HoldsObject(sc.heap, i, kind)
    requires Lookup(sc.heap.table, sc.heap.regs[i].base).Some?
    ensures var s, t := sc.heap, Terminus(sc.heap.table, sc.heap.regs[i].base);
      && t in s.blocks && t !in s.table && Live(LiveAt(ShapeOf(s), t, t))
      && VisitRoot(sc, i, kind, limit, true) == Scan(s.(regs := s.regs[i := LiveAt(ShapeOf(s), t, t)]), sc.moved)
  {
    ResolveIsCurrent(sc.heap, sc.heap.regs[i].base);
  }
}
