/**
  Memory is issued once: cells exist only where the allocation cursor has been, so what an
  allocation or a move writes was never part of another object, and the zeros a new object
  holds are those of pages nobody has touched.
 */
module MovingHeapMemory {
  import opened Prelude
  import opened Representable
  import opened Cheri
  import opened Allocator
  import opened Chase
  import opened ForwardTable
  import opened Handler
  import opened Revoke
  import opened MovingHeap
  import opened MovingHeapRefinement
  import opened MovingHeapPause
  import opened MovingHeapRuns

  /** Cells exist only below the cursor: nothing above it was ever issued. */
  ghost predicate Issued(s: State) {
    forall x | x in s.mem :: x < s.root.base + s.bump
  }

  lemma NewCopyIsAbove(s: State, len: nat)
    requires Core(s) && Sound(len, s.root.len) && ReprLen(len) == len && Place(s.bump, len, s.root.len).Fit?
    ensures var p := Place(s.bump, len, s.root.len); s.bump <= p.off && p.off + len == p.next
  {
    TurnFacts(s.bump, s.bump, len, s.root.len);
  }

  /**
    An allocation maps cells that were never issued: no existing cell is cleared, and the cells of
    the new object read as the fresh pages do.
   */
  lemma AllocTakesFreshCells(s: State, rd: nat, size: nat)
    requires Core(s) && Issued(s) && rd < |s.regs| && Sound(size, s.root.len)
    ensures var r := DoAlloc(s, rd, size).0;
      && Issued(r)
      && (forall x | x in s.mem :: x in r.mem && r.mem[x] == s.mem[x])
      && (forall x | x in r.mem && x !in s.mem :: s.root.base + s.bump <= x && r.mem[x] == NULL)
  {
    AllocIsPlacement(s.root, s.bump, size);
    var len := ReprLen(size);
    var p := Place(s.bump, len, s.root.len);
    if p.NoFit? {
      assert DoAlloc(s, rd, size).0 == s.(regs := s.regs[rd := NULL]);
    } else {
      NewCopyIsAbove(s, len);
      hide Place, Core, AllocCap;
      ClearedAbove(s, s.root.base + p.off, len, p.next);
    }
  }

  lemma ClearedAbove(s: State, b: nat, len: nat, next: nat)
    requires Issued(s) && s.root.base + s.bump <= b && b + len == s.root.base + next
    ensures var m := ClearCells(s.mem, b, len);
      && (forall x | x in m :: x < s.root.base + next)
      && (forall x | x in s.mem :: x in m && m[x] == s.mem[x])
      && (forall x | x in m && x !in s.mem :: s.root.base + s.bump <= x && m[x] == NULL)
  {
  }

  lemma MovedIssues(s: State, i: nat, fixup: bool, a: nat, b: nat, next: nat, c: Cap)
    requires Issued(s) && a in s.blocks && i < |s.regs| && s.bump <= next && b + s.blocks[a].len <= s.root.base + next
    ensures Issued(StoreRoot(Moved(s, a, b, next), i, fixup, c))
  {
    var m := CopyCells(s.mem, a, b, s.blocks[a].len);
    assert forall x | x in m :: x in s.mem || b <= x < b + s.blocks[a].len;
  }

  lemma RootPlacementIsAbove(s: State, i: nat)
    requires Core(s) && i < |s.regs| && s.regs[i].base in s.blocks && RootPlacement(s, i).Fit?
    ensures var p, len := RootPlacement(s, i), s.blocks[s.regs[i].base].len; s.bump <= p.off && p.off + len == p.next
  {
    assert CopyPlaced(s.root, s.bump, s.regs[i].base, s.blocks[s.regs[i].base].len);
    NewCopyIsAbove(s, s.blocks[s.regs[i].base].len);
  }

  lemma MoveIssues(s0: State, sc: Scan, i: nat, kind: Root, limit: nat, fixup: bool)
    requires Inv(s0) && Increasing(s0.table) && Scanned(s0, sc, i) && Moves(sc, i, kind, limit)
    requires |sc.heap.table| < sc.heap.slots && Issued(sc.heap)
    ensures Issued(VisitRoot(sc, i, kind, limit, fixup).heap)
  {
    hide Inv, Accounted, RoomAt, RootPlacement, Moved, FtDerive, Issued;
    var a, b, next := MoveFacts(s0, sc, i, kind, limit);
    VisitIsMove(s0, sc, i, kind, limit, fixup, a, b, next);
    RootPlacementIsAbove(sc.heap, i);
    hide VisitRoot, Moves, Core;
    MovedIssues(sc.heap, i, fixup, a, b, next, FtDerive(Some(sc.heap.root), b, sc.heap.blocks[a].len));
  }

  lemma SettleIssues(sc: Scan, i: nat, kind: Root, limit: nat, fixup: bool)
    requires Issued(sc.heap) && !Moves(sc, i, kind, limit)
    ensures Issued(VisitRoot(sc, i, kind, limit, fixup).heap)
  {
    hide Moves, Resolve, Live;
  }

  lemma {:induction false} WalkIssues(s: State, roots: seq<Root>, limit: nat, fixup: bool, n: nat)
    requires Inv(s) && Increasing(s.table) && !s.halted && Issued(s) && n <= |roots|
    requires ScanRoots(s, roots, limit, fixup, n).moved <= Free(s)
    ensures Issued(ScanRoots(s, roots, limit, fixup, n).heap)
  {
    hide VisitRoot, Moves, Unseen, Inv, Core, Issued;
    if n > 0 {
      var sc := ScanRoots(s, roots, limit, fixup, n - 1);
      OneMoveAtMost(sc, n - 1, roots[n - 1], limit, fixup);
      WalkIssues(s, roots, limit, fixup, n - 1);
      WalkIsUnseen(s, roots, limit, fixup, n - 1);
      HaltedMovesNothing(sc, n - 1, roots[n - 1], limit);
      if Moves(sc, n - 1, roots[n - 1], limit) {
        MoveIssues(s, sc, n - 1, roots[n - 1], limit, fixup);
      } else {
        SettleIssues(sc, n - 1, roots[n - 1], limit, fixup);
      }
    }
  }

  lemma PublishIssues(s: State, clears: Clears, e0: nat, script: seq<Reply>)
    requires Issued(s)
    ensures Issued(Publish(s, clears, e0, script))
  {
  }

  lemma PauseIssues(s: State, clears: Clears, callocOk: bool, roots: seq<Root>, limit: nat, fixup: bool, e0: nat,
                    script: seq<Reply>)
    requires Inv(s) && !s.halted && Issued(s) && PauseFits(s, callocOk, roots, limit, fixup)
    ensures Issued(DoPause(s, clears, callocOk, roots, limit, fixup, e0, script))
  {
    TableIncreases(s.blocks, s.table);
    var g := Grown(s, callocOk);
    GrownIsSame(s, callocOk);
    FitsIff(s, callocOk, roots, limit, fixup);
    hide ScanRoots, Publish, Core, Inv, PauseFits;
    WalkIssues(g, roots, LimitNow(s, limit), fixup, |roots|);
    PublishIssues(ScanRoots(g, roots, LimitNow(s, limit), fixup, |roots|).heap, clears, e0, script);
  }

  lemma ResumeKeepsCells(s: State, lo: nat, o: Outcome)
    ensures var r := Resume(s, lo, o); r.mem == s.mem && r.bump == s.bump && r.root == s.root
  {
  }

  lemma BackgroundIssues(s: State, clears: Clears, act: Action)
    requires Inv(s) && !s.halted && Issued(s) && Background(act)
    ensures Issued(Apply(s, clears, act).0)
  {
    if Enabled(s, act) {
      hide Inv, Decide, ClosesWithin, DoPause, PauseFits;
      match act
      case HealFault(lo, fault) => ResumeKeepsCells(s, lo, Decide(ResolverOf(s), s.regs[lo..lo + REGS], fault));
      case Pause(callocOk, roots, limit, fixup, e0, script) =>
        PauseIssues(s, clears, callocOk, roots, limit, fixup, e0, script);
      case Close(target, script) => assert DoClose(s, clears, target, script).mem.Keys == s.mem.Keys;
      case LazySweep(x) =>
    }
  }

  lemma MutatorIssues(s: State, clears: Clears, act: Action)
    requires Inv(s) && !s.halted && Issued(s) && !Background(act)
    ensures Issued(Apply(s, clears, act).0)
  {
    if Enabled(s, act) {
      if act.Alloc? {
        AllocTakesFreshCells(s, act.rd, act.size);
      } else {
        hide Inv, AcmpBarrier, Resolvable, DoAlloc, Loaded, AddressSet;
      }
    }
  }

  /** In every run memory exists only where the cursor has been, so every allocation gets fresh pages. */
  lemma {:induction false} RunIssues(s: State, clears: Clears, acts: seq<Action>)
    requires Inv(s) && Issued(s) && !s.halted
    ensures var r := Run(s, clears, acts).0; !r.halted ==> Inv(r) && Issued(r)
    decreases |acts|
  {
    if acts != [] {
      var q := Apply(s, clears, acts[0]).0;
      StepRefines(s, clears, acts[0]);
      if Background(acts[0]) {
        BackgroundIssues(s, clears, acts[0]);
      } else {
        MutatorIssues(s, clears, acts[0]);
      }
      hide Apply, Inv, Issued;
      if q.halted {
        HaltedRun(q, clears, acts[1..], AState(map[], []));
      } else {
        RunIssues(q, clears, acts[1..]);
      }
    }
  }

  /** From the start: whatever has run before, an allocation takes only never-issued cells, and they read as zero. */
  lemma AllocFromStart(root: Cap, clearsTags: bool, slots: nat, registers: nat, clears: Clears, acts: seq<Action>,
                       rd: nat, size: nat)
    requires RootOk(root)
    requires var s := Run(Start(root, clearsTags, slots, registers), clears, acts).0; Enabled(s, Alloc(rd, size))
    ensures var s := Run(Start(root, clearsTags, slots, registers), clears, acts).0;
      var r := Apply(s, clears, Alloc(rd, size)).0;
      && (forall x | x in s.mem :: x in r.mem && r.mem[x] == s.mem[x])
      && (forall x | x in r.mem && x !in s.mem :: s.root.base + s.bump <= x && r.mem[x] == NULL)
  {
    StartIsGood(root, clearsTags, slots, registers);
    RunIssues(Start(root, clearsTags, slots, registers), clears, acts);
    AllocTakesFreshCells(Run(Start(root, clearsTags, slots, registers), clears, acts).0, rd, size);
  }
}
