/**
  The collection pause: a walk over the root slots that moves, forwards and fixes, and then the
  publication of the marks. A pause is invisible exactly when the forwarding table has a slot
  for every object the walk moves.
 */
module MovingHeapPause {
  import opened Prelude
  import opened Representable
  import opened Cheri
  import opened Allocator
  import opened Chase
  import opened ForwardTable
  import opened Handler
  import opened Revoke
  import opened MovingHeap
  import opened MovingHeapRefinement

  // ------------------------------------------------------------------ the walk so far

  /** Every forwarding added since `s0` leads to a copy that did not exist then, and ends there. */
  ghost predicate NewEntriesFresh(s0: State, r: State) {
    forall k | k in r.table && k !in s0.table :: r.table[k].addr !in r.table && r.table[k].addr !in s0.blocks
  }

  /** What a pause leaves alone. */
  ghost predicate SameFrame(s0: State, r: State) {
    r.(bump := s0.bump, blocks := s0.blocks, mem := s0.mem, table := s0.table, regs := s0.regs, marks := s0.marks) == s0
  }

  /** Root slots from `n` on are still as they were. */
  ghost predicate Unvisited(s0: State, r: State, n: nat) {
    |r.regs| == |s0.regs| && forall j | n <= j < |s0.regs| :: r.regs[j] == s0.regs[j]
  }

  /** The walk's accounts: one new forwarding for each move, and nothing else changed but roots and marks. */
  ghost predicate Accounted(s0: State, sc: Scan, n: nat) {
    match sc
    case Scan(r, moved) =>
      && NewEntriesFresh(s0, r) && s0.blocks.Keys <= r.blocks.Keys
      && SameFrame(s0, r) && Unvisited(s0, r, n)
      && |r.table| == |s0.table| + moved
      && (moved == 0 ==> r.(regs := s0.regs) == s0)
  }

  /** The walk has been invisible; a walk that moved nothing is safe to resume from. */
  ghost predicate Unseen(s0: State, sc: Scan)
    requires Increasing(s0.table)
  {
    match sc
    case Scan(r, moved) =>
      Core(r) && Increasing(r.table) && Abs(r) == Abs(s0) && (moved == 0 ==> Safe(r))
  }

  ghost predicate Scanned(s0: State, sc: Scan, n: nat)
    requires Increasing(s0.table)
  {
    Unseen(s0, sc) && Accounted(s0, sc, n)
  }

  lemma NewEntryResolves(s0: State, s: State, k: nat)
    requires NewEntriesFresh(s0, s)
    ensures k in s.table && k !in s0.table ==> Lookup(s.table, k).Some?
  {
    assert k in s.table && k !in s0.table ==> Final(s.table, s.table[k].addr);
  }

  /** An object that a visit moves has not been forwarded before. */
  lemma MoverUnmapped(s0: State, sc: Scan, i: nat, kind: Root, limit: nat)
    requires Inv(s0) && Increasing(s0.table) && Scanned(s0, sc, i) && Moves(sc, i, kind, limit)
    ensures sc.heap.regs[i].base !in sc.heap.table && sc.heap.regs[i].base in s0.blocks
  {
    var s, a := sc.heap, sc.heap.regs[i].base;
    assert s.regs[i] == s0.regs[i] && CapOk(ShapeOf(s0), s0.regs[i]);
    assert a !in s0.table;
    ResolveIsCurrent(s, a);
    NewEntryResolves(s0, s, a);
    NoZeroCopy(s0.blocks);
  }

  /** The new copy of a moved root, and what the table answers for it. */
  lemma MovedRoot(s: State, a: nat, b: nat, next: nat, c: Cap)
    requires Core(s) && Increasing(s.table) && a in s.blocks && a !in s.table && RoomAt(s, a, b, next)
    requires c.base == a == c.addr
    ensures var m, n := Moved(s, a, b, next), FtDerive(Some(s.root), b, s.blocks[a].len);
      CapOk(ShapeOf(m), n) && Den(m.blocks, n) == Den(m.blocks, c) && Live(n)
  {
    var g := s.blocks[b := s.blocks[a]];
    assert CopyPlaced(s.root, next, b, g[b].len);
    DerivePlaced(s.root, b, s.blocks[a].len);
  }

  lemma StoreRootInvisible(s: State, i: nat, fixup: bool, c: Cap)
    requires Core(s) && Increasing(s.table) && i < |s.regs| && CapOk(ShapeOf(s), c)
    requires Den(s.blocks, c) == Den(s.blocks, s.regs[i])
    ensures Core(StoreRoot(s, i, fixup, c)) && Abs(StoreRoot(s, i, fixup, c)) == Abs(s)
    ensures Safe(s) && (Live(c) ==> c.base !in s.table) ==> Safe(StoreRoot(s, i, fixup, c))
  {
    SetReg(s, i, c);
  }

  /** The room a move finds. */
  lemma RootRoom(s: State, i: nat)
    requires Core(s) && i < |s.regs| && s.regs[i].base in s.blocks && RootPlacement(s, i).Fit?
    ensures RoomAt(s, s.regs[i].base, s.root.base + RootPlacement(s, i).off, RootPlacement(s, i).next)
  {
    PlacementHasRoom(s, s.regs[i].base, RootPlacement(s, i));
  }

  /** A move that finds a free slot is invisible. */
  lemma MoveKeeps(s: State, i: nat, fixup: bool, a: nat, b: nat, next: nat)
    requires Core(s) && Increasing(s.table) && a in s.blocks && a !in s.table && RoomAt(s, a, b, next)
    requires i < |s.regs| && s.regs[i].base == a == s.regs[i].addr
    ensures var r := StoreRoot(Moved(s, a, b, next), i, fixup, FtDerive(Some(s.root), b, s.blocks[a].len));
      Core(r) && Increasing(r.table) && Abs(r) == Abs(s)
  {
    MovedState(s, a, b, next);
    MovedRoot(s, a, b, next, s.regs[i]);
    StoreRootInvisible(Moved(s, a, b, next), i, fixup, FtDerive(Some(s.root), b, s.blocks[a].len));
  }

  lemma MoveAccounts(s0: State, sc: Scan, i: nat, fixup: bool, a: nat, b: nat, next: nat, n: Cap)
    requires Accounted(s0, sc, i) && i < |sc.heap.regs|
    requires a in sc.heap.blocks && a in s0.blocks && a !in sc.heap.table && a != b
    requires b !in sc.heap.blocks && b !in sc.heap.table
    ensures Accounted(s0, Scan(StoreRoot(Moved(sc.heap, a, b, next), i, fixup, n), sc.moved + 1), i + 1)
  {
  }

  lemma NewIsUnmapped(s: State, b: nat)
    requires Core(s) && b !in s.blocks
    ensures b !in s.table
  {
    FreshIsUnmapped(s.blocks, s.table, b);
  }

  /** Where and how a visit moves its object. */
  ghost predicate MoveIs(s0: State, sc: Scan, i: nat, a: nat, b: nat, next: nat) {
    && i < |sc.heap.regs| && sc.heap.regs[i].base == a == sc.heap.regs[i].addr
    && a in sc.heap.blocks && a in s0.blocks && a !in sc.heap.table && a != b
    && b !in sc.heap.blocks && b !in sc.heap.table && RoomAt(sc.heap, a, b, next)
  }

  lemma MoveFacts(s0: State, sc: Scan, i: nat, kind: Root, limit: nat) returns (a: nat, b: nat, next: nat)
    requires Inv(s0) && Increasing(s0.table) && Scanned(s0, sc, i) && Moves(sc, i, kind, limit)
    ensures MoveIs(s0, sc, i, a, b, next)
    ensures RootPlacement(sc.heap, i).Fit? && next == RootPlacement(sc.heap, i).next
    ensures b == sc.heap.root.base + RootPlacement(sc.heap, i).off
  {
    var s := sc.heap;
    hide Core, Inv, Accounted, RootPlacement, Resolve, AllPlaced, AllBelow;
    a, b, next := s.regs[i].base, s.root.base + RootPlacement(s, i).off, RootPlacement(s, i).next;
    MoverUnmapped(s0, sc, i, kind, limit);
    RootRoom(s, i);
    NewIsUnmapped(s, b);
  }

  function MovedScan(sc: Scan, i: nat, fixup: bool, a: nat, b: nat, next: nat): Scan
    requires i < |sc.heap.regs| && a in sc.heap.blocks
  {
    Scan(StoreRoot(Moved(sc.heap, a, b, next), i, fixup, FtDerive(Some(sc.heap.root), b, sc.heap.blocks[a].len)),
         sc.moved + 1)
  }

  lemma VisitIsMove(s0: State, sc: Scan, i: nat, kind: Root, limit: nat, fixup: bool, a: nat, b: nat, next: nat)
    requires Moves(sc, i, kind, limit) && MoveIs(s0, sc, i, a, b, next) && |sc.heap.table| < sc.heap.slots
    requires next == RootPlacement(sc.heap, i).next && b == sc.heap.root.base + RootPlacement(sc.heap, i).off
    ensures VisitRoot(sc, i, kind, limit, fixup) == MovedScan(sc, i, fixup, a, b, next)
  {
    hide Place, Resolve, RoomAt;
  }

  lemma MoveUnseen(s0: State, sc: Scan, i: nat, fixup: bool, a: nat, b: nat, next: nat)
    requires Increasing(s0.table) && Unseen(s0, sc) && MoveIs(s0, sc, i, a, b, next)
    ensures Unseen(s0, MovedScan(sc, i, fixup, a, b, next))
  {
    MoveKeeps(sc.heap, i, fixup, a, b, next);
  }

  /** A visit that moves, with a free slot, is one more unseen move. */
  lemma MoveStep(s0: State, sc: Scan, i: nat, kind: Root, limit: nat, fixup: bool)
    requires Inv(s0) && Increasing(s0.table) && Scanned(s0, sc, i) && Moves(sc, i, kind, limit)
    requires |sc.heap.table| < sc.heap.slots
    ensures Scanned(s0, VisitRoot(sc, i, kind, limit, fixup), i + 1)
  {
    hide Inv, Unseen, Accounted, RoomAt, RootPlacement, Moved, FtDerive;
    var a, b, next := MoveFacts(s0, sc, i, kind, limit);
    VisitIsMove(s0, sc, i, kind, limit, fixup, a, b, next);
    MoveUnseen(s0, sc, i, fixup, a, b, next);
    hide VisitRoot, Moves;
    MoveAccounts(s0, sc, i, fixup, a, b, next, FtDerive(Some(sc.heap.root), b, sc.heap.blocks[a].len));
  }

  /** What a forwarded root is overwritten with is fresh and denotes the same object. */
  lemma FixIsFresh(s: State, c: Cap)
    requires Core(s) && Increasing(s.table) && CapOk(ShapeOf(s), c)
    requires c.base in s.blocks && c.addr == c.base && !IsNull(Resolve(ResolverOf(s), c.addr))
    ensures var n := Resolve(ResolverOf(s), c.addr); Fresh(s, n) && Den(s.blocks, n) == Den(s.blocks, c)
  {
    ResolveIsCurrent(s, c.base);
    CarriedIsSame(s, c);
  }

  lemma FixKeeps(s: State, i: nat, fixup: bool)
    requires Core(s) && Increasing(s.table) && i < |s.regs|
    requires s.regs[i].base in s.blocks && s.regs[i].addr == s.regs[i].base && !IsNull(Resolve(ResolverOf(s), s.regs[i].addr))
    ensures var r := StoreRoot(s, i, fixup, Resolve(ResolverOf(s), s.regs[i].addr));
      Core(r) && Abs(r) == Abs(s) && (Safe(s) ==> Safe(r))
  {
    hide Resolve;
    assert CapOk(ShapeOf(s), s.regs[i]);
    FixIsFresh(s, s.regs[i]);
    StoreRootInvisible(s, i, fixup, Resolve(ResolverOf(s), s.regs[i].addr));
  }

  /** A forwarded root is fixed unseen. */
  lemma FixUnseen(s0: State, sc: Scan, i: nat, fixup: bool)
    requires Increasing(s0.table) && Unseen(s0, sc) && i < |sc.heap.regs|
    requires sc.heap.regs[i].base in sc.heap.blocks && sc.heap.regs[i].addr == sc.heap.regs[i].base
    requires !IsNull(Resolve(ResolverOf(sc.heap), sc.heap.regs[i].addr))
    ensures Unseen(s0, Scan(StoreRoot(sc.heap, i, fixup, Resolve(ResolverOf(sc.heap), sc.heap.regs[i].addr)), sc.moved))
  {
    hide Resolve;
    FixKeeps(sc.heap, i, fixup);
  }

  lemma FixAccounts(s0: State, sc: Scan, i: nat, fixup: bool, c: Cap)
    requires Accounted(s0, sc, i)
    ensures Accounted(s0, sc, i + 1)
    ensures i < |sc.heap.regs| ==> Accounted(s0, Scan(StoreRoot(sc.heap, i, fixup, c), sc.moved), i + 1)
  {
  }

  /** A visit that moves nothing is unseen, or meets an unforwarded fault. */
  lemma SettleStep(s0: State, sc: Scan, i: nat, kind: Root, limit: nat, fixup: bool)
    requires Increasing(s0.table) && Scanned(s0, sc, i) && !Moves(sc, i, kind, limit)
    ensures VisitRoot(sc, i, kind, limit, fixup).heap.halted || Scanned(s0, VisitRoot(sc, i, kind, limit, fixup), i + 1)
  {
    hide Unseen, Accounted, Resolve, Place;
    var s := sc.heap;
    if HoldsObject(s, i, kind) && !IsNull(Resolve(ResolverOf(s), s.regs[i].addr)) {
      FixUnseen(s0, sc, i, fixup);
      FixAccounts(s0, sc, i, fixup, Resolve(ResolverOf(s), s.regs[i].addr));
    } else {
      FixAccounts(s0, sc, i, fixup, NULL);
    }
  }

  // ------------------------------------------------------------------ the whole walk

  lemma {:induction false} MovedIsBounded(s: State, roots: seq<Root>, limit: nat, fixup: bool, n: nat)
    requires n <= |roots|
    ensures ScanRoots(s, roots, limit, fixup, n).moved <= n
    ensures ScanRoots(s, roots, limit, fixup, n).moved <= limit
  {
    hide VisitRoot, Moves;
    if n > 0 {
      MovedIsBounded(s, roots, limit, fixup, n - 1);
      OneMoveAtMost(ScanRoots(s, roots, limit, fixup, n - 1), n - 1, roots[n - 1], limit, fixup);
    }
  }

  lemma OneMoveAtMost(sc: Scan, i: nat, kind: Root, limit: nat, fixup: bool)
    ensures VisitRoot(sc, i, kind, limit, fixup).moved == sc.moved + if Moves(sc, i, kind, limit) then 1 else 0
    ensures Moves(sc, i, kind, limit) ==> sc.moved < limit
  {
    hide MoveTheRoot, SettleRoot;
  }

  /** As long as the moves made fit into the free slots, the walk is unseen. */
  lemma {:induction false} WalkIsUnseen(s: State, roots: seq<Root>, limit: nat, fixup: bool, n: nat)
    requires Inv(s) && Increasing(s.table) && !s.halted && n <= |roots|
    requires ScanRoots(s, roots, limit, fixup, n).moved <= Free(s)
    ensures var sc := ScanRoots(s, roots, limit, fixup, n); sc.heap.halted || Scanned(s, sc, n)
  {
    hide VisitRoot, Moves, Unseen, Inv;
    if n == 0 {
      WalkStarts(s);
    } else {
      var sc := ScanRoots(s, roots, limit, fixup, n - 1);
      OneMoveAtMost(sc, n - 1, roots[n - 1], limit, fixup);
      WalkIsUnseen(s, roots, limit, fixup, n - 1);
      if sc.heap.halted {
        HaltedStays(sc, n - 1, roots[n - 1], limit, fixup);
      } else {
        if Moves(sc, n - 1, roots[n - 1], limit) {
          MoveStep(s, sc, n - 1, roots[n - 1], limit, fixup);
        } else {
          SettleStep(s, sc, n - 1, roots[n - 1], limit, fixup);
        }
      }
    }
  }

  lemma WalkStarts(s: State)
    requires Inv(s) && Increasing(s.table)
    ensures Scanned(s, Scan(s, 0), 0)
  {
  }

  lemma HaltedStays(sc: Scan, i: nat, kind: Root, limit: nat, fixup: bool)
    requires sc.heap.halted
    ensures VisitRoot(sc, i, kind, limit, fixup) == sc
  {
  }

  // ------------------------------------------------------------------ the dry run

  function WithSlots(sc: Scan, slots: nat): Scan {
    sc.(heap := sc.heap.(slots := slots))
  }

  lemma MovesIgnoresSlots(sc: Scan, i: nat, kind: Root, limit: nat, slots: nat)
    ensures Moves(WithSlots(sc, slots), i, kind, limit) == Moves(sc, i, kind, limit)
  {
    hide Place, Resolve;
    assert ResolverOf(WithSlots(sc, slots).heap) == ResolverOf(sc.heap);
  }

  lemma SettlingIgnoresSlots(sc: Scan, i: nat, kind: Root, below: bool, fixup: bool, slots: nat)
    ensures SettleRoot(sc.heap.(slots := slots), i, kind, below, fixup)
         == SettleRoot(sc.heap, i, kind, below, fixup).(slots := slots)
  {
    hide Resolve;
    assert ResolverOf(sc.heap.(slots := slots)) == ResolverOf(sc.heap);
  }

  lemma MovingIgnoresSlots(s: State, i: nat, fixup: bool, slots: nat)
    requires i < |s.regs| && s.regs[i].base in s.blocks && RootPlacement(s, i).Fit?
    requires |s.table| < s.slots && |s.table| < slots
    ensures RootPlacement(s.(slots := slots), i) == RootPlacement(s, i)
    ensures MoveTheRoot(s.(slots := slots), i, fixup) == MoveTheRoot(s, i, fixup).(slots := slots)
  {
    hide Place, FtDerive, CopyCells;
  }

  /** The capacity matters to a visit only where a forwarding is inserted. */
  lemma SlotsDontMatter(sc: Scan, i: nat, kind: Root, limit: nat, fixup: bool, slots: nat)
    ensures Moves(WithSlots(sc, slots), i, kind, limit) == Moves(sc, i, kind, limit)
    ensures (Moves(sc, i, kind, limit) ==> |sc.heap.table| < sc.heap.slots && |sc.heap.table| < slots) ==>
      VisitRoot(WithSlots(sc, slots), i, kind, limit, fixup) == WithSlots(VisitRoot(sc, i, kind, limit, fixup), slots)
  {
    hide Place, Resolve, MoveTheRoot, SettleRoot;
    MovesIgnoresSlots(sc, i, kind, limit, slots);
    SettlingIgnoresSlots(sc, i, kind, sc.moved < limit, fixup, slots);
    if Moves(sc, i, kind, limit) && |sc.heap.table| < sc.heap.slots && |sc.heap.table| < slots {
      MovingIgnoresSlots(sc.heap, i, fixup, slots);
    }
  }

  /** Up to the point where the table is full, the walk goes as with a larger table. */
  lemma {:induction false} WalksAlike(s: State, roots: seq<Root>, limit: nat, fixup: bool, n: nat, slots: nat)
    requires Inv(s) && Increasing(s.table) && !s.halted && n <= |roots| && |s.table| + n <= slots
    requires ScanRoots(s, roots, limit, fixup, n).moved <= Free(s)
    ensures ScanRoots(s.(slots := slots), roots, limit, fixup, n) == WithSlots(ScanRoots(s, roots, limit, fixup, n), slots)
  {
    hide VisitRoot, Moves, Unseen, Inv;
    if n > 0 {
      var sc := ScanRoots(s, roots, limit, fixup, n - 1);
      OneMoveAtMost(sc, n - 1, roots[n - 1], limit, fixup);
      WalksAlike(s, roots, limit, fixup, n - 1, slots);
      WalkIsUnseen(s, roots, limit, fixup, n - 1);
      MovedIsBounded(s, roots, limit, fixup, n - 1);
      HaltedMovesNothing(sc, n - 1, roots[n - 1], limit);
      SlotsDontMatter(sc, n - 1, roots[n - 1], limit, fixup, slots);
    }
  }

  lemma HaltedMovesNothing(sc: Scan, i: nat, kind: Root, limit: nat)
    ensures sc.heap.halted ==> !Moves(sc, i, kind, limit)
  {
  }

  /** The walk overruns the free slots exactly when the dry run says so. */
  lemma {:induction false} DemandIsExact(s: State, roots: seq<Root>, limit: nat, fixup: bool, n: nat, slots: nat)
    requires Inv(s) && Increasing(s.table) && !s.halted && n <= |roots| && |s.table| + n <= slots
    ensures ScanRoots(s, roots, limit, fixup, n).moved <= Free(s)
       <==> ScanRoots(s.(slots := slots), roots, limit, fixup, n).moved <= Free(s)
  {
    hide VisitRoot, Moves, Inv;
    if n > 0 {
      var sc := ScanRoots(s, roots, limit, fixup, n - 1);
      DemandIsExact(s, roots, limit, fixup, n - 1, slots);
      OneMoveAtMost(sc, n - 1, roots[n - 1], limit, fixup);
      OneMoveAtMost(ScanRoots(s.(slots := slots), roots, limit, fixup, n - 1), n - 1, roots[n - 1], limit, fixup);
      if sc.moved <= Free(s) {
        WalksAlike(s, roots, limit, fixup, n - 1, slots);
        SlotsDontMatter(sc, n - 1, roots[n - 1], limit, fixup, slots);
      }
    }
  }

  // ------------------------------------------------------------------ a full table

  /** The copy at `a` is marked although nothing forwards it, and root slot `i` lost its reference to it. */
  ghost predicate Lost(s0: State, r: State, a: nat, i: nat, fixup: bool) {
    && a in r.marks && a !in r.table && |r.table| >= r.slots
    && i < |r.regs| && i < |s0.regs| && s0.regs[i].base in s0.blocks
    && 0 !in r.blocks && Increasing(r.table)
    && (fixup ==> r.regs[i] == NULL)
  }

  /** A move into a full table: `cas_insert` answers NULL, and the root is overwritten with it. */
  lemma MoveLoses(s0: State, sc: Scan, i: nat, kind: Root, limit: nat, fixup: bool) returns (a: nat)
    requires Inv(s0) && Increasing(s0.table) && Scanned(s0, sc, i) && Moves(sc, i, kind, limit)
    requires |sc.heap.table| >= sc.heap.slots
    ensures Lost(s0, VisitRoot(sc, i, kind, limit, fixup).heap, a, i, fixup)
  {
    a := sc.heap.regs[i].base;
    NoZeroCopy(sc.heap.blocks);
    MoverUnmapped(s0, sc, i, kind, limit);
    hide Place, Resolve, CopyCells;
  }

  /** No later visit repairs it. */
  lemma LostStays(s0: State, sc: Scan, a: nat, i: nat, j: nat, kind: Root, limit: nat, fixup: bool)
    requires Lost(s0, sc.heap, a, i, fixup) && i < j
    ensures Lost(s0, VisitRoot(sc, j, kind, limit, fixup).heap, a, i, fixup)
  {
    hide Place, Resolve, CopyCells;
  }

  lemma {:induction false} OverrunLoses(s: State, roots: seq<Root>, limit: nat, fixup: bool, n: nat)
    returns (a: nat, i: nat)
    requires Inv(s) && Increasing(s.table) && !s.halted && n <= |roots|
    requires ScanRoots(s, roots, limit, fixup, n).moved > Free(s)
    ensures i < n && Lost(s, ScanRoots(s, roots, limit, fixup, n).heap, a, i, fixup)
  {
    hide VisitRoot, Moves, Unseen, Inv, Lost;
    var sc := ScanRoots(s, roots, limit, fixup, n - 1);
    OneMoveAtMost(sc, n - 1, roots[n - 1], limit, fixup);
    if sc.moved <= Free(s) {
      WalkIsUnseen(s, roots, limit, fixup, n - 1);
      HaltedMovesNothing(sc, n - 1, roots[n - 1], limit);
      a := MoveLoses(s, sc, n - 1, roots[n - 1], limit, fixup);
      i := n - 1;
    } else {
      a, i := OverrunLoses(s, roots, limit, fixup, n - 1);
      LostStays(s, sc, a, i, n - 1, roots[n - 1], limit, fixup);
    }
  }

  // ------------------------------------------------------------------ the pause

  lemma GrownIsSame(s: State, callocOk: bool)
    ensures Grown(s, callocOk).(slots := s.slots) == s
    ensures Inv(s) ==> Inv(Grown(s, callocOk))
    ensures Increasing(s.table) ==> Abs(Grown(s, callocOk)) == Abs(s)
  {
  }

  /** The walk of a pause fits into the table exactly when its dry run does. */
  lemma FitsIff(s: State, callocOk: bool, roots: seq<Root>, limit: nat, fixup: bool)
    requires Inv(s) && Increasing(s.table) && !s.halted
    ensures PauseFits(s, callocOk, roots, limit, fixup)
       <==> ScanRoots(Grown(s, callocOk), roots, LimitNow(s, limit), fixup, |roots|).moved <= Free(Grown(s, callocOk))
  {
    GrownIsSame(s, callocOk);
    hide Inv, ScanRoots;
    var g := Grown(s, callocOk);
    DemandIsExact(g, roots, LimitNow(s, limit), fixup, |roots|, |g.table| + |roots|);
  }

  lemma FittingPause(s: State, clears: Clears, callocOk: bool, roots: seq<Root>, limit: nat, fixup: bool, e0: nat, script: seq<Reply>)
    requires Inv(s) && Increasing(s.table) && !s.halted && PauseFits(s, callocOk, roots, limit, fixup)
    ensures var sc := ScanRoots(Grown(s, callocOk), roots, LimitNow(s, limit), fixup, |roots|);
      sc.heap.halted || Scanned(Grown(s, callocOk), sc, |roots|)
  {
    GrownIsSame(s, callocOk);
    hide Inv, ScanRoots;
    FitsIff(s, callocOk, roots, limit, fixup);
    WalkIsUnseen(Grown(s, callocOk), roots, LimitNow(s, limit), fixup, |roots|);
  }

  /** From the end of an unseen walk to the end of the pause. */
  lemma EndPause(s: State, g: State, sc: Scan, n: nat, clears: Clears, e0: nat, script: seq<Reply>)
    requires Increasing(s.table) && Increasing(g.table) && Scanned(g, sc, n) && Abs(g) == Abs(s)
    requires sc.moved == 0 || g.armed == {}
    ensures Invisible(s, if sc.moved == 0 then sc.heap else Publish(sc.heap, clears, e0, script))
  {
    if sc.moved > 0 {
      PublishIsSafe(sc.heap, clears, e0, script);
    }
  }

  /** A pause whose moves fit into the table is invisible, or stops the program. */
  lemma PauseStep(s: State, clears: Clears, callocOk: bool, roots: seq<Root>, limit: nat, fixup: bool, e0: nat, script: seq<Reply>)
    requires Inv(s) && !s.halted && PauseFits(s, callocOk, roots, limit, fixup)
    ensures Invisible(s, DoPause(s, clears, callocOk, roots, limit, fixup, e0, script))
  {
    TableIncreases(s.blocks, s.table);
    assert !s.pending ==> s.armed == {};
    hide Inv, Core, ScanRoots, Publish, Unseen, Accounted, PauseFits;
    GrownIsSame(s, callocOk);
    FittingPause(s, clears, callocOk, roots, limit, fixup, e0, script);
    var g := Grown(s, callocOk);
    MovedIsBounded(g, roots, LimitNow(s, limit), fixup, |roots|);
    var sc := ScanRoots(g, roots, LimitNow(s, limit), fixup, |roots|);
    if !sc.heap.halted {
      EndPause(s, g, sc, |roots|, clears, e0, script);
    }
  }

  lemma SweepKeepsLoss(s: State, r: State, a: nat, i: nat, fixup: bool, dead: set<nat>)
    requires Lost(s, r, a, i, fixup)
    ensures Lost(s, SweepRegs(r, dead), a, i, fixup)
  {
  }

  /** Publishing neither marks nor forwards, and leaves a NULL root NULL. */
  lemma PublishKeepsLoss(s: State, r: State, a: nat, i: nat, fixup: bool, clears: Clears, e0: nat, script: seq<Reply>)
    requires Lost(s, r, a, i, fixup)
    ensures Lost(s, Publish(r, clears, e0, script), a, i, fixup)
  {
    hide OpenCode, SweepsWithin, SweptMem;
    SweepKeepsLoss(s, r, a, i, fixup, r.marks);
  }

  /** A lost root shows. */
  lemma LossShows(s: State, g: State, r: State, a: nat, i: nat, fixup: bool)
    requires Increasing(s.table) && g.(slots := s.slots) == s && Lost(g, r, a, i, fixup)
    ensures r.marks != r.table.Keys
    ensures fixup ==> Abs(r) != Abs(s)
  {
    assert i < |s.regs| && RegVals(s.blocks, s.regs)[i] == Den(s.blocks, s.regs[i]);
    assert RegVals(r.blocks, r.regs)[i] == Den(r.blocks, r.regs[i]);
  }

  lemma OverrunPause(s: State, clears: Clears, callocOk: bool, roots: seq<Root>, limit: nat, fixup: bool, e0: nat, script: seq<Reply>)
    returns (a: nat, i: nat)
    requires Inv(s) && Increasing(s.table) && !s.halted && !PauseFits(s, callocOk, roots, limit, fixup)
    ensures Lost(Grown(s, callocOk), DoPause(s, clears, callocOk, roots, limit, fixup, e0, script), a, i, fixup)
  {
    GrownIsSame(s, callocOk);
    FitsIff(s, callocOk, roots, limit, fixup);
    hide Inv, ScanRoots, Publish, Lost;
    var g := Grown(s, callocOk);
    a, i := OverrunLoses(g, roots, LimitNow(s, limit), fixup, |roots|);
    PublishKeepsLoss(g, ScanRoots(g, roots, LimitNow(s, limit), fixup, |roots|).heap, a, i, fixup, clears, e0, script);
  }

  /**
    A pause that does not stop the program leaves the mutator's heap as it was, and every marked
    copy forwarded, if and only if the forwarding table has a free slot, after growing if it
    could, for every object the root walk moves. When it has not, some object is marked, and will
    be revoked, with nothing forwarding it; and if roots are fixed, the root that held it is NULL.
   */
  lemma PauseExact(s: State, clears: Clears, callocOk: bool, roots: seq<Root>, limit: nat, fixup: bool, e0: nat, script: seq<Reply>)
    requires Inv(s) && !s.halted
    ensures var r := DoPause(s, clears, callocOk, roots, limit, fixup, e0, script);
      r.halted
      || (Increasing(r.table)
          && (PauseFits(s, callocOk, roots, limit, fixup) <==> Abs(r) == Abs(s) && r.marks == r.table.Keys)
          && (fixup ==> (PauseFits(s, callocOk, roots, limit, fixup) <==> Abs(r) == Abs(s))))
  {
    TableIncreases(s.blocks, s.table);
    if PauseFits(s, callocOk, roots, limit, fixup) {
      PauseStep(s, clears, callocOk, roots, limit, fixup, e0, script);
    } else {
      hide DoPause, PauseFits, Inv;
      GrownIsSame(s, callocOk);
      var a, i := OverrunPause(s, clears, callocOk, roots, limit, fixup, e0, script);
      LossShows(s, Grown(s, callocOk), DoPause(s, clears, callocOk, roots, limit, fixup, e0, script), a, i, fixup);
    }
  }

  /** A move limit of at most the free slots always fits, whatever the roots hold. */
  lemma LimitFits(s: State, callocOk: bool, roots: seq<Root>, limit: nat, fixup: bool)
    requires limit <= Free(Grown(s, callocOk))
    ensures PauseFits(s, callocOk, roots, limit, fixup)
  {
    var g := Grown(s, callocOk);
    hide ScanRoots;
    MovedIsBounded(g.(slots := |g.table| + |roots|), roots, LimitNow(s, limit), fixup, |roots|);
  }

  /** While a close is pending every pause fits: nothing moves. */
  lemma PendingFits(s: State, callocOk: bool, roots: seq<Root>, limit: nat, fixup: bool)
    requires s.pending
    ensures PauseFits(s, callocOk, roots, limit, fixup)
  {
    var g := Grown(s, callocOk);
    hide ScanRoots;
    MovedIsBounded(g.(slots := |g.table| + |roots|), roots, 0, fixup, |roots|);
  }

  /** When growing succeeds, a limit of three tenths of the capacity is safe. */
  lemma ModestLimitFits(s: State, roots: seq<Root>, limit: nat, fixup: bool)
    requires |s.table| <= s.slots && 10 * limit <= 3 * Grown(s, true).slots
    ensures PauseFits(s, true, roots, limit, fixup)
  {
    LimitFits(s, true, roots, limit, fixup);
  }
}
