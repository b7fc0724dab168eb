/**
  How many objects a pause will move, without running it: a count over the root slots, the
  forwarding table, the lengths and the cursor alone. No cell is copied and no root is changed.
 */
module MovingHeapPlan {
  import opened Prelude
  import opened Representable
  import opened Cheri
  import opened Allocator
  import opened Chase
  import opened ForwardTable
  import opened Handler
  import opened MovingHeap
  import opened MovingHeapRefinement
  import opened MovingHeapPause

  /** The cursor, the copies that have moved, and whether an unforwarded fault has ended the walk. */
  datatype Plan = Plan(cursor: nat, moved: set<nat>, stopped: bool)

  /** How many hops `a` will be behind once the copies in `moved` have moved. */
  ghost function Behind(table: Fwd, moved: set<nat>, a: nat): nat
    requires Increasing(table)
  {
    Depth(table, a) + if Terminus(table, a) in moved then 1 else 0
  }

  /** One root slot: an object that is current, loadable and let go moves if it finds room below the limit. */
  ghost function PlanOne(s: State, p: Plan, i: nat, kind: Root, limit: nat): Plan
    requires Increasing(s.table)
  {
    if p.stopped || !HoldsObject(s, i, kind) || 1 <= Behind(s.table, p.moved, s.regs[i].base) <= CHASE_MAX
       || |p.moved| >= limit then p
    else if !Live(s.regs[i]) then p.(stopped := true)
    else if !kind.MoveRoot? then p
    else
      match Place(p.cursor, ReprLen(s.blocks[s.regs[i].base].len), s.root.len)
      case NoFit => p
      case Fit(off, next) => Plan(next, p.moved + {s.regs[i].base}, false)
  }

  /** The first `n` root slots. */
  ghost function PlanRoots(s: State, roots: seq<Root>, limit: nat, n: nat): Plan
    requires Increasing(s.table) && n <= |roots|
  {
    if n == 0 then Plan(s.bump, {}, false)
    else PlanOne(s, PlanRoots(s, roots, limit, n - 1), n - 1, roots[n - 1], limit)
  }

  // ------------------------------------------------------------------ chains during the walk

  /** Forwarding the end of a chain puts exactly the chains that ended there one hop further behind. */
  lemma {:induction false} DepthExtends(v: Fwd, a: nat, e: Entry, x: nat)
    requires Increasing(v) && a !in v && a < e.addr && e.addr !in v
    ensures Increasing(v[a := e])
    ensures Depth(v[a := e], x) == Depth(v, x) + if Terminus(v, x) == a then 1 else 0
    decreases |Ahead(v, x)|
  {
    if x in v {
      AheadShrinks(v, x);
      DepthExtends(v, a, e, v[x].addr);
    } else if x == a {
      assert Depth(v[a := e], e.addr) == 0;
    }
  }

  /** One old copy `x`, in the table `v` the walk has reached. */
  ghost predicate Tracks(s: State, v: Fwd, moved: set<nat>, x: nat)
    requires Increasing(s.table) && Increasing(v)
  {
    && Depth(v, x) == Behind(s.table, moved, x)
    && (if Terminus(s.table, x) in moved then Terminus(v, x) !in s.blocks else Terminus(v, x) == Terminus(s.table, x))
  }

  lemma TracksMove(s: State, v: Fwd, moved: set<nat>, x: nat, a: nat, e: Entry)
    requires Increasing(s.table) && Increasing(v) && Tracks(s, v, moved, x)
    requires a !in v && a < e.addr && e.addr !in v && a in s.blocks && a !in moved && e.addr !in s.blocks
    ensures Increasing(v[a := e]) && Tracks(s, v[a := e], moved + {a}, x)
  {
    DepthExtends(v, a, e, x);
    TerminusExtends(v, a, e, x);
  }

  /** The plan knows the walk's cursor, count, and how far behind every old copy is. */
  ghost predicate Knows(s: State, r: State, p: Plan)
    requires Increasing(s.table) && Increasing(r.table)
  {
    && r.bump == p.cursor
    && (forall x | x in s.blocks :: x in r.blocks && r.blocks[x] == s.blocks[x])
    && (forall x | x in s.blocks :: Tracks(s, r.table, p.moved, x))
    && (forall x | x in p.moved :: x in s.blocks && x !in s.table)
  }

  ghost predicate Follows(s: State, sc: Scan, p: Plan, n: nat)
    requires Increasing(s.table)
  {
    match p
    case Plan(_, moved, stopped) =>
      && sc.moved == |moved| && sc.heap.halted == stopped
      && (!stopped ==> Scanned(s, sc, n) && Increasing(sc.heap.table) && Knows(s, sc.heap, p))
  }

  // ------------------------------------------------------------------ one root slot

  /** A root resolves in the walk exactly when the plan says so. */
  lemma ResolvesAlike(s: State, r: State, p: Plan, a: nat)
    requires Increasing(s.table) && Core(r) && Increasing(r.table) && a in s.blocks && Tracks(s, r.table, p.moved, a)
    ensures IsNull(Resolve(ResolverOf(r), a)) <==> !(1 <= Behind(s.table, p.moved, a) <= CHASE_MAX)
  {
    ResolveIsCurrent(r, a);
    LookupResolves(r.table, a);
    if Lookup(r.table, a).Some? {
      assert LiveAt(ShapeOf(r), Terminus(r.table, a), Terminus(r.table, a)).addr > 0;
    }
  }

  /** Root slot `i` holds an object in the walk exactly when it held one before it. */
  lemma HoldsAlike(s: State, r: State, i: nat, kind: Root)
    requires Core(s) && Core(r) && i < |s.regs| && |r.regs| == |s.regs| && r.regs[i] == s.regs[i]
    requires s.blocks.Keys <= r.blocks.Keys
    ensures HoldsObject(r, i, kind) <==> HoldsObject(s, i, kind)
  {
    NoZeroCopy(s.blocks);
    NoZeroCopy(r.blocks);
    assert CapOk(ShapeOf(s), s.regs[i]);
  }

  lemma MovedIsKnown(s: State, r: State, p: Plan, a: nat, b: nat, next: nat, i: nat, fixup: bool, c: Cap)
    requires Increasing(s.table) && Increasing(r.table) && Knows(s, r, p)
    requires a in s.blocks && a in r.blocks && a !in r.table && a !in s.table && a !in p.moved && a < b
    requires b !in r.table && b !in s.blocks && i < |r.regs|
    ensures var q := StoreRoot(Moved(r, a, b, next), i, fixup, c);
      Increasing(q.table) && Knows(s, q, Plan(next, p.moved + {a}, false))
  {
    var q := StoreRoot(Moved(r, a, b, next), i, fixup, c);
    var e := Entry(b, r.blocks[a].len);
    DepthExtends(r.table, a, e, a);
    forall x | x in s.blocks
      ensures Tracks(s, q.table, p.moved + {a}, x)
    {
      assert Tracks(s, r.table, p.moved, x);
      TracksMove(s, r.table, p.moved, x, a, e);
    }
  }

  /** A current copy is no hops behind, so it has not moved. */
  lemma CurrentHasNotMoved(s: State, v: Fwd, moved: set<nat>, a: nat)
    requires Increasing(s.table) && Increasing(v) && a in s.blocks && a !in v && Tracks(s, v, moved, a)
    ensures a !in s.table && a !in moved
  {
  }

  /** What both the walk and the plan look at in a slot that holds an object. */
  lemma SameQuestions(s: State, sc: Scan, p: Plan, i: nat, kind: Root)
    requires Inv(s) && Increasing(s.table) && Scanned(s, sc, i) && Increasing(sc.heap.table) && Knows(s, sc.heap, p)
    requires i < |s.regs|
    ensures |sc.heap.regs| == |s.regs| && sc.heap.regs[i] == s.regs[i] && sc.heap.root == s.root
    ensures HoldsObject(sc.heap, i, kind) <==> HoldsObject(s, i, kind)
    ensures HoldsObject(s, i, kind) ==>
      && s.regs[i].base in sc.heap.blocks && s.regs[i].addr == s.regs[i].base
      && (IsNull(Resolve(ResolverOf(sc.heap), s.regs[i].base))
          <==> !(1 <= Behind(s.table, p.moved, s.regs[i].base) <= CHASE_MAX))
      && RootPlacement(sc.heap, i) == Place(p.cursor, ReprLen(s.blocks[s.regs[i].base].len), s.root.len)
  {
    hide Place, Resolve, ReprLen, Behind, Tracks;
    HoldsAlike(s, sc.heap, i, kind);
    if HoldsObject(s, i, kind) {
      assert Tracks(s, sc.heap.table, p.moved, s.regs[i].base);
      ResolvesAlike(s, sc.heap, p, s.regs[i].base);
    }
  }

  /** Slot `i` of the walk is the one the plan looked at. */
  ghost predicate SameSlot(s: State, sc: Scan, p: Plan, i: nat, kind: Root)
    requires Increasing(s.table)
  {
    && |sc.heap.regs| == |s.regs| && sc.moved == |p.moved| && !sc.heap.halted && !p.stopped
    && (i < |s.regs| ==> sc.heap.regs[i] == s.regs[i])
    && (HoldsObject(sc.heap, i, kind) <==> HoldsObject(s, i, kind))
    && (HoldsObject(s, i, kind) ==>
          && s.regs[i].base in sc.heap.blocks && s.regs[i].addr == s.regs[i].base
          && (IsNull(Resolve(ResolverOf(sc.heap), s.regs[i].base))
              <==> !(1 <= Behind(s.table, p.moved, s.regs[i].base) <= CHASE_MAX))
          && RootPlacement(sc.heap, i) == Place(p.cursor, ReprLen(s.blocks[s.regs[i].base].len), s.root.len))
  }

  lemma FollowsSameSlot(s: State, sc: Scan, p: Plan, i: nat, kind: Root)
    requires Inv(s) && Increasing(s.table) && Follows(s, sc, p, i) && !p.stopped
    ensures SameSlot(s, sc, p, i, kind)
  {
    if i < |s.regs| {
      SameQuestions(s, sc, p, i, kind);
    } else {
      assert |sc.heap.regs| == |s.regs|;
    }
    hide Core, Inv, Knows, Unseen, Accounted, Place, Resolve, ReprLen, Behind, Live;
  }

  lemma MovesAlike(s: State, sc: Scan, p: Plan, i: nat, kind: Root, limit: nat)
    requires Increasing(s.table) && SameSlot(s, sc, p, i, kind)
    ensures var q := PlanOne(s, p, i, kind, limit);
      && (Moves(sc, i, kind, limit) ==>
            i < |s.regs| && s.regs[i].base in s.blocks && s.regs[i].base in sc.heap.blocks
            && RootPlacement(sc.heap, i).Fit?
            && q == Plan(RootPlacement(sc.heap, i).next, p.moved + {s.regs[i].base}, false))
      && (!Moves(sc, i, kind, limit) ==>
            q == p.(stopped := SettleRoot(sc.heap, i, kind, sc.moved < limit, true).halted))
  {
    hide Place, Resolve, ReprLen, Behind, Live;
  }

  lemma MoveIsKnown(s: State, sc: Scan, p: Plan, i: nat, fixup: bool, a: nat, b: nat, next: nat)
    requires Increasing(s.table) && Increasing(sc.heap.table) && Core(sc.heap) && s.blocks.Keys <= sc.heap.blocks.Keys
    requires Knows(s, sc.heap, p) && MoveIs(s, sc, i, a, b, next)
    ensures var q := MovedScan(sc, i, fixup, a, b, next);
      && a !in p.moved && Increasing(q.heap.table) && Knows(s, q.heap, Plan(next, p.moved + {a}, false))
  {
    assert Tracks(s, sc.heap.table, p.moved, a);
    CurrentHasNotMoved(s, sc.heap.table, p.moved, a);
    assert CopyOwned(sc.heap.blocks, a) && EndsBelow(sc.heap.blocks, a, b);
    RoomIsAfter(sc.heap, a, b, next);
    hide Core, RoomAt, Tracks, FtDerive, Moved;
    MovedIsKnown(s, sc.heap, p, a, b, next, i, fixup, FtDerive(Some(sc.heap.root), b, sc.heap.blocks[a].len));
  }

  lemma RoomIsAfter(r: State, a: nat, b: nat, next: nat)
    requires a in r.blocks && RoomAt(r, a, b, next)
    ensures a < b
  {
    assert EndsBelow(r.blocks, a, b);
  }

  lemma FollowsAfter(s: State, sc: Scan, p: Plan, moved: set<nat>, a: nat, next: nat, i: nat)
    requires Increasing(s.table) && Increasing(sc.heap.table)
    requires Scanned(s, sc, i) && Knows(s, sc.heap, Plan(next, moved + {a}, false)) && !sc.heap.halted
    requires a !in moved && sc.moved == |moved| + 1
    ensures Follows(s, sc, Plan(next, moved + {a}, false), i)
  {
    hide Scanned, Unseen, Accounted, Knows;
  }

  lemma FollowFacts(s: State, sc: Scan, p: Plan, i: nat)
    requires Increasing(s.table) && Follows(s, sc, p, i) && !p.stopped
    ensures s.blocks.Keys <= sc.heap.blocks.Keys && !sc.heap.halted && sc.moved == |p.moved|
    ensures Scanned(s, sc, i) && Core(sc.heap) && Increasing(sc.heap.table) && Knows(s, sc.heap, p)
    ensures |sc.heap.regs| == |s.regs| && (i < |s.regs| ==> sc.heap.regs[i] == s.regs[i])
  {
  }

  lemma FollowMove(s: State, sc: Scan, p: Plan, i: nat, kind: Root, limit: nat, fixup: bool)
    requires Inv(s) && Increasing(s.table) && Follows(s, sc, p, i) && !p.stopped
    requires Moves(sc, i, kind, limit) && |sc.heap.table| < sc.heap.slots
    ensures Follows(s, VisitRoot(sc, i, kind, limit, fixup), PlanOne(s, p, i, kind, limit), i + 1)
  {
    FollowsSameSlot(s, sc, p, i, kind);
    MovesAlike(s, sc, p, i, kind, limit);
    FollowFacts(s, sc, p, i);
    hide Inv, Unseen, Accounted, RoomAt, RootPlacement, Knows, PlanOne, Moved, FtDerive, Follows, Moves, VisitRoot, Core, Increasing;
    MoveStep(s, sc, i, kind, limit, fixup);
    var a, b, next := MoveFacts(s, sc, i, kind, limit);
    VisitIsMove(s, sc, i, kind, limit, fixup, a, b, next);
    MoveIsKnown(s, sc, p, i, fixup, a, b, next);
    MovedNotHalted(sc, i, fixup, a, b, next);
    hide MovedScan, MoveIs, Scanned, Free;
    assert PlanOne(s, p, i, kind, limit) == Plan(next, p.moved + {a}, false);
    FollowsAfter(s, MovedScan(sc, i, fixup, a, b, next), p, p.moved, a, next, i + 1);
  }

  lemma MovedNotHalted(sc: Scan, i: nat, fixup: bool, a: nat, b: nat, next: nat)
    requires i < |sc.heap.regs| && a in sc.heap.blocks
    ensures var q := MovedScan(sc, i, fixup, a, b, next); q.heap.halted == sc.heap.halted && q.moved == sc.moved + 1
  {
  }

  lemma SettleKnows(s: State, sc: Scan, p: Plan, i: nat, kind: Root, limit: nat, fixup: bool)
    requires Increasing(s.table) && Increasing(sc.heap.table) && Knows(s, sc.heap, p) && !Moves(sc, i, kind, limit)
    ensures var q := VisitRoot(sc, i, kind, limit, fixup);
      && q.moved == sc.moved && Increasing(q.heap.table) && Knows(s, q.heap, p)
      && (q.heap.halted <==> SettleRoot(sc.heap, i, kind, sc.moved < limit, true).halted)
  {
    hide Resolve, Live, Tracks, Moves;
  }

  lemma FollowSettle(s: State, sc: Scan, p: Plan, i: nat, kind: Root, limit: nat, fixup: bool)
    requires Inv(s) && Increasing(s.table) && Follows(s, sc, p, i) && !p.stopped && !Moves(sc, i, kind, limit)
    ensures Follows(s, VisitRoot(sc, i, kind, limit, fixup), PlanOne(s, p, i, kind, limit), i + 1)
  {
    FollowsSameSlot(s, sc, p, i, kind);
    MovesAlike(s, sc, p, i, kind, limit);
    SettleKnows(s, sc, p, i, kind, limit, fixup);
    SettleStep(s, sc, i, kind, limit, fixup);
    hide Inv, Core, Unseen, Accounted, Knows, PlanOne, VisitRoot, Moves, SettleRoot;
    PlanKnowsAlike(s, VisitRoot(sc, i, kind, limit, fixup).heap, p, PlanOne(s, p, i, kind, limit));
  }

  lemma PlanKnowsAlike(s: State, r: State, p: Plan, q: Plan)
    requires Increasing(s.table) && Increasing(r.table) && q == p.(stopped := q.stopped)
    ensures Knows(s, r, p) <==> Knows(s, r, q)
  {
  }

  // ------------------------------------------------------------------ the whole walk

  lemma PlanStarts(s: State)
    requires Inv(s) && Increasing(s.table) && !s.halted
    ensures Follows(s, Scan(s, 0), Plan(s.bump, {}, false), 0)
  {
    WalkStarts(s);
  }

  lemma {:induction false} PlanFollowsWalk(s: State, roots: seq<Root>, limit: nat, fixup: bool, n: nat)
    requires Inv(s) && Increasing(s.table) && !s.halted && n <= |roots|
    requires ScanRoots(s, roots, limit, fixup, n).moved <= Free(s)
    ensures Follows(s, ScanRoots(s, roots, limit, fixup, n), PlanRoots(s, roots, limit, n), n)
  {
    hide VisitRoot, Moves, Inv, PlanOne, Unseen, Knows, Follows;
    if n == 0 {
      PlanStarts(s);
    } else {
      var sc, p := ScanRoots(s, roots, limit, fixup, n - 1), PlanRoots(s, roots, limit, n - 1);
      OneMoveAtMost(sc, n - 1, roots[n - 1], limit, fixup);
      PlanFollowsWalk(s, roots, limit, fixup, n - 1);
      FollowVisit(s, sc, p, n - 1, roots[n - 1], limit, fixup);
    }
  }

  lemma FollowVisit(s: State, sc: Scan, p: Plan, i: nat, kind: Root, limit: nat, fixup: bool)
    requires Inv(s) && Increasing(s.table) && Follows(s, sc, p, i)
    requires Moves(sc, i, kind, limit) ==> sc.moved + 1 <= Free(s)
    ensures Follows(s, VisitRoot(sc, i, kind, limit, fixup), PlanOne(s, p, i, kind, limit), i + 1)
  {
    hide Inv, Unseen, Knows, Moves, VisitRoot;
    if p.stopped {
      HaltedStays(sc, i, kind, limit, fixup);
    } else if Moves(sc, i, kind, limit) {
      FollowMove(s, sc, p, i, kind, limit, fixup);
    } else {
      FollowSettle(s, sc, p, i, kind, limit, fixup);
    }
  }

  lemma {:induction false} PlanIgnoresSlots(s: State, slots: nat, roots: seq<Root>, limit: nat, n: nat)
    requires Increasing(s.table) && n <= |roots|
    ensures PlanRoots(s.(slots := slots), roots, limit, n) == PlanRoots(s, roots, limit, n)
  {
    if n > 0 {
      PlanIgnoresSlots(s, slots, roots, limit, n - 1);
      PlanOneIgnoresSlots(s, slots, PlanRoots(s, roots, limit, n - 1), n - 1, roots[n - 1], limit);
    }
  }

  lemma PlanOneIgnoresSlots(s: State, slots: nat, p: Plan, i: nat, kind: Root, limit: nat)
    requires Increasing(s.table)
    ensures PlanOne(s.(slots := slots), p, i, kind, limit) == PlanOne(s, p, i, kind, limit)
  {
    hide Place, ReprLen, Behind;
  }

  lemma InvIgnoresSlots(s: State, slots: nat)
    requires Inv(s)
    ensures Inv(s.(slots := slots))
  {
  }

  lemma PlanCountsWalk(s: State, roots: seq<Root>, limit: nat, fixup: bool)
    requires Inv(s) && Increasing(s.table) && !s.halted
    requires ScanRoots(s, roots, limit, fixup, |roots|).moved <= Free(s)
    ensures ScanRoots(s, roots, limit, fixup, |roots|).moved == |PlanRoots(s, roots, limit, |roots|).moved|
  {
    hide Inv, ScanRoots, PlanRoots, Scanned, Knows;
    PlanFollowsWalk(s, roots, limit, fixup, |roots|);
  }

  /** The dry run of a pause moves exactly the planned objects, whether it fixes roots or not. */
  lemma DemandIsPlanned(s: State, roots: seq<Root>, limit: nat, fixup: bool)
    requires Inv(s) && Increasing(s.table) && !s.halted
    ensures Demand(s, roots, limit, fixup) == |PlanRoots(s, roots, limit, |roots|).moved|
  {
    hide Inv, ScanRoots, PlanRoots, Increasing;
    InvIgnoresSlots(s, |s.table| + |roots|);
    var big := s.(slots := |s.table| + |roots|);
    MovedIsBounded(big, roots, limit, fixup, |roots|);
    PlanCountsWalk(big, roots, limit, fixup);
    PlanIgnoresSlots(s, |s.table| + |roots|, roots, limit, |roots|);
  }

  /**
    Whether a pause fits the table, read off the roots: the distinct objects it is let move, that
    are current and loadable and find room at the cursor, capped by the limit, against the free
    slots.
   */
  lemma PauseFitsIffPlanned(s: State, callocOk: bool, roots: seq<Root>, limit: nat, fixup: bool)
    requires Inv(s) && !s.halted
    ensures Increasing(s.table)
    ensures PauseFits(s, callocOk, roots, limit, fixup)
       <==> |PlanRoots(s, roots, LimitNow(s, limit), |roots|).moved| <= Free(Grown(s, callocOk))
  {
    TableIncreases(s.blocks, s.table);
    GrownIsSame(s, callocOk);
    hide Inv, Demand, PlanRoots;
    var g := Grown(s, callocOk);
    DemandIsPlanned(g, roots, LimitNow(s, limit), fixup);
    PlanIgnoresSlots(s, g.slots, roots, LimitNow(s, limit), |roots|);
  }
}
