/**
  Two states the collector can be in and its promises do not cover: a forwarding table filled to
  its real capacity, and an object moved more often than a lookup follows. Both are heaps with
  one 16-byte object that has been moved `n` times, each time to the next 16 bytes of the arena.
 */
module MovingHeapWitness {
  import opened Prelude
  import opened Representable
  import opened Cheri
  import opened Allocator
  import opened Chase
  import opened ForwardTable
  import opened Handler
  import opened Revoke
  import opened MovingHeap
  import opened MovingHeapRefinement
  import opened MovingHeapPause

  /** An arena of 2 MiB. */
  const ARENA: Cap := Cap(true, 0x20_0000, 0x20_0000, 0x20_0000, {Load, SwVmem})

  /** Address of the `j`-th copy. */
  function CopyAt(j: nat): nat {
    0x20_0000 + 16 * j
  }

  predicate IsCopyAt(n: nat, a: int) {
    CopyAt(0) <= a <= CopyAt(n) && a % 16 == 0
  }

  function Copies(n: nat): (blocks: Blocks)
    ensures forall a :: a in blocks <==> IsCopyAt(n, a)
    ensures forall a | a in blocks :: blocks[a] == Block(CopyAt(0), 16)
  {
    if n == 0 then map[CopyAt(0) := Block(CopyAt(0), 16)] else Copies(n - 1)[CopyAt(n) := Block(CopyAt(0), 16)]
  }

  function Steps(n: nat): (table: Fwd)
    ensures forall a :: a in table <==> IsCopyAt(n, a) && a < CopyAt(n)
    ensures forall a | a in table :: table[a] == Entry(a + 16, 16)
    ensures |table| == n
  {
    if n == 0 then map[] else Steps(n - 1)[CopyAt(n - 1) := Entry(CopyAt(n), 16)]
  }

  /** The heap after `n` moves; all cells hold zero. */
  function MovedTimes(n: nat, slots: nat, regs: seq<Cap>): State {
    State(ARENA, true, 16 * (n + 1), Copies(n), ClearCells(map[], CopyAt(0), 16 * (n + 1)), Steps(n), slots, regs,
          Steps(n).Keys, {}, false, false)
  }

  /** The live capability of the current copy, and the revoked one of the first. */
  function Newest(n: nat): Cap {
    ObjCap(ARENA, CopyAt(n), 16)
  }

  function Oldest(): Cap {
    Kill(true, ObjCap(ARENA, CopyAt(0), 16))
  }

  // ------------------------------------------------------------------ these are good states

  lemma ArenaIsAligned()
    ensures Align(16) == 1 && ReprLen(16) == 16 && RootOk(ARENA)
  {
    assert Pow2(4) == 16;
    BitLenExact(16, 4);
    Pow2Add(6, 6);
    Pow2Add(12, 9);
    assert Pow2(6) == 64 && Pow2(9) == 512 && Pow2(12) == 4096 && Pow2(21) == 0x20_0000;
    BitLenExact(0x20_0000, 21);
    assert Align(0x20_0000) == Pow2(12);
    DivModUnique(0x20_0000, 4096, 512, 0);
  }

  lemma CopiesArePlaced(n: nat)
    requires n <= 0x1_0000
    ensures RootOk(ARENA) && AllPlaced(ARENA, 16 * (n + 1), Copies(n))
  {
    ArenaIsAligned();
    hide Align, ReprLen, RootOk;
    forall a | a in Copies(n)
      ensures CopyPlaced(ARENA, 16 * (n + 1), a, 16)
    {
      assert a <= CopyAt(n);
    }
  }

  lemma DistinctCopiesApart(n: nat, a: nat, b: nat)
    requires IsCopyAt(n, a) && IsCopyAt(n, b) && a != b
    ensures Apart(Copies(n), a, b)
  {
  }

  lemma CopiesAreLaidOut(n: nat)
    ensures Layout(Copies(n))
  {
    forall a, b | a in Copies(n) && b in Copies(n) && a != b
      ensures Apart(Copies(n), a, b)
    {
      DistinctCopiesApart(n, a, b);
    }
    assert IsCopyAt(n, CopyAt(0));
  }

  lemma StepsAreChains(n: nat)
    ensures Chains(Copies(n), Steps(n)) && Increasing(Steps(n))
  {
    hide Copies, Steps;
    forall k | k in Steps(n)
      ensures MapsUp(Copies(n), Steps(n), k)
    {
      assert IsCopyAt(n, k) && IsCopyAt(n, k + 16);
    }
  }

  lemma CellsAreOk(n: nat, slots: nat, regs: seq<Cap>)
    ensures var s := MovedTimes(n, slots, regs); MemOk(ShapeOf(s), s.mem) && MemSafe(s.table, s.mem, {})
  {
    var s := MovedTimes(n, slots, regs);
    forall a, x | a in s.blocks && a <= x < a + s.blocks[a].len
      ensures x in s.mem
    {
      assert IsCopyAt(n, a);
    }
  }

  /** Any registers holding the newest reference, the revoked oldest one, and integers. */
  ghost predicate WitnessReg(n: nat, c: Cap) {
    c == Newest(n) || (n > 0 && c == Oldest()) || c == IntCap(c.addr)
  }

  lemma WitnessRegsOk(n: nat, slots: nat, regs: seq<Cap>)
    requires forall i | 0 <= i < |regs| :: WitnessReg(n, regs[i])
    ensures var s := MovedTimes(n, slots, regs); RegsOk(ShapeOf(s), regs) && RegsSafe(s.table, regs)
  {
    var s := MovedTimes(n, slots, regs);
    assert IsCopyAt(n, CopyAt(0)) && IsCopyAt(n, CopyAt(n));
    forall i | 0 <= i < |regs|
      ensures CapOk(ShapeOf(s), regs[i]) && (Live(regs[i]) ==> regs[i].base !in s.table)
    {
      assert WitnessReg(n, regs[i]);
    }
  }

  lemma MovedTimesIsGood(n: nat, slots: nat, regs: seq<Cap>)
    requires n <= 0x1_0000 && forall i | 0 <= i < |regs| :: WitnessReg(n, regs[i])
    ensures Inv(MovedTimes(n, slots, regs)) && Increasing(Steps(n))
  {
    CopiesArePlaced(n);
    CopiesAreLaidOut(n);
    StepsAreChains(n);
    CellsAreOk(n, slots, regs);
    WitnessRegsOk(n, slots, regs);
    hide AllPlaced, Layout, Chains, MemOk, MemSafe, RegsOk, RegsSafe, ClearCells, RootOk, WitnessReg, Copies, Steps;
    assert ARENA.len == 0x20_0000;
  }

  // ------------------------------------------------------------------ an over-long chain

  lemma StepIs(n: nat, j: nat)
    requires j <= n
    ensures j < n ==> CopyAt(j) in Steps(n) && Steps(n)[CopyAt(j)].addr == CopyAt(j + 1)
    ensures CopyAt(n) !in Steps(n)
  {
    assert j < n ==> IsCopyAt(n, CopyAt(j));
  }

  lemma {:induction false} StepsDepth(n: nat, j: nat)
    requires j <= n && Increasing(Steps(n))
    ensures Depth(Steps(n), CopyAt(j)) == n - j
    decreases n - j
  {
    hide Steps, Increasing, CopyAt;
    StepIs(n, j);
    if j < n {
      StepsDepth(n, j + 1);
    }
  }

  /** What the two references are in a state with these copies. */
  lemma FirstAndNewest(s: State, n: nat)
    requires n > 0 && s.root == ARENA && s.clearsTags && s.blocks == Copies(n) && s.table == Steps(n)
    ensures CapOk(ShapeOf(s), Oldest()) && CapOk(ShapeOf(s), Newest(n)) && SafeRef(s, Oldest()) && SafeRef(s, Newest(n))
    ensures Den(s.blocks, Oldest()) == Den(s.blocks, Newest(n)) == VRef(CopyAt(0), 0)
    ensures Oldest().addr < Newest(n).addr
    ensures Resolvable(s, Newest(n)) && (Resolvable(s, Oldest()) <==> Lookup(Steps(n), CopyAt(0)).Some?)
  {
    hide Copies, Steps;
    assert IsCopyAt(n, CopyAt(0)) && IsCopyAt(n, CopyAt(n));
    assert Load in Newest(n).perms;
  }

  /** The first copy is found again exactly when it is at most 4096 hops behind. */
  lemma FirstResolvesIff(n: nat)
    requires n > 0 && Increasing(Steps(n))
    ensures Lookup(Steps(n), CopyAt(0)).Some? <==> n <= CHASE_MAX
  {
    StepsDepth(n, 0);
    assert IsCopyAt(n, CopyAt(0));
    hide Steps, Depth, Lookup;
    LookupResolves(Steps(n), CopyAt(0));
  }

  /**
    The revoked first reference and the live current one, to one object moved `n` times: the
    barrier calls them equal exactly as long as `n` is at most 4096.
   */
  lemma BarrierGivesUpIff(n: nat)
    requires 0 < n <= 0x1_0000
    ensures var s := MovedTimes(n, FT_INITIAL_CAP, [Oldest(), Newest(n)]);
      && Inv(s) && Den(s.blocks, Oldest()) == Den(s.blocks, Newest(n)) == VRef(CopyAt(0), 0)
      && (AcmpBarrier(ResolverOf(s), Oldest(), Newest(n)) <==> n <= CHASE_MAX)
  {
    var s := MovedTimes(n, FT_INITIAL_CAP, [Oldest(), Newest(n)]);
    MovedTimesIsGood(n, FT_INITIAL_CAP, [Oldest(), Newest(n)]);
    assert Core(s) && s.root == ARENA && s.clearsTags && s.blocks == Copies(n) && s.table == Steps(n);
    hide *;
    FirstAndNewest(s, n);
    FirstResolvesIff(n);
    BarrierExact(s, Oldest(), Newest(n));
  }

  /** Two equal references that the barrier calls different. */
  lemma OverlongChainMisses()
    ensures var n := CHASE_MAX + 1;
      var s := MovedTimes(n, FT_INITIAL_CAP, [Oldest(), Newest(n)]);
      && Inv(s) && Den(s.blocks, s.regs[0]) == Den(s.blocks, s.regs[1])
      && !AcmpBarrier(ResolverOf(s), s.regs[0], s.regs[1])
  {
    BarrierGivesUpIff(CHASE_MAX + 1);
  }

  // ------------------------------------------------------------------ a full table

  /** Every slot of the table is taken; the only root holds the current copy. */
  function FullTable(n: nat): State {
    MovedTimes(n, n, [Newest(n)])
  }

  /** Sixteen bytes need no alignment. */
  lemma PlaceSixteen(cur: nat)
    requires cur + 16 <= 0x20_0000
    ensures Place(cur, ReprLen(16), ARENA.len) == Fit(cur, cur + 16)
  {
    ArenaIsAligned();
    hide Align, ReprLen, RootOk;
    U64Small(cur);
    U64Small(cur + 16);
  }

  lemma FullTableRoot(n: nat)
    ensures var s := FullTable(n);
      && s.root == ARENA && s.bump == 16 * (n + 1) && s.regs == [Newest(n)]
      && CopyAt(n) in s.blocks && s.blocks[CopyAt(n)].len == 16 && !s.halted
  {
    assert IsCopyAt(n, CopyAt(n));
    hide ClearCells, Steps;
  }

  lemma NewestUnmapped(n: nat)
    ensures IsNull(Resolve(ResolverOf(FullTable(n)), CopyAt(n))) && Live(Newest(n))
  {
    assert CopyAt(n) !in Steps(n);
    assert Load in Newest(n).perms;
    hide ClearCells, Copies;
  }

  /** What makes the only root of a heap move. */
  lemma OnlyRootMoves(s: State, c: Cap, p: Placement)
    requires !s.halted && s.regs == [c] && c.base in s.blocks && c.addr == c.base && Live(c)
    requires IsNull(Resolve(ResolverOf(s), c.addr))
    requires p.Fit? && p == Place(s.bump, ReprLen(s.blocks[c.base].len), s.root.len)
    ensures Moves(Scan(s, 0), 0, MoveRoot, 1)
  {
    hide Place, Resolve, ReprLen, Live;
  }

  lemma FullTableMoves(n: nat)
    requires n <= 0x1_0000
    ensures Moves(Scan(FullTable(n), 0), 0, MoveRoot, 1)
  {
    FullTableRoot(n);
    PlaceSixteen(16 * (n + 1));
    NewestUnmapped(n);
    hide FullTable, Copies, Steps, Place, ReprLen, Resolve, Live, Moves;
    OnlyRootMoves(FullTable(n), Newest(n), Fit(16 * (n + 1), 16 * (n + 1) + 16));
  }

  lemma FullTableWalk(n: nat)
    requires n <= 0x1_0000
    ensures var sc := ScanRoots(FullTable(n), [MoveRoot], 1, true, 1);
      && sc.moved == 1 && sc.heap.regs == [NULL] && sc.heap.table == Steps(n)
      && CopyAt(n) in sc.heap.marks && !sc.heap.halted
  {
    FullTableMoves(n);
    hide Place, ClearCells, CopyCells, Moves, RootPlacement, Copies;
    assert ScanRoots(FullTable(n), [MoveRoot], 1, true, 0) == Scan(FullTable(n), 0);
  }

  lemma NullSurvivesSweep(r: State, dead: set<nat>)
    requires r.regs == [NULL]
    ensures SweepRegs(r, dead).regs == [NULL]
  {
  }

  lemma PublishKeepsNull(r: State, clears: Clears, e0: nat, script: seq<Reply>)
    requires r.regs == [NULL]
    ensures var q := Publish(r, clears, e0, script); q.marks == r.marks && q.table == r.table && q.regs == [NULL]
  {
    NullSurvivesSweep(r, r.marks);
    hide Swept, SweptMem, OpenCode, SweepsWithin;
  }

  lemma FullTableOverruns(n: nat)
    requires n <= 0x1_0000
    ensures Inv(FullTable(n)) && Increasing(Steps(n)) && !PauseFits(FullTable(n), false, [MoveRoot], 1, true)
  {
    MovedTimesIsGood(n, n, [Newest(n)]);
    FullTableWalk(n);
    hide Inv, ScanRoots, ClearCells, PauseFits, Copies;
    FitsIff(FullTable(n), false, [MoveRoot], 1, true);
    assert Grown(FullTable(n), false) == FullTable(n) && LimitNow(FullTable(n), 1) == 1 && Free(FullTable(n)) == 0;
  }

  lemma FullTablePause(n: nat, clears: Clears, e0: nat, script: seq<Reply>)
    requires n <= 0x1_0000
    ensures var r := DoPause(FullTable(n), clears, false, [MoveRoot], 1, true, e0, script);
      CopyAt(n) in r.marks && CopyAt(n) !in r.table && r.regs == [NULL]
  {
    FullTableWalk(n);
    PublishKeepsNull(ScanRoots(FullTable(n), [MoveRoot], 1, true, 1).heap, clears, e0, script);
    assert CopyAt(n) !in Steps(n);
    hide ScanRoots, ClearCells, Publish, Steps, Copies;
    assert Grown(FullTable(n), false) == FullTable(n) && LimitNow(FullTable(n), 1) == 1;
  }

  lemma FullTableMeans(n: nat)
    requires Increasing(Steps(n))
    ensures Abs(FullTable(n)).regs == [VRef(CopyAt(0), 0)]
  {
    var s := FullTable(n);
    assert IsCopyAt(n, CopyAt(n)) && Den(s.blocks, Newest(n)) == VRef(CopyAt(0), 0);
    hide ClearCells, AbsObjs, Steps, Copies, Den;
    assert RegVals(s.blocks, s.regs)[0] == Den(s.blocks, Newest(n));
  }

  /**
    The pause that breaks the heap, for a table of any capacity up to its initial 65536 slots that
    is full and cannot grow: the one root object is moved all the same, the mutator's reference
    becomes NULL, and the copy it lost is marked for revocation with nothing forwarding it.
   */
  lemma FullTableLosesRoot(n: nat, clears: Clears, e0: nat, script: seq<Reply>)
    requires n <= FT_INITIAL_CAP
    ensures var s := FullTable(n);
      var r := DoPause(s, clears, false, [MoveRoot], 1, true, e0, script);
      && Inv(s) && |s.table| == s.slots == n && Increasing(s.table) && Abs(s).regs == [VRef(CopyAt(0), 0)]
      && !PauseFits(s, false, [MoveRoot], 1, true)
      && CopyAt(n) in r.marks && CopyAt(n) !in r.table && r.regs == [NULL]
  {
    FullTableOverruns(n);
    FullTableMeans(n);
    FullTablePause(n, clears, e0, script);
    hide Inv, DoPause, PauseFits, Abs, ClearCells, Copies;
  }

  /** The table as it comes, filled. */
  lemma InitialTableLosesRoot(clears: Clears, e0: nat, script: seq<Reply>)
    ensures var s := FullTable(FT_INITIAL_CAP);
      var r := DoPause(s, clears, false, [MoveRoot], 1, true, e0, script);
      && Inv(s) && s.slots == 0x1_0000 && Increasing(s.table) && Abs(s).regs == [VRef(CopyAt(0), 0)]
      && r.regs == [NULL] && r.marks != r.table.Keys
  {
    hide DoPause, Inv, Abs, FullTable;
    FullTableLosesRoot(FT_INITIAL_CAP, clears, e0, script);
    FullTableHasSlots(FT_INITIAL_CAP);
  }

  lemma FullTableHasSlots(n: nat)
    ensures FullTable(n).slots == n
  {
  }
}
