/**
  The mutator cannot tell: every run of the moving heap is a run of the non-moving one, with
  the same observations, up to the point where the program stops itself.
 */
module MovingHeapRefinement {
  import opened Prelude
  import opened Representable
  import opened Cheri
  import opened Allocator
  import opened Chase
  import opened ForwardTable
  import opened Handler
  import opened Revoke
  import opened MovingHeap

  // ------------------------------------------------------------------ chains end at the current copy

  lemma TableIncreases(blocks: Blocks, table: Fwd)
    requires Chains(blocks, table)
    ensures Increasing(table)
  {
  }

  lemma {:induction false} TerminusIsCopy(blocks: Blocks, table: Fwd, a: nat)
    requires Chains(blocks, table) && Increasing(table) && a in blocks
    ensures Terminus(table, a) in blocks && blocks[Terminus(table, a)].obj == blocks[a].obj
    decreases |Ahead(table, a)|
  {
    if a in table {
      AheadShrinks(table, a);
      TerminusIsCopy(blocks, table, table[a].addr);
    }
  }

  /** All copies of an object have one current copy, and its length. */
  lemma CurrentCopy(blocks: Blocks, table: Fwd, a: nat)
    requires Layout(blocks) && Chains(blocks, table) && Increasing(table) && a in blocks
    ensures var o, t := blocks[a].obj, Terminus(table, a);
      && o in blocks && Born(blocks, o) && Terminus(table, o) == t
      && t in blocks && t !in table && t > 0 && blocks[t].obj == o
      && blocks[t].len == blocks[a].len == blocks[o].len
    ensures a !in table ==> Terminus(table, a) == a
  {
    var o := blocks[a].obj;
    assert CopyOwned(blocks, a);
    TerminusIsCopy(blocks, table, a);
    TerminusIsCopy(blocks, table, o);
    assert CopyOwned(blocks, Terminus(table, a));
    assert OneCurrent(blocks, table, Terminus(table, a), Terminus(table, o));
  }

  /** A lookup that answers rebuilds the tight, live capability of the current copy. */
  lemma ResolveIsCurrent(s: State, k: nat)
    requires Core(s)
    ensures Lookup(s.table, k).None? ==> IsNull(Resolve(ResolverOf(s), k))
    ensures Lookup(s.table, k).Some? ==>
      && k in s.table && k in s.blocks
      && var t := Terminus(s.table, k);
         && t in s.blocks && t !in s.table && t > 0
         && Resolve(ResolverOf(s), k) == LiveAt(ShapeOf(s), t, t)
         && Live(LiveAt(ShapeOf(s), t, t))
  {
    LookupResolves(s.table, k);
    if Lookup(s.table, k).Some? {
      var e := Lookup(s.table, k).value;
      ChaseEndsAtEntry(s.table, s.table[k], 0, e);
      assert MapsUp(s.blocks, s.table, k);
      CurrentCopy(s.blocks, s.table, k);
      assert CopyPlaced(s.root, s.bump, e.addr, s.blocks[e.addr].len);
      DerivePlaced(s.root, e.addr, e.len);
    }
  }

  // ------------------------------------------------------------------ denotation is about the base

  lemma SweptIsOk(h: Shape, c: Cap, dead: set<nat>)
    requires CapOk(h, c)
    ensures CapOk(h, Swept(h.clearsTags, c, dead))
    ensures Den(h.blocks, Swept(h.clearsTags, c, dead)) == Den(h.blocks, c)
    ensures Live(Swept(h.clearsTags, c, dead)) ==> Swept(h.clearsTags, c, dead) == c && c.base !in dead
  {
  }

  /** Adding a copy changes the meaning of no existing capability. */
  lemma ShapeGrows(h: Shape, a: nat, blk: Block, c: Cap)
    requires CapOk(h, c) && a !in h.blocks && a != 0
    ensures CapOk(h.(blocks := h.blocks[a := blk]), c)
    ensures 0 !in h.blocks ==> Den(h.blocks[a := blk], c) == Den(h.blocks, c)
  {
  }

  lemma RegValsUpdate(blocks: Blocks, regs: seq<Cap>, i: nat, c: Cap)
    requires i < |regs|
    ensures RegVals(blocks, regs[i := c]) == RegVals(blocks, regs)[i := Den(blocks, c)]
  {
  }

  lemma CoreWithRegs(s: State, regs: seq<Cap>)
    requires Core(s) && RegsOk(ShapeOf(s), regs)
    ensures Core(s.(regs := regs))
  {
  }

  lemma CoreWithMem(s: State, mem: map<nat, Cap>)
    requires Core(s) && MemOk(ShapeOf(s), mem)
    ensures Core(s.(mem := mem))
  {
  }

  /** Rewriting one register, with a well-formed value. */
  lemma SetReg(s: State, i: nat, c: Cap)
    requires Core(s) && i < |s.regs| && CapOk(ShapeOf(s), c)
    ensures Core(s.(regs := s.regs[i := c]))
    ensures Abs(s.(regs := s.regs[i := c])) == Abs(s).(regs := Abs(s).regs[i := Den(s.blocks, c)])
    ensures Safe(s) && (Live(c) ==> c.base !in s.table) ==> Safe(s.(regs := s.regs[i := c]))
  {
    assert RegsOk(ShapeOf(s), s.regs[i := c]);
    CoreWithRegs(s, s.regs[i := c]);
    RegValsUpdate(s.blocks, s.regs, i, c);
    assert Safe(s) && (Live(c) ==> c.base !in s.table) ==> RegsSafe(s.table, s.regs[i := c]);
  }

  // ------------------------------------------------------------------ sweeps are invisible

  lemma SweepRegsInvisible(s: State, dead: set<nat>)
    requires Core(s)
    ensures Core(SweepRegs(s, dead)) && Abs(SweepRegs(s, dead)) == Abs(s)
    ensures forall i | 0 <= i < |s.regs| && Live(SweepRegs(s, dead).regs[i]) ::
      SweepRegs(s, dead).regs[i] == s.regs[i] && s.regs[i].base !in dead
  {
    var r := SweepRegs(s, dead);
    forall i | 0 <= i < |s.regs|
      ensures CapOk(ShapeOf(s), r.regs[i]) && Den(s.blocks, r.regs[i]) == Den(s.blocks, s.regs[i])
      ensures Live(r.regs[i]) ==> r.regs[i] == s.regs[i] && s.regs[i].base !in dead
    {
      SweptIsOk(ShapeOf(s), s.regs[i], dead);
    }
    assert RegVals(s.blocks, r.regs) == RegVals(s.blocks, s.regs);
  }

  /** Memory whose cells denote the same values holds the same objects. */
  lemma SameCellsSameObjs(blocks: Blocks, mem: map<nat, Cap>, mem': map<nat, Cap>, table: Fwd)
    requires Increasing(table)
    requires forall x :: WordAt(blocks, mem', x) == WordAt(blocks, mem, x)
    ensures AbsObjs(blocks, mem', table) == AbsObjs(blocks, mem, table)
  {
    forall o | o in blocks && Born(blocks, o)
      ensures Words(blocks, mem', Terminus(table, o), blocks[o].len) == Words(blocks, mem, Terminus(table, o), blocks[o].len)
    {
    }
  }

  lemma SweptMemFacts(h: Shape, mem: map<nat, Cap>, dead: set<nat>)
    requires MemOk(h, mem)
    ensures MemOk(h, SweptMem(h.clearsTags, mem, dead))
    ensures forall x :: WordAt(h.blocks, SweptMem(h.clearsTags, mem, dead), x) == WordAt(h.blocks, mem, x)
    ensures forall x | x in mem && Live(SweptMem(h.clearsTags, mem, dead)[x]) ::
      SweptMem(h.clearsTags, mem, dead)[x] == mem[x] && mem[x].base !in dead
  {
    forall x | x in mem
      ensures CapOk(h, Swept(h.clearsTags, mem[x], dead))
      ensures Den(h.blocks, Swept(h.clearsTags, mem[x], dead)) == Den(h.blocks, mem[x])
      ensures Live(Swept(h.clearsTags, mem[x], dead)) ==> Swept(h.clearsTags, mem[x], dead) == mem[x] && mem[x].base !in dead
    {
      SweptIsOk(h, mem[x], dead);
    }
  }

  lemma SweepMemInvisible(s: State, dead: set<nat>)
    requires Core(s)
    ensures Core(SweepMem(s, dead)) && Abs(SweepMem(s, dead)) == Abs(s)
    ensures forall x | x in s.mem && Live(SweepMem(s, dead).mem[x]) ::
      SweepMem(s, dead).mem[x] == s.mem[x] && s.mem[x].base !in dead
  {
    SweptMemFacts(ShapeOf(s), s.mem, dead);
    CoreWithMem(s, SweptMem(s.clearsTags, s.mem, dead));
    SameCellsSameObjs(s.blocks, s.mem, SweptMem(s.clearsTags, s.mem, dead), s.table);
  }

  lemma SweptCellFacts(h: Shape, mem: map<nat, Cap>, x: nat, dead: set<nat>)
    requires MemOk(h, mem) && x in mem
    ensures var m := mem[x := Swept(h.clearsTags, mem[x], dead)];
      && MemOk(h, m) && (forall y :: WordAt(h.blocks, m, y) == WordAt(h.blocks, mem, y))
      && (forall y | y in mem && Live(m[y]) :: m[y] == mem[y])
  {
    SweptIsOk(h, mem[x], dead);
  }

  lemma LazySweepInvisible(s: State, x: nat)
    requires Inv(s) && x in s.mem
    ensures var r := s.(mem := s.mem[x := Swept(s.clearsTags, s.mem[x], s.armed)]);
      Inv(r) && Abs(r) == Abs(s)
  {
    var mem := s.mem[x := Swept(s.clearsTags, s.mem[x], s.armed)];
    SweptCellFacts(ShapeOf(s), s.mem, x, s.armed);
    CoreWithMem(s, mem);
    SameCellsSameObjs(s.blocks, s.mem, mem, s.table);
    assert MemSafe(s.table, mem, s.armed);
  }

  // ------------------------------------------------------------------ reads and writes

  /** The parts of the invariant that reading and writing depend on. */
  ghost predicate Readable(s: State) {
    Layout(s.blocks) && Chains(s.blocks, s.table) && Increasing(s.table)
  }

  /** A live, safe capability denotes an in-bounds place of its object's current copy. */
  lemma Pointee(s: State, c: Cap)
    requires Readable(s) && CapOk(ShapeOf(s), c) && Live(c) && c.base !in s.table
    ensures c.base in s.blocks
    ensures var o, len := s.blocks[c.base].obj, s.blocks[c.base].len;
      && Den(s.blocks, c) == VRef(o, c.addr - c.base) && 0 <= c.addr - c.base < len
      && o in s.blocks && Born(s.blocks, o) && Terminus(s.table, o) == c.base && s.blocks[o].len == len
      && o in AbsObjs(s.blocks, s.mem, s.table)
      && AbsObjs(s.blocks, s.mem, s.table)[o] == Words(s.blocks, s.mem, c.base, len)
  {
    CurrentCopy(s.blocks, s.table, c.base);
  }

  /** A load returns the last value written to that place of the object, and never a stale capability. */
  lemma LoadStep(s: State, rd: nat, rs: nat)
    requires Inv(s) && rd < |s.regs| && rs < |s.regs| && Usable(s, s.regs[rs])
    ensures var r := s.(regs := s.regs[rd := Loaded(s, s.regs[rs])]);
      Inv(r) && AEnabled(Abs(s), DidLoad(rd, rs)) && Abs(r) == AApply(Abs(s), DidLoad(rd, rs))
  {
    var c := s.regs[rs];
    Pointee(s, c);
    SweptIsOk(ShapeOf(s), s.mem[c.addr], s.armed);
    SetReg(s, rd, Loaded(s, c));
    assert Abs(s).objs[s.blocks[c.base].obj][c.addr - c.base] == WordAt(s.blocks, s.mem, c.base + (c.addr - c.base));
  }

  /** A live, safe capability points into no other object's current copy. */
  lemma OtherObjectElsewhere(s: State, c: Cap, o: nat)
    requires Readable(s) && CapOk(ShapeOf(s), c) && Live(c) && c.base !in s.table
    requires o in s.blocks && Born(s.blocks, o) && o != s.blocks[c.base].obj
    ensures var t, len := Terminus(s.table, o), s.blocks[o].len; c.addr < t || t + len <= c.addr
  {
    CurrentCopy(s.blocks, s.table, o);
    assert Apart(s.blocks, c.base, Terminus(s.table, o));
  }

  lemma StoredWords(blocks: Blocks, mem: map<nat, Cap>, x: nat, v: Cap, a: nat, len: nat)
    ensures Words(blocks, mem[x := v], a, len)
         == if a <= x < a + len then Words(blocks, mem, a, len)[x - a := Den(blocks, v)] else Words(blocks, mem, a, len)
  {
    var m := mem[x := v];
    forall i | 0 <= i < len
      ensures Words(blocks, m, a, len)[i] == if a + i == x then Den(blocks, v) else WordAt(blocks, mem, a + i)
    {
      assert Words(blocks, m, a, len)[i] == WordAt(blocks, m, a + i);
    }
  }

  lemma StoredObjs(s: State, c: Cap, v: Cap)
    requires Readable(s) && CapOk(ShapeOf(s), c) && Live(c) && c.base !in s.table
    ensures c.base in s.blocks
    ensures var objs, o := AbsObjs(s.blocks, s.mem, s.table), s.blocks[c.base].obj;
      && o in objs && 0 <= c.addr - c.base < |objs[o]|
      && AbsObjs(s.blocks, s.mem[c.addr := v], s.table) == objs[o := objs[o][c.addr - c.base := Den(s.blocks, v)]]
  {
    Pointee(s, c);
    var objs, o := AbsObjs(s.blocks, s.mem, s.table), s.blocks[c.base].obj;
    forall p | p in s.blocks && Born(s.blocks, p)
      ensures AbsObjs(s.blocks, s.mem[c.addr := v], s.table)[p]
           == if p == o then objs[p][c.addr - c.base := Den(s.blocks, v)] else objs[p]
    {
      StoredWords(s.blocks, s.mem, c.addr, v, Terminus(s.table, p), s.blocks[p].len);
      if p != o {
        OtherObjectElsewhere(s, c, p);
      }
    }
  }

  /** A store changes exactly the addressed place of the one object it denotes. */
  lemma StoreStep(s: State, rs: nat, rv: nat)
    requires Inv(s) && rs < |s.regs| && rv < |s.regs| && Usable(s, s.regs[rs])
    ensures var r := s.(mem := s.mem[s.regs[rs].addr := s.regs[rv]]);
      Inv(r) && AEnabled(Abs(s), DidStore(rs, rv)) && Abs(r) == AApply(Abs(s), DidStore(rs, rv))
  {
    var c, v := s.regs[rs], s.regs[rv];
    var mem := s.mem[c.addr := v];
    StoredObjs(s, c, v);
    assert CapOk(ShapeOf(s), v);
    assert MemOk(ShapeOf(s), mem);
    CoreWithMem(s, mem);
    assert MemSafe(s.table, mem, s.armed);
  }

  // ------------------------------------------------------------------ new copies

  /** The bump cursor places a new copy above every existing one. */
  lemma NewCopy(root: Cap, bump: nat, blocks: Blocks, len: nat)
    requires RootOk(root) && bump <= root.len && AllPlaced(root, bump, blocks)
    requires Sound(len, root.len) && ReprLen(len) == len && Place(bump, len, root.len).Fit?
    ensures var p := Place(bump, len, root.len);
      var b := root.base + p.off;
      && 0 < b && b !in blocks && p.next <= root.len
      && CopyPlaced(root, p.next, b, len)
      && AllBelow(blocks, b)
      && (forall blk: Block | blk.len == len :: AllPlaced(root, p.next, blocks[b := blk]))
  {
    var p := Place(bump, len, root.len);
    var b := root.base + p.off;
    TurnFacts(bump, bump, len, root.len);
    ReprLenSelfAligned(len);
    AlignMonotone(len, root.len);
    DividesTrans(Align(len), Align(root.len), root.base);
    DividesSum(Align(len), root.base, p.off);
    forall a | a in blocks
      ensures EndsBelow(blocks, a, b) && a != b && CopyPlaced(root, p.next, a, blocks[a].len)
    {
      assert CopyPlaced(root, bump, a, blocks[a].len);
    }
  }

  lemma LayoutGrows(blocks: Blocks, b: nat, blk: Block)
    requires Layout(blocks) && b > 0 && b !in blocks
    requires AllBelow(blocks, b)
    requires blk.obj == b || (Born(blocks, blk.obj) && blocks[blk.obj].len == blk.len)
    ensures Layout(blocks[b := blk])
  {
    var g := blocks[b := blk];
    forall a | a in g
      ensures CopyOwned(g, a)
    {
      assert a != b ==> CopyOwned(blocks, a);
    }
    forall x, y | x in g && y in g && x != y
      ensures Apart(g, x, y)
    {
      assert x != b && y != b ==> Apart(blocks, x, y);
      assert x != b ==> EndsBelow(blocks, x, b);
      assert y != b ==> EndsBelow(blocks, y, b);
    }
  }

  /** Memory after a new copy at `b` was written: well-formed, and unchanged below `b`. */
  lemma GrownMem(h: Shape, mem: map<nat, Cap>, b: nat, blk: Block, mem': map<nat, Cap>)
    requires MemOk(h, mem) && b !in h.blocks && b != 0
    requires forall x :: x in mem' <==> x in mem || b <= x < b + blk.len
    requires forall x | x in mem' :: CapOk(h, mem'[x])
    ensures MemOk(h.(blocks := h.blocks[b := blk]), mem')
  {
    forall x | x in mem'
      ensures CapOk(h.(blocks := h.blocks[b := blk]), mem'[x])
    {
      ShapeGrows(h, b, blk, mem'[x]);
    }
  }

  lemma GrownRegs(h: Shape, regs: seq<Cap>, b: nat, blk: Block)
    requires RegsOk(h, regs) && b !in h.blocks && b != 0 && 0 !in h.blocks
    ensures RegsOk(h.(blocks := h.blocks[b := blk]), regs)
    ensures RegVals(h.blocks[b := blk], regs) == RegVals(h.blocks, regs)
  {
    forall i | 0 <= i < |regs|
      ensures CapOk(h.(blocks := h.blocks[b := blk]), regs[i])
      ensures Den(h.blocks[b := blk], regs[i]) == Den(h.blocks, regs[i])
    {
      ShapeGrows(h, b, blk, regs[i]);
    }
  }

  /** The words of a copy read the same from the grown heap, at `a` or copied to `a'`. */
  lemma GrownWords(h: Shape, mem: map<nat, Cap>, b: nat, blk: Block, mem': map<nat, Cap>, a: nat, a': nat, len: nat)
    requires MemOk(h, mem) && b !in h.blocks && b != 0 && 0 !in h.blocks
    requires forall x: int | a' <= x < a' + len :: CellOf(mem', x) == CellOf(mem, a + x - a')
    ensures Words(h.blocks[b := blk], mem', a', len) == Words(h.blocks, mem, a, len)
  {
    var w, w' := Words(h.blocks, mem, a, len), Words(h.blocks[b := blk], mem', a', len);
    forall i | 0 <= i < len
      ensures w'[i] == w[i]
    {
      var c := CellOf(mem, a + i);
      assert c == NULL || CapOk(h, c);
      assert CellOf(mem', a' + i) == CellOf(mem, a + (a' + i) - a');
      ShapeGrows(h, b, blk, c);
    }
  }

  lemma NoZeroCopy(blocks: Blocks)
    requires Layout(blocks)
    ensures 0 !in blocks
  {
    forall a | a in blocks
      ensures a != 0
    {
      assert CopyOwned(blocks, a);
    }
  }

  /** Writing only at or above a new copy leaves every existing object's words as they were. */
  lemma OldObjectsKept(s: State, b: nat, blk: Block, mem': map<nat, Cap>, o: nat)
    requires Readable(s) && MemOk(ShapeOf(s), s.mem) && b > 0 && b !in s.blocks
    requires AllBelow(s.blocks, b)
    requires forall x: int | x < b :: CellOf(mem', x) == CellOf(s.mem, x)
    requires o in s.blocks && Born(s.blocks, o)
    ensures Words(s.blocks[b := blk], mem', Terminus(s.table, o), s.blocks[o].len)
         == Words(s.blocks, s.mem, Terminus(s.table, o), s.blocks[o].len)
  {
    CurrentCopy(s.blocks, s.table, o);
    NoZeroCopy(s.blocks);
    var t := Terminus(s.table, o);
    assert EndsBelow(s.blocks, t, b);
    GrownWords(ShapeOf(s), s.mem, b, blk, mem', t, t, s.blocks[o].len);
  }

  /** A fresh object's cells all denote zero. */
  lemma FreshWords(blocks: Blocks, mem: map<nat, Cap>, b: nat, len: nat)
    requires 0 !in blocks
    ensures Words(blocks, ClearCells(mem, b, len), b, len) == seq(len, i => VInt(0))
  {
  }

  lemma ChainsGrow(blocks: Blocks, table: Fwd, b: nat, blk: Block)
    requires Layout(blocks) && Chains(blocks, table) && b !in blocks && blk.obj == b
    ensures Chains(blocks[b := blk], table)
  {
    var g := blocks[b := blk];
    forall k | k in table
      ensures MapsUp(g, table, k)
    {
      assert MapsUp(blocks, table, k);
    }
    forall x, y | x in g && y in g
      ensures OneCurrent(g, table, x, y)
    {
      assert x != b ==> CopyOwned(blocks, x);
      assert y != b ==> CopyOwned(blocks, y);
      assert x != b && y != b ==> OneCurrent(blocks, table, x, y);
    }
  }

  lemma FreshIsUnmapped(blocks: Blocks, table: Fwd, b: nat)
    requires Chains(blocks, table) && b !in blocks
    ensures b !in table
  {
    assert b in table ==> MapsUp(blocks, table, b);
  }

  lemma AbsObjsIs(blocks: Blocks, mem: map<nat, Cap>, table: Fwd, objs: map<nat, seq<Val>>)
    requires Increasing(table)
    requires forall o :: o in objs <==> o in blocks && Born(blocks, o)
    requires forall o | o in objs :: objs[o] == Words(blocks, mem, Terminus(table, o), blocks[o].len)
    ensures AbsObjs(blocks, mem, table) == objs
  {
  }

  lemma BornGrows(blocks: Blocks, b: nat, blk: Block)
    requires b !in blocks && (blk.obj in blocks ==> Born(blocks, blk.obj))
    ensures forall o :: (o in blocks[b := blk] && Born(blocks[b := blk], o))
                   <==> (o in blocks && Born(blocks, o)) || (o == b == blk.obj)
  {
  }

  lemma AllocWords(s: State, b: nat, len: nat)
    requires Readable(s) && MemOk(ShapeOf(s), s.mem) && b > 0 && b !in s.blocks && AllBelow(s.blocks, b)
    ensures forall o | o in s.blocks && Born(s.blocks, o) ::
      Words(s.blocks[b := Block(b, len)], ClearCells(s.mem, b, len), Terminus(s.table, o), s.blocks[o].len)
      == Words(s.blocks, s.mem, Terminus(s.table, o), s.blocks[o].len)
  {
    forall o | o in s.blocks && Born(s.blocks, o)
      ensures Words(s.blocks[b := Block(b, len)], ClearCells(s.mem, b, len), Terminus(s.table, o), s.blocks[o].len)
           == Words(s.blocks, s.mem, Terminus(s.table, o), s.blocks[o].len)
    {
      OldObjectsKept(s, b, Block(b, len), ClearCells(s.mem, b, len), o);
    }
  }

  lemma AllocObjs(s: State, b: nat, len: nat)
    requires Readable(s) && MemOk(ShapeOf(s), s.mem) && b > 0 && b !in s.blocks && AllBelow(s.blocks, b)
    ensures AbsObjs(s.blocks[b := Block(b, len)], ClearCells(s.mem, b, len), s.table)
         == AbsObjs(s.blocks, s.mem, s.table)[b := seq(len, i => VInt(0))]
    ensures b !in AbsObjs(s.blocks, s.mem, s.table)
  {
    var g, m := s.blocks[b := Block(b, len)], ClearCells(s.mem, b, len);
    NoZeroCopy(s.blocks);
    FreshWords(g, s.mem, b, len);
    FreshIsUnmapped(s.blocks, s.table, b);
    BornGrows(s.blocks, b, Block(b, len));
    AllocWords(s, b, len);
    AbsObjsIs(g, m, s.table, AbsObjs(s.blocks, s.mem, s.table)[b := seq(len, i => VInt(0))]);
  }

  /** What the allocator does for a sound request, in terms of the rounded length alone. */
  lemma AllocIsPlacement(root: Cap, bump: nat, size: nat)
    requires RootOk(root) && Sound(size, root.len) && bump <= root.len
    ensures RepresentableLength(size) == ReprLen(size)
    ensures Sound(ReprLen(size), root.len) && ReprLen(ReprLen(size)) == ReprLen(size) > 0
    ensures match Place(bump, ReprLen(size), root.len)
      case NoFit => true
      case Fit(off, next) => AllocCap(root, off, size) == ObjCap(root, root.base + off, ReprLen(size))
  {
    ReprLenIdempotent(size);
    TurnFacts(bump, bump, size, root.len);
    var p := Place(bump, ReprLen(size), root.len);
    if p.Fit? {
      RebuildEqualsOriginal(root, p.off, size);
    }
  }

  /** The cells of a new object hold nothing a reference could be. */
  lemma ClearedMem(h: Shape, table: Fwd, mem: map<nat, Cap>, armed: set<nat>, b: nat, len: nat)
    requires MemOk(h, mem) && MemSafe(table, mem, armed) && b !in h.blocks && b != 0
    ensures MemOk(h.(blocks := h.blocks[b := Block(b, len)]), ClearCells(mem, b, len))
    ensures MemSafe(table, ClearCells(mem, b, len), armed)
  {
    GrownMem(h, mem, b, Block(b, len), ClearCells(mem, b, len));
    hide ClearCells, CapOk;
  }

  /** A new object enters the heap with every invariant intact and all cells zero. */
  lemma GrowWithObject(s: State, len: nat, b: nat, next: nat)
    requires Inv(s)
    requires b > 0 && b !in s.blocks && next <= s.root.len && len > 0
    requires AllBelow(s.blocks, b)
    requires AllPlaced(s.root, next, s.blocks[b := Block(b, len)])
    ensures var r := s.(bump := next, blocks := s.blocks[b := Block(b, len)], mem := ClearCells(s.mem, b, len));
      Inv(r) && Abs(r) == AState(Abs(s).objs[b := seq(len, i => VInt(0))], Abs(s).regs) && b !in Abs(s).objs
  {
    hide AllPlaced, AllBelow, MemOk, RegsOk, RootOk, RegsSafe, MemSafe, AbsObjs, RegVals, ClearCells;
    NoZeroCopy(s.blocks);
    LayoutGrows(s.blocks, b, Block(b, len));
    ChainsGrow(s.blocks, s.table, b, Block(b, len));
    ClearedMem(ShapeOf(s), s.table, s.mem, s.armed, b, len);
    GrownRegs(ShapeOf(s), s.regs, b, Block(b, len));
    AllocObjs(s, b, len);
    hide Layout, Chains;
  }

  /** The state after an object of `len` cells was put at `b`, with its capability in `rd`. */
  function WithObject(s: State, rd: nat, len: nat, b: nat, next: nat): State
    requires rd < |s.regs|
  {
    s.(bump := next, blocks := s.blocks[b := Block(b, len)], mem := ClearCells(s.mem, b, len),
       regs := s.regs[rd := ObjCap(s.root, b, len)])
  }

  lemma AllocFits(s: State, rd: nat, len: nat, b: nat, next: nat)
    requires Inv(s) && rd < |s.regs| && Sound(len, s.root.len) && ReprLen(len) == len
    requires Place(s.bump, len, s.root.len).Fit? && next == Place(s.bump, len, s.root.len).next
    requires b == s.root.base + Place(s.bump, len, s.root.len).off
    ensures var r := WithObject(s, rd, len, b, next);
      && Inv(r) && b !in Abs(s).objs
      && Abs(r) == AState(Abs(s).objs[b := seq(len, i => VInt(0))], Abs(s).regs[rd := VRef(b, 0)])
  {
    NewCopy(s.root, s.bump, s.blocks, len);
    assert AllPlaced(s.root, next, s.blocks[b := Block(b, len)]);
    GrowWithObject(s, len, b, next);
    FreshIsUnmapped(s.blocks, s.table, b);
    hide AllPlaced, AllBelow, Layout, Chains, MemOk, RegsOk, RootOk, Place, AbsObjs;
    SetReg(s.(bump := next, blocks := s.blocks[b := Block(b, len)], mem := ClearCells(s.mem, b, len)), rd,
           ObjCap(s.root, b, len));
  }

  /** What an allocation does, in terms of its placement. */
  lemma AllocIs(s: State, rd: nat, size: nat)
    requires rd < |s.regs| && RootOk(s.root) && s.bump <= s.root.len && Sound(size, s.root.len)
    ensures var len := ReprLen(size);
      match Place(s.bump, len, s.root.len)
      case NoFit => DoAlloc(s, rd, size) == (s.(regs := s.regs[rd := NULL]), DidNotAlloc(rd))
      case Fit(off, next) =>
        var b := s.root.base + off;
        DoAlloc(s, rd, size) == (WithObject(s, rd, len, b, next), DidAlloc(rd, b, len))
  {
    hide Place, ReprLen, ClearCells, AllocCap;
    AllocIsPlacement(s.root, s.bump, size);
  }

  lemma AllocRefused(s: State, rd: nat)
    requires Inv(s) && rd < |s.regs|
    ensures var r := s.(regs := s.regs[rd := NULL]);
      Inv(r) && AEnabled(Abs(s), DidNotAlloc(rd)) && Abs(r) == AApply(Abs(s), DidNotAlloc(rd))
  {
    NoZeroCopy(s.blocks);
    SetReg(s, rd, NULL);
  }

  /** The abstract allocation of a new object. */
  lemma AllocShows(s: State, rd: nat, len: nat, b: nat)
    requires Inv(s) && rd < |s.regs| && len > 0 && b !in Abs(s).objs
    ensures AEnabled(Abs(s), DidAlloc(rd, b, len))
    ensures AApply(Abs(s), DidAlloc(rd, b, len))
         == AState(Abs(s).objs[b := seq(len, i => VInt(0))], Abs(s).regs[rd := VRef(b, 0)])
  {
  }

  /** Allocation gives a new object, all zero, or tells the mutator there is no room. */
  lemma AllocStep(s: State, rd: nat, size: nat)
    requires Inv(s) && rd < |s.regs| && Sound(size, s.root.len)
    ensures var (r, ev) := DoAlloc(s, rd, size);
      Inv(r) && AEnabled(Abs(s), ev) && Abs(r) == AApply(Abs(s), ev)
  {
    hide DoAlloc, Place, ReprLen, ClearCells, ObjCap, WithObject, AEnabled, AApply;
    var len := ReprLen(size);
    AllocIsPlacement(s.root, s.bump, size);
    AllocIs(s, rd, size);
    var p := Place(s.bump, len, s.root.len);
    if p.NoFit? {
      AllocRefused(s, rd);
    } else {
      var b := s.root.base + p.off;
      AllocFits(s, rd, len, b, p.next);
      AllocShows(s, rd, len, b);
    }
  }

  // ------------------------------------------------------------------ moving

  lemma ChainsAfterMove(blocks: Blocks, table: Fwd, a: nat, b: nat)
    requires Layout(blocks) && Chains(blocks, table) && a in blocks && a !in table && b !in blocks && a < b
    ensures Chains(blocks[b := blocks[a]], table[a := Entry(b, blocks[a].len)])
  {
    var g, v := blocks[b := blocks[a]], table[a := Entry(b, blocks[a].len)];
    forall k | k in v
      ensures MapsUp(g, v, k)
    {
      assert k != a ==> MapsUp(blocks, table, k);
    }
    forall x, y | x in g && y in g
      ensures OneCurrent(g, v, x, y)
    {
      assert x != b && y != b ==> OneCurrent(blocks, table, x, y);
      assert x != b ==> OneCurrent(blocks, table, x, a);
      assert y != b ==> OneCurrent(blocks, table, a, y);
      FreshIsUnmapped(blocks, table, b);
    }
  }

  lemma MovedWords(s: State, a: nat, b: nat, m: map<nat, Cap>, o: nat)
    requires Readable(s) && MemOk(ShapeOf(s), s.mem) && a in s.blocks && a !in s.table && b !in s.table
    requires b > a && b !in s.blocks && AllBelow(s.blocks, b)
    requires o in s.blocks && Born(s.blocks, o) && CopiedTo(s.mem, m, a, b, s.blocks[a].len)
    ensures var v := s.table[a := Entry(b, s.blocks[a].len)];
      && Increasing(v)
      && Words(s.blocks[b := s.blocks[a]], m, Terminus(v, o), s.blocks[o].len)
      == Words(s.blocks, s.mem, Terminus(s.table, o), s.blocks[o].len)
  {
    TerminusExtends(s.table, a, Entry(b, s.blocks[a].len), o);
    if Terminus(s.table, o) == a {
      CurrentCopy(s.blocks, s.table, o);
      NoZeroCopy(s.blocks);
      GrownWords(ShapeOf(s), s.mem, b, s.blocks[a], m, a, b, s.blocks[a].len);
    } else {
      OldObjectsKept(s, b, s.blocks[a], m, o);
    }
  }

  lemma AllMovedWords(s: State, a: nat, b: nat, m: map<nat, Cap>)
    requires Readable(s) && MemOk(ShapeOf(s), s.mem) && a in s.blocks && a !in s.table && b !in s.table
    requires b > a && b !in s.blocks && AllBelow(s.blocks, b) && CopiedTo(s.mem, m, a, b, s.blocks[a].len)
    ensures var v := s.table[a := Entry(b, s.blocks[a].len)];
      Increasing(v)
      && forall o | o in s.blocks && Born(s.blocks, o) ::
           Words(s.blocks[b := s.blocks[a]], m, Terminus(v, o), s.blocks[o].len)
           == Words(s.blocks, s.mem, Terminus(s.table, o), s.blocks[o].len)
  {
    TerminusExtends(s.table, a, Entry(b, s.blocks[a].len), a);
    forall o | o in s.blocks && Born(s.blocks, o)
      ensures Words(s.blocks[b := s.blocks[a]], m, Terminus(s.table[a := Entry(b, s.blocks[a].len)], o), s.blocks[o].len)
           == Words(s.blocks, s.mem, Terminus(s.table, o), s.blocks[o].len)
    {
      MovedWords(s, a, b, m, o);
    }
  }

  /** After a move every object reads the same from the new end of its chain. */
  lemma MovedObjs(s: State, a: nat, b: nat, m: map<nat, Cap>)
    requires Readable(s) && MemOk(ShapeOf(s), s.mem) && a in s.blocks && a !in s.table && b !in s.table
    requires b > a && b !in s.blocks && AllBelow(s.blocks, b) && CopiedTo(s.mem, m, a, b, s.blocks[a].len)
    ensures var v := s.table[a := Entry(b, s.blocks[a].len)];
      Increasing(v) && AbsObjs(s.blocks[b := s.blocks[a]], m, v) == AbsObjs(s.blocks, s.mem, s.table)
  {
    assert CopyOwned(s.blocks, a);
    BornGrows(s.blocks, b, s.blocks[a]);
    AllMovedWords(s, a, b, m);
    AbsObjsIs(s.blocks[b := s.blocks[a]], m, s.table[a := Entry(b, s.blocks[a].len)], AbsObjs(s.blocks, s.mem, s.table));
  }

  /** Where a move may put its copy. */
  ghost predicate RoomAt(s: State, a: nat, b: nat, next: nat)
    requires a in s.blocks
  {
    && b !in s.blocks && next <= s.root.len && s.blocks[a].len > 0 && AllBelow(s.blocks, b)
    && AllPlaced(s.root, next, s.blocks[b := s.blocks[a]])
  }

  lemma PlacementHasRoom(s: State, a: nat, p: Placement)
    requires RootOk(s.root) && s.bump <= s.root.len && AllPlaced(s.root, s.bump, s.blocks)
    requires a in s.blocks && p == Place(s.bump, ReprLen(s.blocks[a].len), s.root.len) && p.Fit?
    ensures RoomAt(s, a, s.root.base + p.off, p.next)
  {
    assert CopyPlaced(s.root, s.bump, a, s.blocks[a].len);
    NewCopy(s.root, s.bump, s.blocks, s.blocks[a].len);
  }

  lemma MovedState(s: State, a: nat, b: nat, next: nat)
    requires Core(s) && a in s.blocks && a !in s.table && RoomAt(s, a, b, next)
    ensures Core(Moved(s, a, b, next)) && Increasing(Moved(s, a, b, next).table)
    ensures Abs(Moved(s, a, b, next)) == Abs(s)
  {
    var blk := s.blocks[a];
    var mem := CopyCells(s.mem, a, b, blk.len);
    assert CopyOwned(s.blocks, a);
    assert EndsBelow(s.blocks, a, b);
    NoZeroCopy(s.blocks);
    LayoutGrows(s.blocks, b, blk);
    ChainsAfterMove(s.blocks, s.table, a, b);
    CopiedMemOk(ShapeOf(s), s.mem, a, b, blk);
    GrownRegs(ShapeOf(s), s.regs, b, blk);
    FreshIsUnmapped(s.blocks, s.table, b);
    MovedObjs(s, a, b, mem);
    assert s.table[a := Entry(b, blk.len)].Keys == s.table.Keys + {a};
  }

  lemma CopiedMemOk(h: Shape, mem: map<nat, Cap>, a: nat, b: nat, blk: Block)
    requires MemOk(h, mem) && b !in h.blocks && b != 0
    ensures MemOk(h.(blocks := h.blocks[b := blk]), CopyCells(mem, a, b, blk.len))
  {
    var m := CopyCells(mem, a, b, blk.len);
    forall x | x in m
      ensures CapOk(h, m[x])
    {
      assert m[x] == CellOf(m, x);
    }
    GrownMem(h, mem, b, blk, m);
  }

  // ------------------------------------------------------------------ forwarding a reference

  /** The capability `c` becomes when it is carried to the current copy of its object. */
  function Carried(s: State, t: nat, c: Cap): Cap
    requires t in s.blocks && c.base <= c.addr
  {
    LiveAt(ShapeOf(s), t, t + (c.addr - c.base))
  }

  /** `c` points into the copy it is bounded to. */
  ghost predicate PointsInside(s: State, c: Cap) {
    c.base in s.blocks && c.base <= c.addr < c.base + s.blocks[c.base].len
  }

  /** Base plus offset: carrying a reference to the current copy keeps its object and its offset. */
  lemma CarriedIsSame(s: State, c: Cap)
    requires Core(s) && PointsInside(s, c)
    ensures var t := Terminus(s.table, c.base);
      && t in s.blocks && t !in s.table && t > 0
      && t + (c.addr - c.base) < t + s.blocks[t].len < WORD
      && CapOk(ShapeOf(s), Carried(s, t, c)) && Den(s.blocks, Carried(s, t, c)) == Den(s.blocks, c)
      && Live(Carried(s, t, c))
  {
    CurrentCopy(s.blocks, s.table, c.base);
    var t := Terminus(s.table, c.base);
    assert CopyPlaced(s.root, s.bump, t, s.blocks[t].len);
    assert Load in Carried(s, t, c).perms;
  }

  // ------------------------------------------------------------------ publishing and closing

  /** The mutator cannot tell the step from `s` to `r`: same abstract heap, or the program has stopped. */
  ghost predicate Invisible(s: State, r: State)
    requires Increasing(s.table)
  {
    match r.halted
    case true => true
    case false => Inv(r) && Increasing(r.table) && Abs(r) == Abs(s)
  }

  lemma OpenedIsSafe(s: State)
    requires Core(s)
    ensures var r := SweepRegs(s, s.marks).(armed := s.marks, pending := true); Inv(r) && Abs(r) == Abs(s)
  {
    SweepRegsInvisible(s, s.marks);
    var r := SweepRegs(s, s.marks);
    assert RegsSafe(s.table, r.regs);
    assert MemSafe(s.table, s.mem, s.marks);
  }

  lemma SweptIsSafe(s: State)
    requires Core(s) && s.armed == {}
    ensures var r := SweepMem(SweepRegs(s, s.marks), s.marks); Inv(r) && Abs(r) == Abs(s)
  {
    SweepRegsInvisible(s, s.marks);
    var q := SweepRegs(s, s.marks);
    assert RegsSafe(s.table, q.regs);
    SweepMemInvisible(q, s.marks);
    assert MemSafe(s.table, SweepMem(q, s.marks).mem, {});
  }

  /** After the marks are published, by opening an epoch or by sweeping, no loadable stale capability is left. */
  lemma PublishIsSafe(s: State, clears: Clears, e0: nat, script: seq<Reply>)
    requires Core(s) && s.armed == {}
    ensures var r := Publish(s, clears, e0, script); Invisible(s, r)
  {
    if OpenCode(e0, At(script, 0)) == 0 {
      OpenedIsSafe(s);
    } else if SweepsWithin(script, 1, clears) {
      SweptIsSafe(s);
    }
  }

  /** The closing scan ends the epoch only when nothing loadable is left for it to kill. */
  lemma CloseStep(s: State, clears: Clears, target: nat, script: seq<Reply>)
    requires Inv(s)
    ensures var r := DoClose(s, clears, target, script); Inv(r) && Abs(r) == Abs(s)
  {
    SweepRegsInvisible(s, s.armed);
    SweepMemInvisible(SweepRegs(s, s.armed), s.armed);
  }

  // ------------------------------------------------------------------ healing

  /** An address strictly inside a copy is never a table key: keys are starts of copies. */
  lemma InteriorIsNoKey(s: State, c: Cap)
    requires Readable(s) && PointsInside(s, c) && c.addr != c.base
    ensures c.addr !in s.table
  {
    assert c.addr in s.table ==> MapsUp(s.blocks, s.table, c.addr);
    assert c.addr in s.blocks ==> Apart(s.blocks, c.base, c.addr);
  }

  lemma WithOffsetMoves(h: Shape, t: nat, off: nat)
    requires t in h.blocks && 0 < t && off < h.blocks[t].len && t + off < WORD
    ensures WithOffset(LiveAt(h, t, t), U64(off)) == Some(LiveAt(h, t, t + off))
  {
    U64Small(off);
    U64Small(t + off);
  }

  /** A revoked reference whose base resolves heals to the same place of the current copy. */
  lemma HealsMoved(s: State, c: Cap)
    requires Core(s) && !Live(c) && PointsInside(s, c) && Lookup(s.table, c.base).Some?
    ensures Terminus(s.table, c.base) in s.blocks
    ensures TryReg(ResolverOf(s), c) == Some(Carried(s, Terminus(s.table, c.base), c))
  {
    ResolveIsCurrent(s, c.base);
    CarriedIsSame(s, c);
    WithOffsetMoves(ShapeOf(s), Terminus(s.table, c.base), c.addr - c.base);
  }

  /** A revoked reference whose base does not resolve is left alone, whatever its address is. */
  lemma HealsNothing(s: State, c: Cap)
    requires Core(s) && !Live(c) && PointsInside(s, c) && Lookup(s.table, c.base).None?
    ensures TryReg(ResolverOf(s), c) == None
  {
    ResolveIsCurrent(s, c.base);
    ResolveIsCurrent(s, c.addr);
    if c.addr != c.base {
      InteriorIsNoKey(s, c);
    }
  }

  /** A revoked reference heals exactly when its base resolves. */
  lemma HealsReference(s: State, c: Cap)
    requires Core(s) && !Live(c) && PointsInside(s, c)
    ensures TryReg(ResolverOf(s), c).Some? <==> Lookup(s.table, c.base).Some?
  {
    if Lookup(s.table, c.base).Some? {
      HealsMoved(s, c);
    } else {
      HealsNothing(s, c);
    }
  }

  /** An integer is rewritten exactly when it equals the address of a moved copy. */
  lemma HealsInteger(s: State, n: nat)
    requires Core(s)
    ensures TryReg(ResolverOf(s), IntCap(n)).Some? <==> Lookup(s.table, n).Some?
    ensures Lookup(s.table, n).Some? ==>
      Terminus(s.table, n) in s.blocks
      && TryReg(ResolverOf(s), IntCap(n)).value == LiveAt(ShapeOf(s), Terminus(s.table, n), Terminus(s.table, n))
  {
    NoZeroCopy(s.blocks);
    ResolveIsCurrent(s, 0);
    ResolveIsCurrent(s, n);
  }

  /** A usable replacement: well-formed, loadable, and for a copy that has not been moved away from. */
  ghost predicate Fresh(s: State, c: Cap) {
    CapOk(ShapeOf(s), c) && Live(c) && c.base !in s.table
  }

  lemma ReferenceReplaced(s: State, c: Cap)
    requires Core(s) && CapOk(ShapeOf(s), c) && c.base in s.blocks
    requires TryReg(ResolverOf(s), c).Some?
    ensures Fresh(s, TryReg(ResolverOf(s), c).value)
    ensures Den(s.blocks, TryReg(ResolverOf(s), c).value) == Den(s.blocks, c)
  {
    HealsReference(s, c);
    HealsMoved(s, c);
    CarriedIsSame(s, c);
  }

  lemma IntegerReplaced(s: State, c: Cap)
    requires Core(s) && CapOk(ShapeOf(s), c) && c.base !in s.blocks
    requires TryReg(ResolverOf(s), c).Some?
    ensures Fresh(s, TryReg(ResolverOf(s), c).value)
    ensures c.addr in s.table && Den(s.blocks, TryReg(ResolverOf(s), c).value) != Den(s.blocks, c)
  {
    var n := c.addr;
    HealsInteger(s, n);
    ResolveIsCurrent(s, n);
    assert CopyPlaced(s.root, s.bump, n, s.blocks[n].len);
    CarriedIsSame(s, LiveAt(ShapeOf(s), n, n));
  }

  /** The handler has a replacement for exactly the registers that hit. */
  lemma HitsIff(s: State, c: Cap)
    requires Core(s) && CapOk(ShapeOf(s), c)
    ensures TryReg(ResolverOf(s), c).Some? <==> Hits(s, c)
  {
    if !Live(c) {
      if c.base in s.blocks {
        HealsReference(s, c);
      } else {
        HealsInteger(s, c.addr);
      }
    }
  }

  lemma {:induction false} FirstHitIsFirst(s: State, lo: nat, file: seq<Cap>, j: nat)
    requires lo + REGS <= |s.regs| && |file| == REGS && j <= REGS
    requires forall i | 0 <= i < REGS :: TryReg(ResolverOf(s), file[i]).Some? <==> Hits(s, s.regs[lo + i])
    ensures FirstHit(s, lo, j) == FirstFrom(ResolverOf(s), file, j)
    decreases REGS - j
  {
    hide TryReg, Hits;
    if j < REGS {
      FirstHitIsFirst(s, lo, file, j + 1);
    }
  }

  /** The decision, register by register, is the one read off the frame. */
  lemma DecidesPicked(s: State, lo: nat, file: seq<Cap>, fault: Fault)
    requires lo + REGS <= |s.regs| && file == s.regs[lo..lo + REGS]
    requires forall i | 0 <= i < REGS :: TryReg(ResolverOf(s), file[i]).Some? <==> Hits(s, s.regs[lo + i])
    ensures var i := Picked(s, lo, fault);
      if Handled(fault) && i < REGS then
        TryReg(ResolverOf(s), s.regs[lo + i]).Some?
        && Decide(ResolverOf(s), file, fault) == Patched(i, TryReg(ResolverOf(s), s.regs[lo + i]).value)
      else !Decide(ResolverOf(s), file, fault).Patched?
  {
    hide TryReg, Hits;
    FirstHitIsFirst(s, lo, file, 0);
    assert forall i | 0 <= i < REGS :: file[i] == s.regs[lo + i];
    var i := Picked(s, lo, fault);
    assert i < REGS ==> file[i] == s.regs[lo + i] && (TryReg(ResolverOf(s), file[i]).Some? <==> Hits(s, s.regs[lo + i]));
  }

  /** Which register a heal rewrites, for every frame: the one picked, or none. */
  lemma PickedIsPatched(s: State, lo: nat, fault: Fault)
    requires Core(s) && lo + REGS <= |s.regs|
    ensures var i, o := Picked(s, lo, fault), Decide(ResolverOf(s), s.regs[lo..lo + REGS], fault);
      if Handled(fault) && i < REGS then
        TryReg(ResolverOf(s), s.regs[lo + i]).Some? && o == Patched(i, TryReg(ResolverOf(s), s.regs[lo + i]).value)
      else !o.Patched?
  {
    var file := s.regs[lo..lo + REGS];
    forall i | 0 <= i < REGS
      ensures TryReg(ResolverOf(s), file[i]).Some? <==> Hits(s, s.regs[lo + i])
    {
      HitsIff(s, s.regs[lo + i]);
    }
    DecidesPicked(s, lo, file, fault);
  }

  /** Rewriting register `i` with `c` shows exactly when `c` denotes something else. */
  lemma SetRegShows(s: State, i: nat, c: Cap)
    requires Increasing(s.table) && i < |s.regs|
    ensures Abs(s.(regs := s.regs[i := c])) == Abs(s) <==> Den(s.blocks, c) == Den(s.blocks, s.regs[i])
  {
    RegValsUpdate(s.blocks, s.regs, i, c);
    var w := RegVals(s.blocks, s.regs);
    assert w[i := Den(s.blocks, c)] == w <==> Den(s.blocks, c) == w[i];
  }

  lemma ReplacementShows(s: State, c: Cap)
    requires Core(s) && CapOk(ShapeOf(s), c) && TryReg(ResolverOf(s), c).Some?
    ensures Fresh(s, TryReg(ResolverOf(s), c).value)
    ensures Den(s.blocks, TryReg(ResolverOf(s), c).value) == Den(s.blocks, c) <==> c.base in s.blocks
  {
    if c.base in s.blocks {
      ReferenceReplaced(s, c);
    } else {
      IntegerReplaced(s, c);
    }
  }

  /**
    A heal keeps the meaning of every register if and only if the register it will pick, which
    the frame and the table determine, holds a reference. The failing case is a defect of the
    fallback scan: an integer that equals a forwarded address is overwritten with a capability.
   */
  lemma HealPreservesIff(s: State, lo: nat, fault: Fault)
    requires Core(s) && lo + REGS <= |s.regs|
    ensures var r := DoHeal(s, lo, fault);
      r.halted || (Increasing(r.table) && (Abs(r) == Abs(s) <==> SparesIntegers(s, lo, fault)))
  {
    TableIncreases(s.blocks, s.table);
    PickedIsPatched(s, lo, fault);
    var i := Picked(s, lo, fault);
    if Handled(fault) && i < REGS {
      assert CapOk(ShapeOf(s), s.regs[lo + i]);
      ReplacementShows(s, s.regs[lo + i]);
      hide Core, Abs, TryReg, Hits, Decide, Picked, CapOk, Fresh, Den;
      SetRegShows(s, lo + i, TryReg(ResolverOf(s), s.regs[lo + i]).value);
    }
  }

  /** A patch, if any, puts a fresh capability for the same place into the register. */
  ghost predicate Carries(s: State, lo: nat, o: Outcome) {
    match o
    case Unhealed => true
    case SiAddrOnly => true
    case Patched(reg, cap) =>
      lo + reg < |s.regs| && Fresh(s, cap) && Den(s.blocks, cap) == Den(s.blocks, s.regs[lo + reg])
  }

  lemma HealCarries(s: State, lo: nat, fault: Fault)
    requires Core(s) && lo + REGS <= |s.regs| && SparesIntegers(s, lo, fault)
    ensures Carries(s, lo, Decide(ResolverOf(s), s.regs[lo..lo + REGS], fault))
  {
    PickedIsPatched(s, lo, fault);
    var i := Picked(s, lo, fault);
    if Handled(fault) && i < REGS {
      assert CapOk(ShapeOf(s), s.regs[lo + i]);
      ReferenceReplaced(s, s.regs[lo + i]);
    }
    hide Core, TryReg, Decide, Picked, Fresh, CapOk, Den;
  }

  lemma ResumeStep(s: State, lo: nat, o: Outcome)
    requires Inv(s) && Carries(s, lo, o)
    ensures Invisible(s, Resume(s, lo, o))
  {
    if o.Patched? {
      SetReg(s, lo + o.reg, o.cap);
    }
  }

  /** A heal is invisible, or the program stops. */
  lemma HealStep(s: State, lo: nat, fault: Fault)
    requires Inv(s) && lo + REGS <= |s.regs| && SparesIntegers(s, lo, fault)
    ensures Invisible(s, DoHeal(s, lo, fault))
  {
    HealCarries(s, lo, fault);
    ResumeStep(s, lo, Decide(ResolverOf(s), s.regs[lo..lo + REGS], fault));
  }

  // ------------------------------------------------------------------ identity

  /** Where in memory the place denoted by `c` is now. */
  ghost function CurrentAddr(s: State, c: Cap): int
    requires Increasing(s.table)
  {
    Terminus(s.table, c.base) + (c.addr - c.base)
  }

  /** A reference that satisfies the heap's safety: loadable only if its copy is current. */
  ghost predicate SafeRef(s: State, c: Cap) {
    PointsInside(s, c) && (Live(c) ==> c.base !in s.table)
  }

  /** Two references are at one current address exactly when they denote the same object and offset. */
  lemma SamePlaceIff(s: State, a: Cap, b: Cap)
    requires Readable(s) && PointsInside(s, a) && PointsInside(s, b)
    ensures CurrentAddr(s, a) == CurrentAddr(s, b) <==> Den(s.blocks, a) == Den(s.blocks, b)
  {
    CurrentCopy(s.blocks, s.table, a.base);
    CurrentCopy(s.blocks, s.table, b.base);
    var t, u := Terminus(s.table, a.base), Terminus(s.table, b.base);
    assert t != u ==> Apart(s.blocks, t, u);
  }

  /** One address lies in one copy. */
  lemma SameAddrSameCopy(s: State, a: Cap, b: Cap)
    requires Readable(s) && PointsInside(s, a) && PointsInside(s, b) && a.addr == b.addr
    ensures a.base == b.base && Den(s.blocks, a) == Den(s.blocks, b)
  {
    assert a.base != b.base ==> Apart(s.blocks, a.base, b.base);
  }

  /** An address inside a moved-away copy is not the current address of anything. */
  lemma StaleAddrIsNowhere(s: State, a: Cap, b: Cap)
    requires Readable(s) && PointsInside(s, a) && PointsInside(s, b) && a.base in s.table
    ensures a.addr != CurrentAddr(s, b)
  {
    CurrentCopy(s.blocks, s.table, b.base);
    assert Apart(s.blocks, a.base, Terminus(s.table, b.base));
  }

  /** Normalizing yields the current address, unless the chain is too long to follow: then the stale one. */
  lemma NormalizeIs(s: State, c: Cap)
    requires Core(s) && SafeRef(s, c)
    ensures Normalize(ResolverOf(s), c) == if Resolvable(s, c) then CurrentAddr(s, c) else c.addr
    ensures Normalize(ResolverOf(s), c) > 0
  {
    CurrentCopy(s.blocks, s.table, c.base);
    CarriedIsSame(s, c);
    NoZeroCopy(s.blocks);
    ResolveIsCurrent(s, c.base);
    U64Small(CurrentAddr(s, c));
  }

  /** The slow path on two references, whichever way the kernel revokes. */
  lemma AcmpEqExact(s: State, a: Cap, b: Cap)
    requires Core(s) && SafeRef(s, a) && SafeRef(s, b)
    ensures AcmpEq(ResolverOf(s), a, b)
       <==> Den(s.blocks, a) == Den(s.blocks, b) && (a.addr == b.addr || (Resolvable(s, a) && Resolvable(s, b)))
  {
    NormalizeIs(s, a);
    NormalizeIs(s, b);
    SamePlaceIff(s, a, b);
    if a.addr == b.addr {
      SameAddrSameCopy(s, a, b);
    }
    if !Resolvable(s, a) {
      StaleAddrIsNowhere(s, a, b);
    }
    if !Resolvable(s, b) {
      StaleAddrIsNowhere(s, b, a);
    }
  }

  /** Two loadable references are equal exactly when their addresses are: the fast tier's claim. */
  lemma LiveAddressIsIdentity(s: State, a: Cap, b: Cap)
    requires Readable(s) && SafeRef(s, a) && SafeRef(s, b) && Live(a) && Live(b)
    ensures a.addr == b.addr <==> Den(s.blocks, a) == Den(s.blocks, b)
  {
    CurrentCopy(s.blocks, s.table, a.base);
    CurrentCopy(s.blocks, s.table, b.base);
    SamePlaceIff(s, a, b);
  }

  /**
    The whole barrier on a tag-clearing kernel: `==` answers true exactly when both references
    denote the same object and offset, however far each lags behind, unless an operand's chain
    is longer than the lookup follows, when it can only answer false.
   */
  lemma BarrierExact(s: State, a: Cap, b: Cap)
    requires Core(s) && s.clearsTags
    requires CapOk(ShapeOf(s), a) && CapOk(ShapeOf(s), b) && SafeRef(s, a) && SafeRef(s, b)
    ensures AcmpBarrier(ResolverOf(s), a, b)
       <==> Den(s.blocks, a) == Den(s.blocks, b) && (a.addr == b.addr || (Resolvable(s, a) && Resolvable(s, b)))
  {
    AcmpEqExact(s, a, b);
    if a.addr == b.addr {
      SameAddrSameCopy(s, a, b);
    } else if a.tag && b.tag {
      assert Load in a.perms && Load in b.perms;
      LiveAddressIsIdentity(s, a, b);
    }
  }

  /**
    On a permission-clearing kernel a revoked reference keeps its tag, so the fast tier never
    reaches the slow path: the barrier is right exactly as long as both operands are bounded to
    the same copy.
   */
  lemma BarrierNeedsClearedTags(s: State, a: Cap, b: Cap)
    requires Core(s) && !s.clearsTags
    requires CapOk(ShapeOf(s), a) && CapOk(ShapeOf(s), b) && SafeRef(s, a) && SafeRef(s, b)
    ensures AcmpBarrier(ResolverOf(s), a, b) <==> Den(s.blocks, a) == Den(s.blocks, b) && a.base == b.base
  {
    if a.addr == b.addr {
      SameAddrSameCopy(s, a, b);
    }
  }

  /** NULL is equal to NULL and to no reference. */
  lemma BarrierOnNull(s: State, c: Cap)
    requires Core(s) && s.clearsTags && SafeRef(s, c)
    ensures !AcmpBarrier(ResolverOf(s), NULL, c) && !AcmpBarrier(ResolverOf(s), c, NULL)
    ensures AcmpBarrier(ResolverOf(s), NULL, NULL)
  {
    NormalizeIs(s, c);
    NoZeroCopy(s.blocks);
  }

  /** Comparing shows the mutator object identity, or under-reports it for an over-long chain. */
  lemma CompareStep(s: State, r1: nat, r2: nat)
    requires Inv(s) && r1 < |s.regs| && r2 < |s.regs| && s.clearsTags
    requires IsReference(s, s.regs[r1]) && IsReference(s, s.regs[r2])
    ensures AEnabled(Abs(s), DidCompare(r1, r2, AcmpBarrier(ResolverOf(s), s.regs[r1], s.regs[r2]),
                                        Resolvable(s, s.regs[r1]) && Resolvable(s, s.regs[r2])))
  {
    var a, b := s.regs[r1], s.regs[r2];
    NoZeroCopy(s.blocks);
    assert CapOk(ShapeOf(s), a) && CapOk(ShapeOf(s), b);
    if a.base in s.blocks && b.base in s.blocks {
      BarrierExact(s, a, b);
    } else if a.base in s.blocks {
      BarrierOnNull(s, a);
    } else if b.base in s.blocks {
      BarrierOnNull(s, b);
    }
  }

  // ------------------------------------------------------------------ marked implies forwarded

  /**
    Every marked start is a table key, so what a lookup hands out lies outside every range that a
    sweep of the current marks would kill.
   */
  lemma MarkedImpliesForwarded(s: State, k: nat, m: nat)
    requires Core(s) && Lookup(s.table, k).Some? && m in s.marks
    ensures m in s.table
    ensures var c := Resolve(ResolverOf(s), k);
      && c.base != m && m in s.blocks
      && (c.base + c.len <= m || m + s.blocks[m].len <= c.base)
      && Swept(s.clearsTags, c, s.marks) == c
  {
    ResolveIsCurrent(s, k);
    assert MapsUp(s.blocks, s.table, m);
    assert Apart(s.blocks, m, Terminus(s.table, k));
  }
}
