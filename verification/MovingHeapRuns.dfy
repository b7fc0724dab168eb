/**
  Whole runs. Any sequence of mutator, collector and handler steps, with any kernel replies,
  shows the mutator a run of the non-moving heap, and never leaves it a loadable capability
  into a moved-away copy.
 */
module MovingHeapRuns {
  import opened Prelude
  import opened Representable
  import opened Cheri
  import opened Allocator
  import opened Chase
  import opened Handler
  import opened Revoke
  import opened MovingHeap
  import opened MovingHeapRefinement
  import opened MovingHeapPause

  // ------------------------------------------------------------------ one step

  /** The step from `s` to `r` that showed `ev` is a step of the non-moving heap, or stops in silence. */
  ghost predicate Simulates(s: State, r: State, ev: Event)
    requires Increasing(s.table)
  {
    match r.halted
    case true => ev == Silent
    case false =>
      Inv(r) && Increasing(r.table) && AEnabled(Abs(s), ev) && Abs(r) == AApply(Abs(s), ev)
  }

  lemma InvisibleSimulates(s: State, r: State)
    requires Increasing(s.table) && Invisible(s, r)
    ensures Simulates(s, r, Silent)
  {
  }

  lemma SetIntStep(s: State, rd: nat, n: nat)
    requires Inv(s) && rd < |s.regs|
    ensures Simulates(s, s.(regs := s.regs[rd := IntCap(n)]), DidSetInt(rd, n)) || s.halted
  {
    NoZeroCopy(s.blocks);
    SetReg(s, rd, IntCap(n));
  }

  lemma CopyStep(s: State, rd: nat, rs: nat)
    requires Inv(s) && rd < |s.regs| && rs < |s.regs|
    ensures Simulates(s, s.(regs := s.regs[rd := s.regs[rs]]), DidCopy(rd, rs)) || s.halted
  {
    SetReg(s, rd, s.regs[rs]);
  }

  lemma OffsetMeans(s: State, c: Cap, off: nat)
    requires Readable(s) && CapOk(ShapeOf(s), c) && c.base in s.blocks && off < c.len
    ensures var o, d := s.blocks[c.base].obj, AddressSet(c, c.base + off);
      && Den(s.blocks, c) == VRef(o, c.addr - c.base)
      && o in AbsObjs(s.blocks, s.mem, s.table) && off < |AbsObjs(s.blocks, s.mem, s.table)[o]|
      && CapOk(ShapeOf(s), d) && Den(s.blocks, d) == VRef(o, off) && d.base == c.base && (Live(d) ==> Live(c))
  {
    CurrentCopy(s.blocks, s.table, c.base);
  }

  /** Pointer arithmetic inside an object works the same on live and on revoked references. */
  lemma OffsetStep(s: State, rd: nat, rs: nat, off: nat)
    requires Inv(s) && rd < |s.regs| && rs < |s.regs|
    requires s.regs[rs].base in s.blocks && off < s.regs[rs].len
    ensures Simulates(s, s.(regs := s.regs[rd := AddressSet(s.regs[rs], s.regs[rs].base + off)]), DidOffset(rd, rs, off))
         || s.halted
  {
    OffsetMeans(s, s.regs[rs], off);
    SetReg(s, rd, AddressSet(s.regs[rs], s.regs[rs].base + off));
  }

  lemma AllocSimulates(s: State, rd: nat, size: nat)
    requires Inv(s) && !s.halted && rd < |s.regs| && Sound(size, s.root.len)
    ensures Simulates(s, DoAlloc(s, rd, size).0, DoAlloc(s, rd, size).1)
  {
    AllocStep(s, rd, size);
  }

  lemma AccessSimulates(s: State, clears: Clears, act: Action)
    requires Inv(s) && !s.halted && Enabled(s, act)
    requires act.LoadCell? || act.StoreCell? || act.Compare?
    ensures Simulates(s, Apply(s, clears, act).0, Apply(s, clears, act).1)
  {
    match act
    case LoadCell(rd, rs) => LoadStep(s, rd, rs);
    case StoreCell(rs, rv) => StoreStep(s, rs, rv);
    case Compare(r1, r2) => CompareStep(s, r1, r2);
  }

  lemma AllocApplies(s: State, clears: Clears, rd: nat, size: nat)
    requires Enabled(s, Alloc(rd, size))
    ensures rd < |s.regs| && Apply(s, clears, Alloc(rd, size)) == DoAlloc(s, rd, size)
  {
    hide DoAlloc;
  }

  lemma RegisterSimulates(s: State, clears: Clears, act: Action)
    requires Inv(s) && !s.halted && Enabled(s, act)
    requires act.Alloc? || act.SetInt? || act.Copy? || act.Offset?
    ensures Simulates(s, Apply(s, clears, act).0, Apply(s, clears, act).1)
  {
    TableIncreases(s.blocks, s.table);
    hide Inv, Abs, AEnabled, AApply, IntCap, AddressSet, DoAlloc, Simulates;
    match act
    case Alloc(rd, size) =>
      AllocApplies(s, clears, rd, size);
      AllocSimulates(s, rd, size);
    case SetInt(rd, n) => SetIntStep(s, rd, n);
    case Copy(rd, rs) => CopyStep(s, rd, rs);
    case Offset(rd, rs, off) => OffsetStep(s, rd, rs, off);
  }

  /** Steps of the collector, the kernel and the fault handler. */
  predicate Background(act: Action) {
    act.HealFault? || act.Pause? || act.Close? || act.LazySweep?
  }

  /** The steps the mutator does not ask for show it nothing. */
  lemma BackgroundIsInvisible(s: State, clears: Clears, act: Action)
    requires Inv(s) && !s.halted && Background(act)
    ensures Apply(s, clears, act).1 == Silent && Invisible(s, Apply(s, clears, act).0)
  {
    if Enabled(s, act) {
      match act
      case HealFault(lo, fault) => HealStep(s, lo, fault);
      case Pause(callocOk, roots, limit, fixup, e0, script) =>
        PauseStep(s, clears, callocOk, roots, limit, fixup, e0, script);
      case Close(target, script) => CloseStep(s, clears, target, script);
      case LazySweep(x) => LazySweepInvisible(s, x);
    }
  }

  /** Every step refines: whatever it showed the mutator, the non-moving heap can show too. */
  lemma StepRefines(s: State, clears: Clears, act: Action)
    requires Inv(s) && !s.halted
    ensures Simulates(s, Apply(s, clears, act).0, Apply(s, clears, act).1)
  {
    if !Enabled(s, act) {
      assert Apply(s, clears, act) == (s, Silent);
    } else if Background(act) {
      BackgroundIsInvisible(s, clears, act);
      InvisibleSimulates(s, Apply(s, clears, act).0);
    } else if act.LoadCell? || act.StoreCell? || act.Compare? {
      AccessSimulates(s, clears, act);
    } else {
      RegisterSimulates(s, clears, act);
    }
  }

  // ------------------------------------------------------------------ runs

  /** The state after a run and what each step showed. */
  function Run(s: State, clears: Clears, acts: seq<Action>): (State, seq<Event>)
    decreases |acts|
  {
    if acts == [] then (s, [])
    else
      var (q, ev) := Apply(s, clears, acts[0]);
      var (r, evs) := Run(q, clears, acts[1..]);
      (r, [ev] + evs)
  }

  /** The non-moving heap can show these events, one after the other. */
  ghost predicate Allows(a: AState, evs: seq<Event>)
    decreases |evs|
  {
    evs == [] || (AEnabled(a, evs[0]) && Allows(AApply(a, evs[0]), evs[1..]))
  }

  ghost function After(a: AState, evs: seq<Event>): AState
    requires Allows(a, evs)
    decreases |evs|
  {
    if evs == [] then a else After(AApply(a, evs[0]), evs[1..])
  }

  lemma {:induction false} HaltedRun(s: State, clears: Clears, acts: seq<Action>, a: AState)
    requires s.halted
    ensures Run(s, clears, acts).0 == s && Allows(a, Run(s, clears, acts).1)
    decreases |acts|
  {
    if acts != [] {
      HaltedRun(s, clears, acts[1..], a);
      assert Run(s, clears, acts).1[1..] == Run(s, clears, acts[1..]).1;
    }
  }

  /**
    The mutator cannot tell. In every run from a good state, for every kernel behaviour, the
    observations are ones the non-moving heap allows; and unless the program stopped itself, the
    moving heap then stands for exactly the non-moving heap those observations lead to.
   */
  lemma {:induction false} RunRefines(s: State, clears: Clears, acts: seq<Action>)
    requires Inv(s) && !s.halted
    ensures var (r, evs) := Run(s, clears, acts);
      && Allows(Abs(s), evs)
      && (!r.halted ==> Inv(r) && Increasing(r.table) && Abs(r) == After(Abs(s), evs))
    decreases |acts|
  {
    if acts != [] {
      var (q, ev) := Apply(s, clears, acts[0]);
      StepRefines(s, clears, acts[0]);
      assert Run(s, clears, acts).1[1..] == Run(q, clears, acts[1..]).1;
      if q.halted {
        HaltedRun(q, clears, acts[1..], AApply(Abs(s), ev));
      } else {
        RunRefines(q, clears, acts[1..]);
      }
    }
  }

  /** A collector that has just set up its arena; every register holds zero. */
  function Start(root: Cap, clearsTags: bool, slots: nat, registers: nat): State {
    State(root, clearsTags, 0, map[], map[], map[], slots, seq(registers, _ => NULL), {}, {}, false, false)
  }

  lemma StartIsGood(root: Cap, clearsTags: bool, slots: nat, registers: nat)
    requires RootOk(root)
    ensures var s := Start(root, clearsTags, slots, registers);
      Inv(s) && Abs(s) == AState(map[], seq(registers, _ => VInt(0)))
  {
  }

  // ------------------------------------------------------------------ what runs never show

  /** `c` reaches no byte of the copy at `k`. */
  ghost predicate Avoids(s: State, c: Cap, k: nat)
    requires k in s.blocks
  {
    c.base + c.len <= k || k + s.blocks[k].len <= c.base
  }

  lemma CurrentAvoidsStale(s: State, c: Cap, k: nat)
    requires Core(s) && CapOk(ShapeOf(s), c) && Live(c) && c.base !in s.table && k in s.table
    ensures k in s.blocks && Avoids(s, c, k)
  {
    assert MapsUp(s.blocks, s.table, k);
    assert Apart(s.blocks, c.base, k);
  }

  /**
    Split-revocation safety: in every reachable state in which mutators run, nothing loadable in a
    register, and nothing that a load can put there, reaches a moved-away copy, whatever the
    kernel answered to the opens, closes and fallback sweeps on the way.
   */
  lemma RunIsSafe(s: State, clears: Clears, acts: seq<Action>, c: Cap, k: nat)
    requires Inv(s) && !s.halted
    requires var r := Run(s, clears, acts).0;
      && !r.halted && k in r.table && Live(c)
      && (c in r.regs || exists x | x in r.mem :: c == Swept(r.clearsTags, r.mem[x], r.armed))
    ensures var r := Run(s, clears, acts).0; k in r.blocks && Avoids(r, c, k)
  {
    RunRefines(s, clears, acts);
    var r := Run(s, clears, acts).0;
    if x :| x in r.mem && c == Swept(r.clearsTags, r.mem[x], r.armed) {
      SweptIsOk(ShapeOf(r), r.mem[x], r.armed);
    }
    CurrentAvoidsStale(r, c, k);
  }

  lemma {:induction false} BackgroundRun(s: State, clears: Clears, acts: seq<Action>)
    requires Inv(s) && !s.halted
    requires forall i | 0 <= i < |acts| :: Background(acts[i])
    ensures Invisible(s, Run(s, clears, acts).0)
    decreases |acts|
  {
    if acts != [] {
      var q := Apply(s, clears, acts[0]).0;
      BackgroundIsInvisible(s, clears, acts[0]);
      if q.halted {
        HaltedRun(q, clears, acts[1..], Abs(s));
      } else {
        BackgroundRun(q, clears, acts[1..]);
      }
    }
  }

  /** The non-moving heap holds `w` at the place `v` denotes. */
  ghost predicate Holds(a: AState, v: Val, w: Val) {
    InBounds(a, v) && a.objs[v.obj][v.off] == w
  }

  lemma StoreHolds(s: State, rs: nat, rv: nat)
    requires Inv(s) && rs < |s.regs| && rv < |s.regs| && Usable(s, s.regs[rs])
    ensures var p := s.(mem := s.mem[s.regs[rs].addr := s.regs[rv]]);
      Holds(Abs(p), Den(s.blocks, s.regs[rs]), Den(s.blocks, s.regs[rv]))
  {
    var p := s.(mem := s.mem[s.regs[rs].addr := s.regs[rv]]);
    StoreStep(s, rs, rv);
    assert Abs(s).regs[rs] == Den(s.blocks, s.regs[rs]) && Abs(s).regs[rv] == Den(s.blocks, s.regs[rv]);
    assert Abs(p) == AApply(Abs(s), DidStore(rs, rv));
  }

  lemma LoadReads(q: State, c: Cap, w: Val)
    requires Inv(q) && Increasing(q.table) && c in q.regs && Usable(q, c)
    requires Holds(Abs(q), Den(q.blocks, c), w)
    ensures Den(q.blocks, Loaded(q, c)) == w
  {
    Pointee(q, c);
    SweptIsOk(ShapeOf(q), q.mem[c.addr], q.armed);
    assert WordAt(q.blocks, q.mem, c.base + (c.addr - c.base)) == w;
  }

  /**
    A read returns the last value written. Store through one reference, let the collector pause,
    move, open, sweep, close and heal at will, then load through any reference to the same object
    and offset: the value loaded denotes the value stored, or the program stopped.
   */
  lemma ReadsLastWrite(s: State, clears: Clears, rs: nat, rv: nat, acts: seq<Action>, rt: nat)
    requires Inv(s) && !s.halted && Enabled(s, StoreCell(rs, rv))
    requires forall i | 0 <= i < |acts| :: Background(acts[i])
    requires var q := Run(Apply(s, clears, StoreCell(rs, rv)).0, clears, acts).0;
      && !q.halted && rt < |q.regs| && Usable(q, q.regs[rt])
      && Den(q.blocks, q.regs[rt]) == Den(s.blocks, s.regs[rs])
    ensures var q := Run(Apply(s, clears, StoreCell(rs, rv)).0, clears, acts).0;
      Den(q.blocks, Loaded(q, q.regs[rt])) == Den(s.blocks, s.regs[rv])
  {
    var p := Apply(s, clears, StoreCell(rs, rv)).0;
    StoreKeepsInv(s, clears, rs, rv);
    StoreHolds(s, rs, rv);
    BackgroundRun(p, clears, acts);
    var q := Run(p, clears, acts).0;
    LoadReads(q, q.regs[rt], Den(s.blocks, s.regs[rv]));
  }

  lemma StoreKeepsInv(s: State, clears: Clears, rs: nat, rv: nat)
    requires Inv(s) && !s.halted && Enabled(s, StoreCell(rs, rv))
    ensures var p := Apply(s, clears, StoreCell(rs, rv)).0; Inv(p) && Increasing(p.table) && !p.halted
    ensures Apply(s, clears, StoreCell(rs, rv)).0 == s.(mem := s.mem[s.regs[rs].addr := s.regs[rv]])
  {
    StoreStep(s, rs, rv);
  }
}
