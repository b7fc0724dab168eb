/**
  The collector as one state machine: mutator registers, memory cells, the bump arena, the
  forwarding table, and the kernel's revocation state. Objects move, old references are
  revoked, and the fault handler redirects them. `Abs` is the non-moving heap a mutator
  believes in; module MovingHeapRefinement proves that it cannot tell the difference.
 */
module MovingHeap {
  import opened Prelude
  import opened Representable
  import opened Cheri
  import opened Allocator
  import opened Chase
  import opened ForwardTable
  import opened Handler
  import opened Revoke

  /** One allocated copy. `obj` names the logical object: the address of its first copy. */
  datatype Block = Block(obj: nat, len: nat)

  type Blocks = map<nat, Block>

  /**
    `mem` has one cell per arena address, holding a capability or an integer. `slots` is the
    forwarding table's capacity. `marks` are the object starts marked in the shadow bitmap, and
    `armed` those published by the open epoch; `pending` is the collector's own flag.
   */
  datatype State = State(
    root: Cap,
    clearsTags: bool,
    bump: nat,
    blocks: Blocks,
    mem: map<nat, Cap>,
    table: Fwd,
    slots: nat,
    regs: seq<Cap>,
    marks: set<nat>,
    armed: set<nat>,
    pending: bool,
    halted: bool)

  /** What the root walk finds in a register: no object reference, one the klass filter keeps in place, or one it lets move. */
  datatype Root = NotRoot | KeepRoot | MoveRoot

  datatype Action =
    | Alloc(rd: nat, size: nat)
    | SetInt(rd: nat, n: nat)
    | Copy(rd: nat, rs: nat)
    | Offset(rd: nat, rs: nat, off: nat)
    | LoadCell(rd: nat, rs: nat)
    | StoreCell(rs: nat, rv: nat)
    | Compare(r1: nat, r2: nat)
    | HealFault(lo: nat, fault: Fault)
    | Pause(callocOk: bool, roots: seq<Root>, limit: nat, fixup: bool, e0: nat, script: seq<Reply>)
    | Close(target: nat, script: seq<Reply>)
    | LazySweep(x: nat)

  /** What the mutator observes of a step. */
  datatype Event =
    | Silent
    | DidAlloc(rd: nat, obj: nat, len: nat)
    | DidNotAlloc(rd: nat)
    | DidSetInt(rd: nat, n: nat)
    | DidCopy(rd: nat, rs: nat)
    | DidOffset(rd: nat, rs: nat, off: nat)
    | DidLoad(rd: nat, rs: nat)
    | DidStore(rs: nat, rv: nat)
    | DidCompare(r1: nat, r2: nat, equal: bool, resolved: bool)

  // ------------------------------------------------------------------ the non-moving heap

  /** An integer, or a reference to a logical object at an offset. */
  datatype Val = VInt(n: nat) | VRef(obj: nat, off: int)

  datatype AState = AState(objs: map<nat, seq<Val>>, regs: seq<Val>)

  /** The step the event stands for is possible, and what it showed is right. */
  ghost predicate AEnabled(a: AState, ev: Event) {
    match ev
    case Silent => true
    case DidAlloc(rd, obj, len) => rd < |a.regs| && obj !in a.objs
    case DidNotAlloc(rd) => rd < |a.regs|
    case DidSetInt(rd, n) => rd < |a.regs|
    case DidCopy(rd, rs) => rd < |a.regs| && rs < |a.regs|
    case DidOffset(rd, rs, off) =>
      rd < |a.regs| && rs < |a.regs| && a.regs[rs].VRef? && a.regs[rs].obj in a.objs && off < |a.objs[a.regs[rs].obj]|
    case DidLoad(rd, rs) => rd < |a.regs| && rs < |a.regs| && InBounds(a, a.regs[rs])
    case DidStore(rs, rv) => rs < |a.regs| && rv < |a.regs| && InBounds(a, a.regs[rs])
    case DidCompare(r1, r2, equal, resolved) =>
      && r1 < |a.regs| && r2 < |a.regs|
      && (equal ==> a.regs[r1] == a.regs[r2])
      && (resolved ==> (equal <==> a.regs[r1] == a.regs[r2]))
  }

  ghost predicate InBounds(a: AState, v: Val) {
    v.VRef? && v.obj in a.objs && 0 <= v.off < |a.objs[v.obj]|
  }

  ghost function AApply(a: AState, ev: Event): AState
    requires AEnabled(a, ev)
  {
    match ev
    case DidAlloc(rd, obj, len) =>
      AState(a.objs[obj := seq(len, i => VInt(0))], a.regs[rd := VRef(obj, 0)])
    case DidNotAlloc(rd) => a.(regs := a.regs[rd := VInt(0)])
    case DidSetInt(rd, n) => a.(regs := a.regs[rd := VInt(n)])
    case DidCopy(rd, rs) => a.(regs := a.regs[rd := a.regs[rs]])
    case DidOffset(rd, rs, off) => a.(regs := a.regs[rd := VRef(a.regs[rs].obj, off)])
    case DidLoad(rd, rs) => a.(regs := a.regs[rd := a.objs[a.regs[rs].obj][a.regs[rs].off]])
    case DidStore(rs, rv) =>
      a.(objs := a.objs[a.regs[rs].obj := a.objs[a.regs[rs].obj][a.regs[rs].off := a.regs[rv]]])
    case _ => a
  }

  // ------------------------------------------------------------------ abstraction

  /** What a capability or integer denotes, live or revoked, whichever copy it points at. */
  function Den(blocks: Blocks, c: Cap): Val {
    if c.base in blocks then VRef(blocks[c.base].obj, c.addr - c.base) else VInt(c.addr)
  }

  function CellOf(mem: map<nat, Cap>, x: int): Cap {
    if 0 <= x && x in mem then mem[x] else NULL
  }

  function WordAt(blocks: Blocks, mem: map<nat, Cap>, x: int): Val {
    Den(blocks, CellOf(mem, x))
  }

  /** The cells of one copy. */
  function Words(blocks: Blocks, mem: map<nat, Cap>, a: nat, len: nat): (w: seq<Val>)
    ensures |w| == len
    ensures forall i | 0 <= i < len :: w[i] == WordAt(blocks, mem, a + i)
  {
    seq(len, i requires 0 <= i < len => WordAt(blocks, mem, a + i))
  }

  function RegVals(blocks: Blocks, regs: seq<Cap>): (w: seq<Val>)
    ensures |w| == |regs|
  {
    seq(|regs|, i requires 0 <= i < |regs| => Den(blocks, regs[i]))
  }

  /** Logical objects, named by their first copies. */
  ghost predicate Born(blocks: Blocks, o: nat) {
    o in blocks && blocks[o].obj == o
  }

  /** Each object's value is what its current copy, the end of its chain, holds. */
  ghost function AbsObjs(blocks: Blocks, mem: map<nat, Cap>, table: Fwd): map<nat, seq<Val>>
    requires Increasing(table)
  {
    map o | o in blocks && Born(blocks, o) :: Words(blocks, mem, Terminus(table, o), blocks[o].len)
  }

  ghost function Abs(s: State): AState
    requires Increasing(s.table)
  {
    AState(AbsObjs(s.blocks, s.mem, s.table), RegVals(s.blocks, s.regs))
  }

  // ------------------------------------------------------------------ kernel steps

  /** Revoke one capability, in the representation the kernel was built with. */
  function Kill(clearsTags: bool, c: Cap): Cap {
    if clearsTags then c.(tag := false) else c.(perms := {})
  }

  function Swept(clearsTags: bool, c: Cap, dead: set<nat>): Cap {
    if Live(c) && c.base in dead then Kill(clearsTags, c) else c
  }

  function SweepRegs(s: State, dead: set<nat>): State {
    s.(regs := seq(|s.regs|, i requires 0 <= i < |s.regs| => Swept(s.clearsTags, s.regs[i], dead)))
  }

  function SweptMem(clearsTags: bool, mem: map<nat, Cap>, dead: set<nat>): map<nat, Cap> {
    map x | x in mem :: Swept(clearsTags, mem[x], dead)
  }

  function SweepMem(s: State, dead: set<nat>): State {
    s.(mem := SweptMem(s.clearsTags, s.mem, dead))
  }

  // ------------------------------------------------------------------ collector steps

  function ResolverOf(s: State): Resolver {
    Resolver(Some(s.root), s.table, None)
  }

  /** `forward_table_maybe_grow`, seen from outside: only the capacity changes, if memory allows. */
  function Grown(s: State, callocOk: bool): State {
    if |s.table| * 10 < s.slots * 7 || !callocOk then s else s.(slots := 2 * s.slots)
  }

  /** `m` is `mem` with the cells from `a` copied to `b`. */
  ghost predicate CopiedTo(mem: map<nat, Cap>, m: map<nat, Cap>, a: nat, b: nat, len: nat) {
    forall x: int {:trigger CellOf(m, x)} :: CellOf(m, x) == if b <= x < b + len then CellOf(mem, a + x - b) else CellOf(mem, x)
  }

  /** The word-by-word, capability-preserving copy of `len` cells. */
  function CopyCells(mem: map<nat, Cap>, a: nat, b: nat, len: nat): (r: map<nat, Cap>)
    ensures forall x :: x in r <==> x in mem || b <= x < b + len
    ensures CopiedTo(mem, r, a, b, len)
  {
    if len == 0 then mem
    else
      var r := CopyCells(mem, a, b, len - 1);
      CopyOneMore(mem, r, a, b, len - 1);
      r[b + len - 1 := CellOf(mem, a + len - 1)]
  }

  lemma CopyOneMore(mem: map<nat, Cap>, r: map<nat, Cap>, a: nat, b: nat, n: nat)
    requires CopiedTo(mem, r, a, b, n)
    ensures CopiedTo(mem, r[b + n := CellOf(mem, a + n)], a, b, n + 1)
  {
    var m := r[b + n := CellOf(mem, a + n)];
    forall x: int
      ensures CellOf(m, x) == if b <= x < b + n + 1 then CellOf(mem, a + x - b) else CellOf(mem, x)
    {
      assert CellOf(m, x) == if x == b + n then CellOf(mem, a + n) else CellOf(r, x);
    }
  }

  /** Fresh arena pages read as zero. */
  function ClearCells(mem: map<nat, Cap>, b: nat, len: nat): (r: map<nat, Cap>)
    ensures forall x :: x in r <==> x in mem || b <= x < b + len
    ensures forall x | x in r :: r[x] == if b <= x < b + len then NULL else mem[x]
  {
    if len == 0 then mem else ClearCells(mem, b, len - 1)[b + (len - 1) := NULL]
  }

  /** The state after the object at `a` was copied to `b`, its forwarding recorded, the old copy marked. */
  function Moved(s: State, a: nat, b: nat, next: nat): State
    requires a in s.blocks
  {
    s.(bump := next,
       blocks := s.blocks[b := s.blocks[a]],
       mem := CopyCells(s.mem, a, b, s.blocks[a].len),
       table := s.table[a := Entry(b, s.blocks[a].len)],
       marks := s.marks + {a})
  }

  /**
    The same move when `cas_insert` answers NULL: the copy is made and the old one marked, but no
    forwarding is recorded and nothing refers to the new copy.
   */
  function LostCopy(s: State, a: nat, b: nat, next: nat): State
    requires a in s.blocks
  {
    s.(bump := next, mem := CopyCells(s.mem, a, b, s.blocks[a].len), marks := s.marks + {a})
  }

  /** A root scan in progress: the heap, and how many objects were moved. */
  datatype Scan = Scan(heap: State, moved: nat)

  /** Root slot `i` holds the start of a copy. */
  predicate HoldsObject(s: State, i: nat, kind: Root) {
    !kind.NotRoot? && i < |s.regs| && s.regs[i].base in s.blocks && s.regs[i].addr == s.regs[i].base
  }

  /** Where the copy of the object in root slot `i` would go. */
  function RootPlacement(s: State, i: nat): Placement
    requires i < |s.regs| && s.regs[i].base in s.blocks
  {
    Place(s.bump, ReprLen(s.blocks[s.regs[i].base].len), s.root.len)
  }

  /** Visiting root slot `i` moves its object. */
  predicate Moves(sc: Scan, i: nat, kind: Root, limit: nat) {
    && !sc.heap.halted && HoldsObject(sc.heap, i, kind)
    && IsNull(Resolve(ResolverOf(sc.heap), sc.heap.regs[i].addr))
    && sc.moved < limit && Live(sc.heap.regs[i]) && kind.MoveRoot?
    && RootPlacement(sc.heap, i).Fit?
  }

  function StoreRoot(s: State, i: nat, fixup: bool, c: Cap): State
    requires i < |s.regs|
  {
    if fixup then s.(regs := s.regs[i := c]) else s
  }

  /** The moving half of `do_oop`: copy, `cas_insert`, remember the old copy, store the answer. */
  function MoveTheRoot(s: State, i: nat, fixup: bool): State
    requires i < |s.regs| && s.regs[i].base in s.blocks && RootPlacement(s, i).Fit?
  {
    var a, p := s.regs[i].base, RootPlacement(s, i);
    var b := s.root.base + p.off;
    if a !in s.table && |s.table| < s.slots
    then StoreRoot(Moved(s, a, b, p.next), i, fixup, FtDerive(Some(s.root), b, s.blocks[a].len))
    else StoreRoot(LostCopy(s, a, b, p.next), i, fixup, NULL)
  }

  /**
    The other half: a forwarded root is fixed. Reading the klass through a revoked root that does
    not resolve is an unforwarded fault.
   */
  function SettleRoot(s: State, i: nat, kind: Root, below: bool, fixup: bool): State {
    if s.halted || !HoldsObject(s, i, kind) then s
    else if !IsNull(Resolve(ResolverOf(s), s.regs[i].addr)) then
      StoreRoot(s, i, fixup, Resolve(ResolverOf(s), s.regs[i].addr))
    else if below && !Live(s.regs[i]) then s.(halted := true)
    else s
  }

  /** `do_oop`. */
  function VisitRoot(sc: Scan, i: nat, kind: Root, limit: nat, fixup: bool): Scan {
    if Moves(sc, i, kind, limit) then Scan(MoveTheRoot(sc.heap, i, fixup), sc.moved + 1)
    else Scan(SettleRoot(sc.heap, i, kind, sc.moved < limit, fixup), sc.moved)
  }

  /** `scan_roots` after its first `n` root slots; registers are numbered in the order of the walk. */
  function ScanRoots(s: State, roots: seq<Root>, limit: nat, fixup: bool, n: nat): Scan
    requires n <= |roots|
  {
    if n == 0 then Scan(s, 0)
    else VisitRoot(ScanRoots(s, roots, limit, fixup, n - 1), n - 1, roots[n - 1], limit, fixup)
  }

  /** How many objects the scan would move if the table never filled up. */
  function Demand(s: State, roots: seq<Root>, limit: nat, fixup: bool): nat {
    ScanRoots(s.(slots := |s.table| + |roots|), roots, limit, fixup, |roots|).moved
  }

  /** Free slots of the forwarding table. */
  function Free(s: State): nat {
    if |s.table| <= s.slots then s.slots - |s.table| else 0
  }

  /** While a close is pending nothing may move. */
  function LimitNow(s: State, limit: nat): nat {
    if s.pending then 0 else limit
  }

  /** The table, after growing if it could, has a slot for every move of this pause. */
  predicate PauseFits(s: State, callocOk: bool, roots: seq<Root>, limit: nat, fixup: bool) {
    Demand(Grown(s, callocOk), roots, LimitNow(s, limit), fixup) <= Free(Grown(s, callocOk))
  }

  /**
    Publish the marks before mutators resume: open an epoch; if that fails sweep synchronously;
    if that fails too, stop the program.
   */
  function Publish(s: State, clears: Clears, e0: nat, script: seq<Reply>): State {
    if OpenCode(e0, At(script, 0)) == 0 then SweepRegs(s, s.marks).(armed := s.marks, pending := true)
    else if SweepsWithin(script, 1, clears) then SweepMem(SweepRegs(s, s.marks), s.marks)
    else s.(halted := true)
  }

  /** One collection pause. */
  function DoPause(s: State, clears: Clears, callocOk: bool, roots: seq<Root>, limit: nat, fixup: bool, e0: nat,
                   script: seq<Reply>): State
  {
    var sc := ScanRoots(Grown(s, callocOk), roots, LimitNow(s, limit), fixup, |roots|);
    if sc.heap.halted || sc.moved == 0 then sc.heap else Publish(sc.heap, clears, e0, script)
  }

  /** The closing scan, off the pause; when it does not finish, the epoch stays pending. */
  function DoClose(s: State, clears: Clears, target: nat, script: seq<Reply>): State {
    if s.pending && ClosesWithin(script, 0, clears, target)
    then SweepMem(SweepRegs(s, s.armed), s.armed).(armed := {}, pending := false)
    else s
  }

  // ------------------------------------------------------------------ mutator steps

  /** The hardware lets this capability be dereferenced. */
  predicate Usable(s: State, c: Cap) {
    Live(c) && Perm.Load in c.perms && c.base <= c.addr < c.base + c.len && c.addr in s.mem
  }

  /** The load-side barrier: a stale capability into an armed range arrives revoked. */
  function Loaded(s: State, c: Cap): Cap
    requires c.addr in s.mem
  {
    Swept(s.clearsTags, s.mem[c.addr], s.armed)
  }

  /** A reference or NULL; the barrier is not used on other integers. */
  predicate IsReference(s: State, c: Cap) {
    c.base in s.blocks || IsNull(c)
  }

  /** The lookup the slow path needs for this operand, if any, does not run into the hop limit. */
  predicate Resolvable(s: State, c: Cap) {
    Live(c) || IsNull(c) || c.base !in s.table || Lookup(s.table, c.base).Some?
  }

  /** A register the handler would rewrite: not loadable, and the address it goes by is forwarded. */
  predicate Hits(s: State, c: Cap) {
    !Live(c) && Lookup(s.table, if c.base in s.blocks then c.base else c.addr).Some?
  }

  function FirstHit(s: State, lo: nat, j: nat): (i: nat)
    requires lo + REGS <= |s.regs| && j <= REGS
    ensures j <= i <= REGS
    decreases REGS - j
  {
    if j == REGS || Hits(s, s.regs[lo + j]) then j else FirstHit(s, lo, j + 1)
  }

  /** The register of the frame a heal rewrites, read off the frame: the base register first, then the first hit; `REGS` for none. */
  function Picked(s: State, lo: nat, fault: Fault): (i: nat)
    requires lo + REGS <= |s.regs|
    ensures i <= REGS
  {
    if fault.rn < REGS && Hits(s, s.regs[lo + fault.rn]) then fault.rn else FirstHit(s, lo, 0)
  }

  /** The handler takes the fault for a revoked capability. */
  predicate Handled(fault: Fault) {
    fault.code == PROT_CHERI_TAG || fault.code == PROT_CHERI_PERM
  }

  /** The register the handler would rewrite, if any, holds a reference and no integer. */
  predicate SparesIntegers(s: State, lo: nat, fault: Fault)
    requires lo + REGS <= |s.regs|
  {
    Handled(fault) && Picked(s, lo, fault) < REGS ==> s.regs[lo + Picked(s, lo, fault)].base in s.blocks
  }

  /** Resume after the handler's decision; an unhealed fault is fatal. */
  function Resume(s: State, lo: nat, o: Outcome): State {
    match o
    case Unhealed => s.(halted := true)
    case SiAddrOnly => s
    case Patched(reg, cap) => if lo + reg < |s.regs| then s.(regs := s.regs[lo + reg := cap]) else s
  }

  function DoHeal(s: State, lo: nat, fault: Fault): State
    requires lo + REGS <= |s.regs|
  {
    Resume(s, lo, Decide(ResolverOf(s), s.regs[lo..lo + REGS], fault))
  }

  function DoAlloc(s: State, rd: nat, size: nat): (State, Event)
    requires rd < |s.regs|
  {
    match Place(s.bump, RepresentableLength(size), s.root.len)
    case NoFit => (s.(regs := s.regs[rd := NULL]), DidNotAlloc(rd))
    case Fit(off, next) =>
      var c := AllocCap(s.root, off, size);
      (s.(bump := next,
          blocks := s.blocks[c.base := Block(c.base, c.len)],
          mem := ClearCells(s.mem, c.base, c.len),
          regs := s.regs[rd := c]),
       DidAlloc(rd, c.base, c.len))
  }

  predicate Enabled(s: State, act: Action) {
    && !s.halted
    && match act
       case Alloc(rd, size) => rd < |s.regs| && Sound(size, s.root.len)
       case SetInt(rd, n) => rd < |s.regs|
       case Copy(rd, rs) => rd < |s.regs| && rs < |s.regs|
       case Offset(rd, rs, off) => rd < |s.regs| && rs < |s.regs| && s.regs[rs].base in s.blocks && off < s.regs[rs].len
       case LoadCell(rd, rs) => rd < |s.regs| && rs < |s.regs| && Usable(s, s.regs[rs])
       case StoreCell(rs, rv) => rs < |s.regs| && rv < |s.regs| && Usable(s, s.regs[rs])
       case Compare(r1, r2) =>
         && r1 < |s.regs| && r2 < |s.regs| && s.clearsTags
         && IsReference(s, s.regs[r1]) && IsReference(s, s.regs[r2])
       case HealFault(lo, fault) => lo + REGS <= |s.regs| && SparesIntegers(s, lo, fault)
       case Pause(callocOk, roots, limit, fixup, _, _) => PauseFits(s, callocOk, roots, limit, fixup)
       case Close(_, _) => true
       case LazySweep(x) => x in s.mem
  }

  /** One step; a step that is not enabled does nothing. */
  function Apply(s: State, clears: Clears, act: Action): (State, Event) {
    if !Enabled(s, act) then (s, Silent)
    else
      match act
      case Alloc(rd, size) => DoAlloc(s, rd, size)
      case SetInt(rd, n) => (s.(regs := s.regs[rd := IntCap(n)]), DidSetInt(rd, n))
      case Copy(rd, rs) => (s.(regs := s.regs[rd := s.regs[rs]]), DidCopy(rd, rs))
      case Offset(rd, rs, off) =>
        (s.(regs := s.regs[rd := AddressSet(s.regs[rs], s.regs[rs].base + off)]), DidOffset(rd, rs, off))
      case LoadCell(rd, rs) => (s.(regs := s.regs[rd := Loaded(s, s.regs[rs])]), DidLoad(rd, rs))
      case StoreCell(rs, rv) => (s.(mem := s.mem[s.regs[rs].addr := s.regs[rv]]), DidStore(rs, rv))
      case Compare(r1, r2) =>
        (s, DidCompare(r1, r2, AcmpBarrier(ResolverOf(s), s.regs[r1], s.regs[r2]),
                       Resolvable(s, s.regs[r1]) && Resolvable(s, s.regs[r2])))
      case HealFault(lo, fault) => (DoHeal(s, lo, fault), Silent)
      case Pause(callocOk, roots, limit, fixup, e0, script) =>
        (DoPause(s, clears, callocOk, roots, limit, fixup, e0, script), Silent)
      case Close(target, script) => (DoClose(s, clears, target, script), Silent)
      case LazySweep(x) => (s.(mem := s.mem[x := Swept(s.clearsTags, s.mem[x], s.armed)]), Silent)
  }

  // ------------------------------------------------------------------ the invariant

  /** A copy lies below the cursor, and its bounds are exactly what the table would rebuild. */
  ghost predicate CopyPlaced(root: Cap, bump: nat, a: nat, len: nat) {
    Placed(root, a, len) && a + len <= root.base + bump && Sound(len, root.len) && ReprLen(len) == len
  }

  /** A copy belongs to an object, which has one length and is named by its first copy. */
  ghost predicate CopyOwned(blocks: Blocks, a: nat) {
    a in blocks && a > 0 && Born(blocks, blocks[a].obj) && blocks[blocks[a].obj].len == blocks[a].len
  }

  ghost predicate Apart(blocks: Blocks, a: nat, b: nat) {
    a in blocks && b in blocks && (a + blocks[a].len <= b || b + blocks[b].len <= a)
  }

  ghost predicate EndsBelow(blocks: Blocks, a: nat, b: nat) {
    a in blocks && a + blocks[a].len <= b
  }

  /** Every copy ends at or below `b`. */
  ghost predicate AllBelow(blocks: Blocks, b: nat) {
    forall a {:trigger EndsBelow(blocks, a, b)} | a in blocks :: EndsBelow(blocks, a, b)
  }

  ghost predicate AllPlaced(root: Cap, bump: nat, blocks: Blocks) {
    forall a {:trigger CopyPlaced(root, bump, a, blocks[a].len)} | a in blocks :: CopyPlaced(root, bump, a, blocks[a].len)
  }

  ghost predicate Layout(blocks: Blocks) {
    && (forall a | a in blocks :: CopyOwned(blocks, a))
    && (forall a, b {:trigger Apart(blocks, a, b)} | a in blocks && b in blocks && a != b :: Apart(blocks, a, b))
  }

  /** The mapping of `k` leads up the arena to another copy of the same object. */
  ghost predicate MapsUp(blocks: Blocks, table: Fwd, k: nat)
    requires k in table
  {
    && k in blocks && table[k].addr in blocks && k < table[k].addr
    && blocks[table[k].addr].obj == blocks[k].obj
    && blocks[table[k].addr].len == table[k].len
  }

  /** Two copies of one object, neither moved away from, are the same copy. */
  ghost predicate OneCurrent(blocks: Blocks, table: Fwd, a: nat, b: nat)
    requires a in blocks && b in blocks
  {
    a !in table && b !in table && blocks[a].obj == blocks[b].obj ==> a == b
  }

  ghost predicate Chains(blocks: Blocks, table: Fwd) {
    && (forall k | k in table :: MapsUp(blocks, table, k))
    && (forall a, b {:trigger OneCurrent(blocks, table, a, b)} | a in blocks && b in blocks :: OneCurrent(blocks, table, a, b))
  }

  /** How capabilities look in this arena, with this kernel. */
  datatype Shape = Shape(root: Cap, clearsTags: bool, blocks: Blocks)

  function ShapeOf(s: State): Shape {
    Shape(s.root, s.clearsTags, s.blocks)
  }

  function LiveAt(h: Shape, base: nat, addr: nat): Cap
    requires base in h.blocks
  {
    ObjCap(h.root, base, h.blocks[base].len).(addr := addr)
  }

  /** A plain integer, or a capability for a copy, live or revoked, pointing into it. */
  ghost predicate CapOk(h: Shape, c: Cap) {
    || c == IntCap(c.addr)
    || (&& c.base in h.blocks
        && c.base <= c.addr < c.base + h.blocks[c.base].len
        && (c == LiveAt(h, c.base, c.addr) || c == Kill(h.clearsTags, LiveAt(h, c.base, c.addr))))
  }

  ghost predicate MemOk(h: Shape, mem: map<nat, Cap>) {
    && (forall x | x in mem :: CapOk(h, mem[x]))
    && (forall a, x | a in h.blocks && a <= x < a + h.blocks[a].len :: x in mem)
  }

  ghost predicate RegsOk(h: Shape, regs: seq<Cap>) {
    forall i | 0 <= i < |regs| :: CapOk(h, regs[i])
  }

  /** What also holds in the middle of a pause. */
  ghost predicate Core(s: State) {
    && RootOk(s.root) && s.bump <= s.root.len
    && AllPlaced(s.root, s.bump, s.blocks)
    && Layout(s.blocks)
    && Chains(s.blocks, s.table)
    && MemOk(ShapeOf(s), s.mem) && RegsOk(ShapeOf(s), s.regs)
    && s.marks == s.table.Keys
    && s.armed <= s.marks
  }

  ghost predicate RegsSafe(table: Fwd, regs: seq<Cap>) {
    forall i | 0 <= i < |regs| && Live(regs[i]) :: regs[i].base !in table
  }

  ghost predicate MemSafe(table: Fwd, mem: map<nat, Cap>, armed: set<nat>) {
    forall x | x in mem && Live(mem[x]) && mem[x].base in table :: mem[x].base in armed
  }

  /** No loadable capability points into a copy that has been moved away from. */
  ghost predicate Safe(s: State) {
    RegsSafe(s.table, s.regs) && MemSafe(s.table, s.mem, s.armed) && (!s.pending ==> s.armed == {})
  }

  ghost predicate Inv(s: State) {
    Core(s) && Safe(s)
  }
}
