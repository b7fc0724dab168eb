/**
  `stopless_alloc` by any number of threads: an interleaving of the relaxed load and the weak
  compare-and-swap, which may also fail for no reason. Requests that would wrap 64 bits are
  outside this system (see `Allocator.PlaceAdvancesIff`).
 */
module ConcurrentAlloc {
  import opened Prelude
  import opened Representable
  import opened Cheri
  import opened Allocator

  /** `Got(n)` holds the `n`-th reservation ever made. */
  datatype Pc = Idle | Try(cur: nat, size: nat) | Got(n: nat) | Oom(size: nat)

  /** A reservation made for a request of `size` bytes. */
  datatype Res = Res(off: nat, size: nat)

  /** `issued` and `padding` are history: all reservations in CAS order, and the bytes skipped to align them. */
  datatype State = State(bump: nat, threads: seq<Pc>, issued: seq<Res>, padding: nat)

  datatype Action = Begin(t: nat, size: nat) | Attempt(t: nat, spurious: bool)

  function Extent(r: Res): nat {
    ReprLen(r.size)
  }

  /** The load of the cursor. */
  function DoBegin(s: State, t: nat, size: nat): State
    requires t < |s.threads|
  {
    s.(threads := s.threads[t := Try(s.bump, size)])
  }

  /** One turn of the retry loop, up to and including its CAS. */
  function DoAttempt(s: State, arenaSize: nat, t: nat, spurious: bool): State
    requires t < |s.threads| && s.threads[t].Try?
  {
    var Try(cur, size) := s.threads[t];
    match Place(cur, RepresentableLength(size), arenaSize)
    case NoFit => s.(threads := s.threads[t := Oom(size)])
    case Fit(off, next) =>
      if s.bump == cur && !spurious then
        State(next, s.threads[t := Got(|s.issued|)], s.issued + [Res(off, size)], s.padding + Gap(cur, off))
      else s.(threads := s.threads[t := Try(s.bump, size)])
  }

  function Gap(cur: nat, off: nat): nat {
    if cur <= off then off - cur else 0
  }

  function Apply(s: State, arenaSize: nat, act: Action): State {
    match act
    case Begin(t, size) =>
      if t < |s.threads| && !s.threads[t].Try? && Sound(size, arenaSize) then DoBegin(s, t, size) else s
    case Attempt(t, spurious) =>
      if t < |s.threads| && s.threads[t].Try? then DoAttempt(s, arenaSize, t, spurious) else s
  }

  function Run(s: State, arenaSize: nat, acts: seq<Action>): State {
    if acts == [] then s else Apply(Run(s, arenaSize, acts[..|acts| - 1]), arenaSize, acts[|acts| - 1])
  }

  /** The end of the arena used by the first reservations, and their total size. */
  function Reserved(issued: seq<Res>): nat {
    if issued == [] then 0 else Reserved(issued[..|issued| - 1]) + Extent(issued[|issued| - 1])
  }

  ghost predicate Ordered(issued: seq<Res>, bump: nat) {
    && (forall i | 0 <= i < |issued| :: 0 < issued[i].size && issued[i].off + Extent(issued[i]) <= bump)
    && (forall i | 0 <= i < |issued| :: Divides(Align(Extent(issued[i])), issued[i].off))
    && (forall i, j | 0 <= i < j < |issued| :: issued[i].off + Extent(issued[i]) <= issued[j].off)
  }

  ghost predicate PcOk(pc: Pc, bump: nat, count: nat, arenaSize: nat) {
    match pc
    case Idle => true
    case Try(cur, size) => cur <= bump && Sound(size, arenaSize)
    case Got(n) => n < count
    case Oom(size) => Sound(size, arenaSize) && Place(bump, ReprLen(size), arenaSize).NoFit?
  }

  ghost predicate AllOk(threads: seq<Pc>, bump: nat, count: nat, arenaSize: nat) {
    forall t | 0 <= t < |threads| :: PcOk(threads[t], bump, count, arenaSize)
  }

  ghost predicate HoldDistinct(threads: seq<Pc>) {
    forall t, u | 0 <= t < u < |threads| && threads[t].Got? :: threads[u] != threads[t]
  }

  ghost predicate Inv(s: State, arenaSize: nat) {
    && s.bump <= arenaSize
    && Ordered(s.issued, s.bump)
    && s.bump == Reserved(s.issued) + s.padding
    && AllOk(s.threads, s.bump, |s.issued|, arenaSize)
    && HoldDistinct(s.threads)
  }

  ghost predicate Initial(s: State) {
    s.bump == 0 && s.issued == [] && s.padding == 0 && forall t | 0 <= t < |s.threads| :: s.threads[t] == Idle
  }

  lemma PcStays(pc: Pc, bump: nat, later: nat, count: nat, more: nat, arenaSize: nat)
    requires PcOk(pc, bump, count, arenaSize) && bump <= later <= arenaSize && count <= more
    ensures PcOk(pc, later, more, arenaSize)
  {
    if pc.Oom? {
      NoFitIsForever(bump, later, pc.size, arenaSize);
    }
  }

  /** A reservation at or above the cursor keeps the history ordered. */
  lemma OrderedAppend(issued: seq<Res>, bump: nat, x: Res)
    requires Ordered(issued, bump) && bump <= x.off && 0 < x.size && Divides(Align(Extent(x)), x.off)
    ensures Ordered(issued + [x], x.off + Extent(x))
    ensures Reserved(issued + [x]) == Reserved(issued) + Extent(x)
  {
    assert (issued + [x])[..|issued|] == issued;
  }

  lemma ThreadsAfter(s: State, arenaSize: nat, t: nat, pc: Pc, bump: nat, count: nat)
    requires Inv(s, arenaSize) && t < |s.threads| && s.bump <= bump <= arenaSize && |s.issued| <= count
    requires PcOk(pc, bump, count, arenaSize) && (pc.Got? ==> pc.n == |s.issued|)
    ensures AllOk(s.threads[t := pc], bump, count, arenaSize) && HoldDistinct(s.threads[t := pc])
  {
    var after := s.threads[t := pc];
    assert forall u | 0 <= u < |s.threads| :: PcOk(s.threads[u], s.bump, |s.issued|, arenaSize);
    forall u | 0 <= u < |after|
      ensures PcOk(after[u], bump, count, arenaSize)
    {
      if u != t {
        PcStays(s.threads[u], s.bump, bump, |s.issued|, count, arenaSize);
      }
    }
  }

  lemma AttemptKeepsInv(s: State, arenaSize: nat, t: nat, spurious: bool)
    requires Inv(s, arenaSize) && t < |s.threads| && s.threads[t].Try?
    ensures Inv(DoAttempt(s, arenaSize, t, spurious), arenaSize)
    ensures s.bump <= DoAttempt(s, arenaSize, t, spurious).bump
  {
    var Try(cur, size) := s.threads[t];
    assert PcOk(s.threads[t], s.bump, |s.issued|, arenaSize);
    SoundNeverWraps(cur, size, arenaSize);
    PlaceWithoutWrap(cur, size, arenaSize);
    match Place(cur, ReprLen(size), arenaSize)
    case NoFit =>
      NoFitIsForever(cur, s.bump, size, arenaSize);
      ThreadsAfter(s, arenaSize, t, Oom(size), s.bump, |s.issued|);
    case Fit(off, next) =>
      if s.bump == cur && !spurious {
        UpBounds(cur, Align(ReprLen(size)));
        OrderedAppend(s.issued, s.bump, Res(off, size));
        ThreadsAfter(s, arenaSize, t, Got(|s.issued|), next, |s.issued| + 1);
      } else {
        ThreadsAfter(s, arenaSize, t, Try(s.bump, size), s.bump, |s.issued|);
      }
  }

  lemma StepKeepsInv(s: State, arenaSize: nat, act: Action)
    requires Inv(s, arenaSize)
    ensures Inv(Apply(s, arenaSize, act), arenaSize)
    ensures s.bump <= Apply(s, arenaSize, act).bump
  {
    if act.Attempt? && act.t < |s.threads| && s.threads[act.t].Try? {
      AttemptKeepsInv(s, arenaSize, act.t, act.spurious);
    }
  }

  lemma {:induction false} RunKeepsInv(s: State, arenaSize: nat, acts: seq<Action>)
    requires Inv(s, arenaSize)
    ensures Inv(Run(s, arenaSize, acts), arenaSize)
    ensures s.bump <= Run(s, arenaSize, acts).bump
  {
    if acts != [] {
      RunKeepsInv(s, arenaSize, acts[..|acts| - 1]);
      StepKeepsInv(Run(s, arenaSize, acts[..|acts| - 1]), arenaSize, acts[|acts| - 1]);
    }
  }

  /** The capability returned for a reservation. */
  function CapOf(root: Cap, x: Res): Cap {
    AllocCap(root, x.off, x.size)
  }

  /** Tagged, tight, big enough, below the cursor, and equal to what `ft_derive` rebuilds. */
  ghost predicate GoodCap(root: Cap, x: Res, bump: nat) {
    var c := CapOf(root, x);
    && c.tag && c.base == c.addr && c.len >= x.size
    && Placed(root, c.base, c.len) && c.base + c.len <= root.base + bump
    && FtDerive(Some(root), c.addr, c.len) == c
  }

  lemma IssuedCap(root: Cap, x: Res, bump: nat)
    requires RootOk(root) && 0 < x.size && Divides(Align(Extent(x)), x.off) && x.off + Extent(x) <= bump <= root.len
    ensures GoodCap(root, x, bump)
    ensures CapOf(root, x).base == root.base + x.off && CapOf(root, x).len == Extent(x)
  {
    RebuildEqualsOriginal(root, x.off, x.size);
    ReprLenBounds(x.size);
  }

  /**
    In every interleaving, the bounds of all capabilities ever returned are inside the arena and
    pairwise disjoint, each is rebuilt by `ft_derive` from its own address and length, and the
    cursor counts exactly the reserved extents plus the alignment padding.
   */
  lemma AllocationsAreDisjoint(s: State, root: Cap, arenaSize: nat, acts: seq<Action>)
    requires Initial(s) && RootOk(root) && arenaSize <= root.len
    ensures var r := Run(s, arenaSize, acts);
      && r.bump == Reserved(r.issued) + r.padding <= arenaSize
      && (forall i | 0 <= i < |r.issued| :: GoodCap(root, r.issued[i], r.bump))
      && (forall i, j | 0 <= i < j < |r.issued| ::
            CapOf(root, r.issued[i]).base + CapOf(root, r.issued[i]).len <= CapOf(root, r.issued[j]).base)
  {
    RunKeepsInv(s, arenaSize, acts);
    var r := Run(s, arenaSize, acts);
    forall i | 0 <= i < |r.issued|
      ensures GoodCap(root, r.issued[i], r.bump)
      ensures CapOf(root, r.issued[i]).base == root.base + r.issued[i].off
      ensures CapOf(root, r.issued[i]).len == Extent(r.issued[i])
    {
      IssuedCap(root, r.issued[i], r.bump);
    }
  }

  /** Two threads never hold the same reservation. */
  lemma HoldersDiffer(s: State, arenaSize: nat, acts: seq<Action>, t: nat, u: nat)
    requires Initial(s) && t < u < |s.threads| && |Run(s, arenaSize, acts).threads| == |s.threads|
    requires Run(s, arenaSize, acts).threads[t].Got? && Run(s, arenaSize, acts).threads[u].Got?
    ensures Run(s, arenaSize, acts).threads[t].n != Run(s, arenaSize, acts).threads[u].n
  {
    RunKeepsInv(s, arenaSize, acts);
  }

  /**
    Out of memory is never spurious and is permanent: a thread told NULL, on the strength of
    whatever stale cursor it had, could not be served by the cursor now, nor ever again.
   */
  lemma OomIsTrueForever(s: State, arenaSize: nat, acts: seq<Action>, t: nat, more: seq<Action>)
    requires Initial(s) && t < |Run(s, arenaSize, acts).threads| && Run(s, arenaSize, acts).threads[t].Oom?
    ensures var r, size := Run(s, arenaSize, acts), Run(s, arenaSize, acts).threads[t].size;
      && Place(r.bump, ReprLen(size), arenaSize).NoFit?
      && Place(Run(r, arenaSize, more).bump, ReprLen(size), arenaSize).NoFit?
  {
    RunKeepsInv(s, arenaSize, acts);
    var r := Run(s, arenaSize, acts);
    assert PcOk(r.threads[t], r.bump, |r.issued|, arenaSize);
    RunKeepsInv(r, arenaSize, more);
    NoFitIsForever(r.bump, Run(r, arenaSize, more).bump, r.threads[t].size, arenaSize);
  }

  ghost predicate Uniform(s: State, size: nat) {
    && (forall i | 0 <= i < |s.issued| :: s.issued[i].size == size)
    && (forall t | 0 <= t < |s.threads| && s.threads[t].Try? :: s.threads[t].size == size)
    && s.padding == 0 && Divides(Align(ReprLen(size)), s.bump)
  }

  lemma UniformStep(s: State, arenaSize: nat, act: Action, size: nat)
    requires Inv(s, arenaSize) && Uniform(s, size) && (act.Begin? ==> act.size == size)
    ensures Uniform(Apply(s, arenaSize, act), size)
  {
    if act.Attempt? && act.t < |s.threads| && s.threads[act.t].Try? {
      var cur := s.threads[act.t].cur;
      assert PcOk(s.threads[act.t], s.bump, |s.issued|, arenaSize);
      SoundNeverWraps(cur, size, arenaSize);
      PlaceWithoutWrap(cur, size, arenaSize);
      AlignedIsFixed(s.bump, Align(ReprLen(size)));
      ReprLenSelfAligned(size);
      DividesSum(Align(ReprLen(size)), s.bump, ReprLen(size));
    }
  }

  lemma {:induction false} ReservedUniform(issued: seq<Res>, size: nat)
    requires forall i | 0 <= i < |issued| :: issued[i].size == size
    ensures Reserved(issued) == |issued| * ReprLen(size)
  {
    if issued != [] {
      var m := |issued| - 1;
      assert forall i | 0 <= i < m :: issued[..m][i] == issued[i];
      ReservedUniform(issued[..m], size);
      Distribute(m, 1, ReprLen(size));
    }
  }

  /** Requests of one size from an empty arena leave no padding: the cursor is count times rounded size. */
  lemma {:induction false} UniformCursor(s: State, arenaSize: nat, acts: seq<Action>, size: nat)
    requires Initial(s) && forall i | 0 <= i < |acts| && acts[i].Begin? :: acts[i].size == size
    ensures Uniform(Run(s, arenaSize, acts), size)
    ensures Run(s, arenaSize, acts).bump == |Run(s, arenaSize, acts).issued| * ReprLen(size)
  {
    RunKeepsInv(s, arenaSize, acts);
    if acts == [] {
      MultipleHasNoRemainder(0, Align(ReprLen(size)));
    } else {
      var m := |acts| - 1;
      assert forall i | 0 <= i < m :: acts[..m][i] == acts[i];
      UniformCursor(s, arenaSize, acts[..m], size);
      RunKeepsInv(s, arenaSize, acts[..m]);
      UniformStep(Run(s, arenaSize, acts[..m]), arenaSize, acts[m], size);
    }
    ReservedUniform(Run(s, arenaSize, acts).issued, size);
  }

  /**
    An attempt on the present cursor that does not fail for no reason takes the reservation if
    there is room, and an attempt from any cursor without room gives up.
   */
  lemma AttemptTakes(s: State, arenaSize: nat, t: nat, spurious: bool)
    requires Inv(s, arenaSize) && t < |s.threads| && s.threads[t].Try?
    ensures var Try(cur, size) := s.threads[t];
      var off := Up(cur, Align(ReprLen(size)));
      var r := Apply(s, arenaSize, Attempt(t, spurious));
      && (off + ReprLen(size) > arenaSize ==> r == s.(threads := s.threads[t := Oom(size)]))
      && (off + ReprLen(size) <= arenaSize && cur == s.bump && !spurious ==>
            && r.threads == s.threads[t := Got(|s.issued|)] && r.issued == s.issued + [Res(off, size)]
            && r.bump == off + ReprLen(size))
      && (off + ReprLen(size) <= arenaSize && (cur != s.bump || spurious) ==>
            r == s.(threads := s.threads[t := Try(s.bump, size)]))
  {
    var Try(cur, size) := s.threads[t];
    assert PcOk(s.threads[t], s.bump, |s.issued|, arenaSize);
    SoundNeverWraps(cur, size, arenaSize);
    PlaceWithoutWrap(cur, size, arenaSize);
  }

  /** A sound request starts by loading the cursor; two steps of a thread running alone settle it. */
  lemma AloneIsServed(s: State, arenaSize: nat, t: nat, size: nat)
    requires Inv(s, arenaSize) && t < |s.threads| && !s.threads[t].Try? && Sound(size, arenaSize)
    ensures var off := Up(s.bump, Align(ReprLen(size)));
      var r := Apply(Apply(s, arenaSize, Begin(t, size)), arenaSize, Attempt(t, false));
      && (off + ReprLen(size) <= arenaSize <==> r.threads[t].Got?)
      && (r.threads[t].Got? ==> r.issued == s.issued + [Res(off, size)] && r.threads[t] == Got(|s.issued|))
      && (!r.threads[t].Got? ==> r.threads[t] == Oom(size) && r.issued == s.issued)
  {
    StepKeepsInv(s, arenaSize, Begin(t, size));
    AttemptTakes(Apply(s, arenaSize, Begin(t, size)), arenaSize, t, false);
  }
}
