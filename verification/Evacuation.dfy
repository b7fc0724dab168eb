/**
  Revoke-first, mutator-assisted evacuation: every reference is revoked before anything has
  been copied, and each thread that faults on an object copies it and races to publish its
  copy. Threads interleave at every shared access, including between the bytes of a copy; the
  insert-or-get of the forwarding is one step here (module CasInsert opens it up).
 */
module Evacuation {
  import opened Prelude

  /** `OBJ_SIZE`. */
  const OBJ: nat := 128

  /**
    The frozen source objects, the byte each would be refilled with, the objects whose re-derived
    capability kept its tag, and the number of objects the destination arena holds.
   */
  datatype Config = Config(src: seq<seq<nat>>, shadow: seq<nat>, rederived: set<nat>, cells: nat)

  ghost predicate Uniform(content: seq<nat>, b: nat) {
    forall j | 0 <= j < |content| :: content[j] == b
  }

  ghost predicate ConfigOk(c: Config) {
    && c.cells > 0 && |c.shadow| == |c.src|
    && (forall i | 0 <= i < |c.src| :: |c.src[i]| == OBJ)
    && (forall i | 0 <= i < |c.src| :: i in c.rederived || Uniform(c.src[i], c.shadow[i]))
  }

  /** The object an address belongs to, counted from the arena base; nothing else is evacuated. */
  function IndexOf(c: Config, base: nat, from: nat): Option<nat> {
    if from < base || from >= base + c.cells * OBJ then None
    else
      var i := (from - base) / OBJ;
      if i >= |c.src| then None else Some(i)
  }

  datatype Pc =
    | Resting
    | Faulted(i: nat)
    | Reserving(i: nat)
    | Copying(i: nat, slot: nat, j: nat)
    | Publishing(i: nat, slot: nat)
      // the register now holds the published copy; the access is retried through it
    | Holding(i: nat, slot: nat)

  datatype Write = Write(i: nat, off: nat, v: nat)

  /**
    `tries` (which thread reserved for which object), `lost` (slots of beaten copies) and `log`
    (completed stores) are history.
   */
  datatype State = State(
    cursor: nat,
    fwd: map<nat, nat>,
    dst: seq<nat>,
    threads: seq<Pc>,
    winners: nat,
    tries: set<(nat, nat)>,
    lost: set<nat>,
    log: seq<Write>)

  datatype Action =
    | Touch(t: nat, i: nat)
    | Go(t: nat)
    | Store(t: nat, off: nat, v: nat)

  // ------------------------------------------------------------------ destination memory

  /** Byte `j` of destination slot `slot`: the cursor wraps around the arena. */
  function Pos(cells: nat, slot: nat, j: nat): nat
    requires cells > 0
  {
    (slot * OBJ) % (cells * OBJ) + j
  }

  function ByteAt(cells: nat, dst: seq<nat>, slot: nat, j: nat): nat
    requires cells > 0
  {
    if Pos(cells, slot, j) < |dst| then dst[Pos(cells, slot, j)] else 0
  }

  function SetByte(cells: nat, dst: seq<nat>, slot: nat, j: nat, v: nat): (r: seq<nat>)
    requires cells > 0
    ensures |r| == |dst|
  {
    if Pos(cells, slot, j) < |dst| then dst[Pos(cells, slot, j) := v] else dst
  }

  /** Without re-derivation the copy is refilled from the shadow byte. */
  function CopyByte(c: Config, i: nat, j: nat): nat {
    if i < |c.src| && i in c.rederived && j < |c.src[i]| then c.src[i][j]
    else if i < |c.shadow| then c.shadow[i] else 0
  }

  lemma PosIs(cells: nat, slot: nat, j: nat)
    requires cells > 0
    ensures Pos(cells, slot, j) == slot % cells * OBJ + j
  {
    assert slot == slot / cells * cells + slot % cells;
    assert slot * OBJ == slot / cells * (cells * OBJ) + slot % cells * OBJ;
    DivModUnique(slot * OBJ, cells * OBJ, slot / cells, slot % cells * OBJ);
  }

  lemma PosInside(cells: nat, slot: nat, j: nat)
    requires cells > 0 && j < OBJ
    ensures Pos(cells, slot, j) < cells * OBJ
  {
    PosIs(cells, slot, j);
  }

  /** Two reservations write to the same bytes exactly when they are equal modulo the arena's capacity. */
  lemma SlotsCollideIff(cells: nat, s: nat, j: nat, t: nat, k: nat)
    requires cells > 0 && j < OBJ && k < OBJ
    ensures Pos(cells, s, j) == Pos(cells, t, k) <==> s % cells == t % cells && j == k
  {
    PosIs(cells, s, j);
    PosIs(cells, t, k);
  }

  /** A byte written is read back there, and only there. */
  lemma SetByteReads(cells: nat, dst: seq<nat>, s: nat, j: nat, v: nat, t: nat, k: nat)
    requires cells > 0 && |dst| == cells * OBJ && j < OBJ && k < OBJ && s < cells && t < cells
    ensures ByteAt(cells, SetByte(cells, dst, s, j, v), t, k) == if s == t && j == k then v else ByteAt(cells, dst, t, k)
  {
    SlotsCollideIff(cells, s, j, t, k);
    PosInside(cells, s, j);
    PosInside(cells, t, k);
    DivModUnique(s, cells, 0, s);
    DivModUnique(t, cells, 0, t);
  }

  // ------------------------------------------------------------------ steps

  function SetPc(s: State, t: nat, pc: Pc): State
    requires t < |s.threads|
  {
    s.(threads := s.threads[t := pc])
  }

  /** One step of the handler or of `my_evacuate` in thread `t`. */
  function Next(c: Config, s: State, t: nat): (r: State)
    requires t < |s.threads| && c.cells > 0
    ensures |r.threads| == |s.threads|
  {
    match s.threads[t]
    case Resting => s
    case Faulted(i) => if i in s.fwd then SetPc(s, t, Holding(i, s.fwd[i])) else SetPc(s, t, Reserving(i))
    case Reserving(i) =>
      SetPc(s, t, Copying(i, s.cursor, 0)).(cursor := s.cursor + 1, tries := s.tries + {(t, i)})
    case Copying(i, slot, j) =>
      if j >= OBJ then SetPc(s, t, Publishing(i, slot))
      else SetPc(s, t, Copying(i, slot, j + 1)).(dst := SetByte(c.cells, s.dst, slot, j, CopyByte(c, i, j)))
    case Publishing(i, slot) =>
      if i in s.fwd then SetPc(s, t, Holding(i, s.fwd[i])).(lost := s.lost + {slot})
      else SetPc(s, t, Holding(i, slot)).(fwd := s.fwd[i := slot], winners := s.winners + 1)
    case Holding(i, slot) => s
  }

  function Apply(c: Config, s: State, act: Action): (r: State)
    requires c.cells > 0
    ensures |r.threads| == |s.threads|
  {
    match act
    case Touch(t, i) =>
      if t < |s.threads| && (s.threads[t].Resting? || s.threads[t].Holding?) && i < |c.src|
      then SetPc(s, t, Faulted(i)) else s
    case Go(t) => if t < |s.threads| then Next(c, s, t) else s
    case Store(t, off, v) =>
      if t < |s.threads| && s.threads[t].Holding? && off < OBJ
      then s.(dst := SetByte(c.cells, s.dst, s.threads[t].slot, off, v), log := s.log + [Write(s.threads[t].i, off, v)])
      else s
  }

  function Run(c: Config, s: State, acts: seq<Action>): (r: State)
    requires c.cells > 0
    ensures |r.threads| == |s.threads|
  {
    if acts == [] then s else Apply(c, Run(c, s, acts[..|acts| - 1]), acts[|acts| - 1])
  }

  /** After the revoke-first sweep: nothing copied, every thread still holds revoked references. */
  ghost predicate Initial(c: Config, s: State) {
    && s.cursor == 0 && s.fwd == map[] && |s.dst| == c.cells * OBJ
    && (forall t | 0 <= t < |s.threads| :: s.threads[t] == Resting)
    && s.winners == 0 && s.tries == {} && s.lost == {} && s.log == []
  }

  /** What byte `off` of object `i` should be: the last value stored there, or the source's. */
  function Latest(c: Config, log: seq<Write>, i: nat, off: nat): nat
    requires i < |c.src| && off < |c.src[i]|
  {
    if log == [] then c.src[i][off]
    else
      var w := log[|log| - 1];
      if w.i == i && w.off == off then w.v else Latest(c, log[..|log| - 1], i, off)
  }

  // ------------------------------------------------------------------ the invariant

  /** The thread works on a private copy in this slot. */
  predicate Owns(pc: Pc, slot: nat) {
    (pc.Copying? || pc.Publishing?) && pc.slot == slot
  }

  /** The thread has reserved for `i` and not yet raced. */
  predicate Busy(pc: Pc, i: nat) {
    (pc.Copying? || pc.Publishing?) && pc.i == i
  }

  ghost predicate Published(fwd: map<nat, nat>, slot: nat) {
    exists i :: i in fwd && fwd[i] == slot
  }

  /** The first `n` bytes of the slot are the source's. */
  ghost predicate Copied(c: Config, dst: seq<nat>, slot: nat, i: nat, n: nat)
    requires c.cells > 0
  {
    i < |c.src| && n <= OBJ && n <= |c.src[i]|
    && forall j | 0 <= j < n :: ByteAt(c.cells, dst, slot, j) == c.src[i][j]
  }

  ghost predicate PcOk(c: Config, s: State, t: nat)
    requires t < |s.threads| && c.cells > 0
  {
    match s.threads[t]
    case Resting => true
    case Faulted(i) => i < |c.src|
    case Reserving(i) => i < |c.src| && (t, i) !in s.tries
    case Copying(i, slot, j) => slot < s.cursor && !Published(s.fwd, slot) && Copied(c, s.dst, slot, i, j)
    case Publishing(i, slot) => slot < s.cursor && !Published(s.fwd, slot) && Copied(c, s.dst, slot, i, OBJ)
    case Holding(i, slot) => i in s.fwd && s.fwd[i] == slot
  }

  ghost predicate SoleOwners(threads: seq<Pc>) {
    forall t, u, slot: nat | 0 <= t < u < |threads| && Owns(threads[t], slot) :: !Owns(threads[u], slot)
  }

  /** Published slots hold what the program last stored. */
  ghost predicate Current(c: Config, s: State, i: nat)
    requires i in s.fwd && c.cells > 0
  {
    && i < |c.src| && |c.src[i]| == OBJ && s.fwd[i] < s.cursor
    && forall j | 0 <= j < OBJ :: ByteAt(c.cells, s.dst, s.fwd[i], j) == Latest(c, s.log, i, j)
  }

  ghost predicate OneToOne(fwd: map<nat, nat>) {
    forall i, k | i in fwd && k in fwd && fwd[i] == fwd[k] :: i == k
  }

  /** Only evacuated objects have been written. */
  ghost predicate LogOk(s: State) {
    forall n | 0 <= n < |s.log| :: s.log[n].i in s.fwd
  }

  ghost predicate TriesOk(c: Config, s: State) {
    && |s.tries| == s.cursor
    && forall p | p in s.tries :: p.0 < |s.threads| && p.1 < |c.src| && (p.1 in s.fwd || Busy(s.threads[p.0], p.1))
  }

  /** A beaten copy is neither published nor worked on. */
  ghost predicate Unreachable(s: State, slot: nat) {
    slot < s.cursor && !Published(s.fwd, slot) && forall t | 0 <= t < |s.threads| :: !Owns(s.threads[t], slot)
  }

  ghost predicate Inv(c: Config, s: State) {
    && ConfigOk(c)
    && |s.threads| * |c.src| <= c.cells
    && |s.dst| == c.cells * OBJ
    && (forall t | 0 <= t < |s.threads| :: PcOk(c, s, t))
    && SoleOwners(s.threads)
    && (forall i | i in s.fwd :: Current(c, s, i))
    && OneToOne(s.fwd)
    && LogOk(s)
    && TriesOk(c, s)
    && (forall slot | slot in s.lost :: Unreachable(s, slot))
    && s.winners == |s.fwd|
  }

  // ------------------------------------------------------------------ slots are never reused

  function Pairs(n: nat, m: nat): (p: set<(nat, nat)>) {
    set t: nat, i: nat | t < n && i < m :: (t, i)
  }

  function Row(t: nat, m: nat): (p: set<(nat, nat)>) {
    set i: nat | i < m :: (t, i)
  }

  lemma {:induction false} RowSize(t: nat, m: nat)
    ensures |Row(t, m)| == m
  {
    if m > 0 {
      RowSize(t, m - 1);
      assert Row(t, m) == Row(t, m - 1) + {(t, m - 1)};
    }
  }

  lemma {:induction false} PairsSize(n: nat, m: nat)
    ensures |Pairs(n, m)| == n * m
  {
    if n > 0 {
      PairsSize(n - 1, m);
      RowSize(n - 1, m);
      assert Pairs(n, m) == Pairs(n - 1, m) + Row(n - 1, m);
      assert Pairs(n - 1, m) !! Row(n - 1, m);
      Distribute(n - 1, 1, m);
    } else {
      assert Pairs(n, m) == {};
    }
  }

  lemma SubsetSize(a: set<(nat, nat)>, b: set<(nat, nat)>)
    requires a <= b
    ensures |a| <= |b|
  {
    assert b == a + (b - a);
  }

  /** Each thread reserves at most once for each object, so the cursor is bounded by threads times objects. */
  lemma CursorBounded(c: Config, s: State)
    requires TriesOk(c, s)
    ensures s.cursor <= |s.threads| * |c.src|
  {
    PairsSize(|s.threads|, |c.src|);
    assert s.tries <= Pairs(|s.threads|, |c.src|);
    SubsetSize(s.tries, Pairs(|s.threads|, |c.src|));
  }

  lemma SlotsFit(c: Config, s: State)
    requires Inv(c, s)
    ensures s.cursor <= c.cells
  {
    CursorBounded(c, s);
  }

  // ------------------------------------------------------------------ every step keeps the invariant

  /** Writing to one slot leaves the bytes of every other slot alone. */
  lemma OtherSlotKept(c: Config, dst: seq<nat>, s: nat, j: nat, v: nat, t: nat)
    requires c.cells > 0 && |dst| == c.cells * OBJ && j < OBJ && s < c.cells && t < c.cells && s != t
    ensures forall k | 0 <= k < OBJ ::
      ByteAt(c.cells, SetByte(c.cells, dst, s, j, v), t, k) == ByteAt(c.cells, dst, t, k)
  {
    forall k | 0 <= k < OBJ
      ensures ByteAt(c.cells, SetByte(c.cells, dst, s, j, v), t, k) == ByteAt(c.cells, dst, t, k)
    {
      SetByteReads(c.cells, dst, s, j, v, t, k);
    }
  }

  /** A step that only moves thread `t` between positions where it owns no slot. */
  lemma QuietStep(c: Config, s: State, t: nat, pc: Pc)
    requires Inv(c, s) && t < |s.threads|
    requires !s.threads[t].Copying? && !s.threads[t].Publishing? && !pc.Copying? && !pc.Publishing?
    requires PcOk(c, SetPc(s, t, pc), t)
    ensures Inv(c, SetPc(s, t, pc))
  {
    var r := SetPc(s, t, pc);
    forall u | 0 <= u < |r.threads|
      ensures PcOk(c, r, u)
    {
      assert PcOk(c, s, u);
    }
    forall slot | slot in r.lost
      ensures Unreachable(r, slot)
    {
      assert Unreachable(s, slot);
    }
    forall i | i in r.fwd
      ensures Current(c, r, i)
    {
      assert Current(c, s, i);
    }
  }

  /** A new reservation is above every slot in use. */
  lemma ReserveStep(c: Config, s: State, t: nat)
    requires Inv(c, s) && t < |s.threads| && s.threads[t].Reserving?
    ensures Inv(c, Next(c, s, t))
  {
    var i := s.threads[t].i;
    var r := Next(c, s, t);
    assert PcOk(c, s, t);
    forall k | k in r.fwd
      ensures Current(c, r, k) && r.fwd[k] != s.cursor
    {
      assert Current(c, s, k);
    }
    forall u | 0 <= u < |r.threads|
      ensures PcOk(c, r, u) && !Owns(s.threads[u], s.cursor)
    {
      assert PcOk(c, s, u);
    }
    forall slot | slot in r.lost
      ensures Unreachable(r, slot)
    {
      assert Unreachable(s, slot);
    }
  }

  /** The source is frozen, so a byte copied is the source's byte, whichever way it is obtained. */
  lemma CopyByteIsSource(c: Config, i: nat, j: nat)
    requires ConfigOk(c) && i < |c.src| && j < OBJ
    ensures CopyByte(c, i, j) == c.src[i][j]
  {
    assert Uniform(c.src[i], c.shadow[i]) || i in c.rederived;
  }

  lemma CopyPcs(c: Config, s: State, t: nat, u: nat)
    requires Inv(c, s) && t < |s.threads| && s.threads[t].Copying? && s.threads[t].j < OBJ && u < |s.threads|
    ensures PcOk(c, Next(c, s, t), u)
  {
    var i, slot, j := s.threads[t].i, s.threads[t].slot, s.threads[t].j;
    SlotsFit(c, s);
    assert PcOk(c, s, t) && PcOk(c, s, u);
    CopyByteIsSource(c, i, j);
    if u == t {
      forall k | 0 <= k < j + 1
        ensures ByteAt(c.cells, Next(c, s, t).dst, slot, k) == c.src[i][k]
      {
        SetByteReads(c.cells, s.dst, slot, j, CopyByte(c, i, j), slot, k);
      }
    } else if s.threads[u].Copying? || s.threads[u].Publishing? {
      assert Owns(s.threads[t], slot) && Owns(s.threads[u], s.threads[u].slot);
      OtherSlotKept(c, s.dst, slot, j, CopyByte(c, i, j), s.threads[u].slot);
    }
  }

  /** Copying a byte touches no published copy and no other thread's copy. */
  lemma CopyStep(c: Config, s: State, t: nat)
    requires Inv(c, s) && t < |s.threads| && s.threads[t].Copying? && s.threads[t].j < OBJ
    ensures Inv(c, Next(c, s, t))
  {
    var i, slot, j := s.threads[t].i, s.threads[t].slot, s.threads[t].j;
    var r := Next(c, s, t);
    SlotsFit(c, s);
    assert PcOk(c, s, t);
    forall u | 0 <= u < |r.threads|
      ensures PcOk(c, r, u)
    {
      CopyPcs(c, s, t, u);
    }
    forall k | k in r.fwd
      ensures Current(c, r, k)
    {
      assert Current(c, s, k);
      OtherSlotKept(c, s.dst, slot, j, CopyByte(c, i, j), s.fwd[k]);
    }
    forall x | x in r.lost
      ensures Unreachable(r, x)
    {
      assert Unreachable(s, x);
      assert Owns(s.threads[t], slot);
    }
  }

  lemma CopyDoneStep(c: Config, s: State, t: nat)
    requires Inv(c, s) && t < |s.threads| && s.threads[t].Copying? && s.threads[t].j >= OBJ
    ensures Inv(c, Next(c, s, t))
  {
    var r := Next(c, s, t);
    assert PcOk(c, s, t);
    assert Owns(s.threads[t], s.threads[t].slot);
    forall u | 0 <= u < |r.threads|
      ensures PcOk(c, r, u)
    {
      assert PcOk(c, s, u);
    }
    forall x | x in r.lost
      ensures Unreachable(r, x)
    {
      assert Unreachable(s, x);
    }
    forall k | k in r.fwd
      ensures Current(c, r, k)
    {
      assert Current(c, s, k);
    }
  }

  lemma {:induction false} UnwrittenIsSource(c: Config, log: seq<Write>, i: nat, j: nat)
    requires i < |c.src| && j < |c.src[i]| && forall n | 0 <= n < |log| :: log[n].i != i
    ensures Latest(c, log, i, j) == c.src[i][j]
  {
    if log != [] {
      UnwrittenIsSource(c, log[..|log| - 1], i, j);
    }
  }

  /** The winner publishes a complete copy of an object nobody has written yet. */
  lemma WinStep(c: Config, s: State, t: nat)
    requires Inv(c, s) && t < |s.threads| && s.threads[t].Publishing? && s.threads[t].i !in s.fwd
    ensures Inv(c, Next(c, s, t))
  {
    var i, slot := s.threads[t].i, s.threads[t].slot;
    var r := Next(c, s, t);
    assert PcOk(c, s, t);
    assert Owns(s.threads[t], slot);
    forall k | k in r.fwd
      ensures Current(c, r, k) && (k != i ==> r.fwd[k] != slot)
    {
      if k == i {
        forall j | 0 <= j < OBJ
          ensures Latest(c, s.log, i, j) == c.src[i][j]
        {
          UnwrittenIsSource(c, s.log, i, j);
        }
      } else {
        assert Current(c, s, k);
        assert k in s.fwd && s.fwd[k] != slot;
      }
    }
    forall u | 0 <= u < |r.threads|
      ensures PcOk(c, r, u)
    {
      WinPcs(c, s, t, u);
    }
    forall x | x in r.lost
      ensures Unreachable(r, x)
    {
      assert Unreachable(s, x);
      PublishedAfterWin(s.fwd, i, slot, x);
    }
  }

  lemma PublishedAfterWin(fwd: map<nat, nat>, i: nat, slot: nat, x: nat)
    requires i !in fwd
    ensures Published(fwd[i := slot], x) <==> Published(fwd, x) || x == slot
  {
    var g := fwd[i := slot];
    if k :| k in fwd && fwd[k] == x {
      assert k in g && g[k] == x;
    }
    if x == slot {
      assert i in g && g[i] == x;
    }
  }

  lemma WinPcs(c: Config, s: State, t: nat, u: nat)
    requires Inv(c, s) && t < |s.threads| && s.threads[t].Publishing? && s.threads[t].i !in s.fwd && u < |s.threads|
    ensures PcOk(c, Next(c, s, t), u)
  {
    var i, slot := s.threads[t].i, s.threads[t].slot;
    assert PcOk(c, s, u);
    assert Owns(s.threads[t], slot);
    if u != t && (s.threads[u].Copying? || s.threads[u].Publishing?) {
      assert Owns(s.threads[u], s.threads[u].slot);
      PublishedAfterWin(s.fwd, i, slot, s.threads[u].slot);
    }
  }

  /** A loser drops its copy for good and takes the winner's. */
  lemma LoseStep(c: Config, s: State, t: nat)
    requires Inv(c, s) && t < |s.threads| && s.threads[t].Publishing? && s.threads[t].i in s.fwd
    ensures Inv(c, Next(c, s, t))
  {
    var r := Next(c, s, t);
    assert PcOk(c, s, t);
    var slot := s.threads[t].slot;
    assert Owns(s.threads[t], slot);
    forall u | 0 <= u < |r.threads|
      ensures PcOk(c, r, u)
    {
      assert PcOk(c, s, u);
    }
    forall x | x in r.lost
      ensures Unreachable(r, x)
    {
      assert x != slot ==> Unreachable(s, x);
    }
    forall k | k in r.fwd
      ensures Current(c, r, k)
    {
      assert Current(c, s, k);
    }
  }

  /** A store through a healed reference reaches the one published copy. */
  lemma StoreStep(c: Config, s: State, t: nat, off: nat, v: nat)
    requires Inv(c, s) && t < |s.threads| && s.threads[t].Holding? && off < OBJ
    ensures Inv(c, Apply(c, s, Store(t, off, v)))
  {
    var i, slot := s.threads[t].i, s.threads[t].slot;
    var r := Apply(c, s, Store(t, off, v));
    SlotsFit(c, s);
    assert PcOk(c, s, t);
    assert Current(c, s, i) && Published(s.fwd, slot);
    forall k | k in r.fwd
      ensures Current(c, r, k)
    {
      assert Current(c, s, k);
      assert r.log[..|r.log| - 1] == s.log;
      forall j | 0 <= j < OBJ
        ensures ByteAt(c.cells, r.dst, r.fwd[k], j) == Latest(c, r.log, k, j)
      {
        SetByteReads(c.cells, s.dst, slot, off, v, s.fwd[k], j);
      }
    }
    forall u | 0 <= u < |r.threads|
      ensures PcOk(c, r, u)
    {
      assert PcOk(c, s, u);
      if s.threads[u].Copying? || s.threads[u].Publishing? {
        OtherSlotKept(c, s.dst, slot, off, v, s.threads[u].slot);
      }
    }
    forall x | x in r.lost
      ensures Unreachable(r, x)
    {
      assert Unreachable(s, x);
    }
  }

  lemma FaultStep(c: Config, s: State, t: nat)
    requires Inv(c, s) && t < |s.threads| && s.threads[t].Faulted?
    ensures Inv(c, Next(c, s, t))
  {
    var i := s.threads[t].i;
    assert PcOk(c, s, t);
    if i !in s.fwd {
      assert (t, i) !in s.tries;
      QuietStep(c, s, t, Reserving(i));
    } else {
      QuietStep(c, s, t, Holding(i, s.fwd[i]));
    }
  }

  lemma StepKeepsInv(c: Config, s: State, act: Action)
    requires Inv(c, s)
    ensures Inv(c, Apply(c, s, act))
  {
    match act
    case Touch(t, i) =>
      if t < |s.threads| && (s.threads[t].Resting? || s.threads[t].Holding?) && i < |c.src| {
        QuietStep(c, s, t, Faulted(i));
      }
    case Go(t) =>
      if t < |s.threads| {
        match s.threads[t]
        case Resting =>
        case Faulted(i) => FaultStep(c, s, t);
        case Reserving(i) => ReserveStep(c, s, t);
        case Copying(i, slot, j) => if j < OBJ { CopyStep(c, s, t); } else { CopyDoneStep(c, s, t); }
        case Publishing(i, slot) => if i in s.fwd { LoseStep(c, s, t); } else { WinStep(c, s, t); }
        case Holding(i, slot) =>
      }
    case Store(t, off, v) =>
      if t < |s.threads| && s.threads[t].Holding? && off < OBJ {
        StoreStep(c, s, t, off, v);
      }
  }

  lemma {:induction false} RunKeepsInv(c: Config, s: State, acts: seq<Action>)
    requires ConfigOk(c) && Initial(c, s) && |s.threads| * |c.src| <= c.cells
    ensures Inv(c, Run(c, s, acts))
  {
    if acts != [] {
      RunKeepsInv(c, s, acts[..|acts| - 1]);
      StepKeepsInv(c, Run(c, s, acts[..|acts| - 1]), acts[|acts| - 1]);
    }
  }

  // ------------------------------------------------------------------ what every interleaving guarantees

  lemma StepKeepsHistory(c: Config, s: State, act: Action)
    requires c.cells > 0
    ensures forall i | i in s.fwd :: i in Apply(c, s, act).fwd && Apply(c, s, act).fwd[i] == s.fwd[i]
    ensures s.lost <= Apply(c, s, act).lost
  {
  }

  /** Forwardings and beaten copies of an earlier moment are there at every later one, unchanged. */
  lemma {:induction false} HistoryStays(c: Config, s: State, acts: seq<Action>, n: nat)
    requires c.cells > 0 && n <= |acts|
    ensures var q, r := Run(c, s, acts[..n]), Run(c, s, acts);
      q.lost <= r.lost && forall i | i in q.fwd :: i in r.fwd && r.fwd[i] == q.fwd[i]
  {
    var m := |acts| - 1;
    if n == |acts| {
      assert acts[..n] == acts;
    } else {
      assert acts[..m][..n] == acts[..n];
      HistoryStays(c, s, acts[..m], n);
      StepKeepsHistory(c, Run(c, s, acts[..m]), acts[m]);
    }
  }

  /**
    One copy per object, ever: whatever thread holds object `i` at one moment and whatever thread
    holds it at any later moment, they hold the same destination slot.
   */
  lemma OneCopyEver(c: Config, s: State, acts: seq<Action>, n: nat, t: nat, u: nat)
    requires ConfigOk(c) && Initial(c, s) && |s.threads| * |c.src| <= c.cells
    requires n <= |acts| && t < |s.threads| && u < |s.threads|
    requires var x, y := Run(c, s, acts[..n]).threads[t], Run(c, s, acts).threads[u];
      x.Holding? && y.Holding? && x.i == y.i
    ensures Run(c, s, acts[..n]).threads[t].slot == Run(c, s, acts).threads[u].slot
  {
    RunKeepsInv(c, s, acts[..n]);
    RunKeepsInv(c, s, acts);
    HistoryStays(c, s, acts, n);
    assert PcOk(c, Run(c, s, acts[..n]), t) && PcOk(c, Run(c, s, acts), u);
  }

  /** Thread `t` is about to publish `slot` for an object that has been published already, or has given the slot up. */
  ghost predicate Beaten(q: State, t: nat, i: nat, slot: nat) {
    t < |q.threads| && i in q.fwd && (q.threads[t] == Publishing(i, slot) || slot in q.lost)
  }

  lemma BeatenStep(c: Config, q: State, act: Action, t: nat, i: nat, slot: nat)
    requires c.cells > 0 && Beaten(q, t, i, slot)
    ensures Beaten(Apply(c, q, act), t, i, slot)
  {
  }

  lemma {:induction false} BeatenStays(c: Config, s: State, acts: seq<Action>, n: nat, t: nat, i: nat, slot: nat)
    requires c.cells > 0 && n <= |acts| && Beaten(Run(c, s, acts[..n]), t, i, slot)
    ensures Beaten(Run(c, s, acts), t, i, slot)
  {
    var m := |acts| - 1;
    if n == |acts| {
      assert acts[..n] == acts;
    } else {
      assert acts[..m][..n] == acts[..n];
      BeatenStays(c, s, acts[..m], n, t, i, slot);
      BeatenStep(c, Run(c, s, acts[..m]), acts[m], t, i, slot);
    }
  }

  /**
    A copy that comes to its race too late, its object being published already, is never held by
    anyone, then or later.
   */
  lemma LosersAreUnreachable(c: Config, s: State, acts: seq<Action>, n: nat, t: nat, i: nat, slot: nat, u: nat)
    requires ConfigOk(c) && Initial(c, s) && |s.threads| * |c.src| <= c.cells
    requires n <= |acts| && t < |s.threads| && u < |s.threads|
    requires var q := Run(c, s, acts[..n]); q.threads[t] == Publishing(i, slot) && i in q.fwd
    ensures Run(c, s, acts).threads[u].Holding? ==> Run(c, s, acts).threads[u].slot != slot
  {
    RunKeepsInv(c, s, acts);
    BeatenStays(c, s, acts, n, t, i, slot);
    var r := Run(c, s, acts);
    assert PcOk(c, r, t) && PcOk(c, r, u);
    assert slot in r.lost ==> Unreachable(r, slot);
    assert r.threads[u].Holding? ==> Published(r.fwd, r.threads[u].slot);
  }

  /** At the moment a copy is published it equals the frozen source, byte for byte. */
  lemma WinningCopyIsSource(c: Config, s: State, acts: seq<Action>, t: nat, j: nat)
    requires ConfigOk(c) && Initial(c, s) && |s.threads| * |c.src| <= c.cells
    requires t < |s.threads| && j < OBJ && Run(c, s, acts).threads[t].Publishing?
    ensures var r := Run(c, s, acts);
      var x := r.threads[t];
      && x.i < |c.src| && |c.src[x.i]| == OBJ
      && ByteAt(c.cells, r.dst, x.slot, j) == c.src[x.i][j]
      && (x.i !in r.fwd ==> Next(c, r, t).fwd == r.fwd[x.i := x.slot] && Next(c, r, t).dst == r.dst)
  {
    RunKeepsInv(c, s, acts);
    assert PcOk(c, Run(c, s, acts), t);
  }

  /** The thread holds object `i` when it performs this store. */
  predicate StoresTo(q: State, act: Action, i: nat, off: nat) {
    && act.Store? && act.off == off && act.t < |q.threads|
    && q.threads[act.t].Holding? && q.threads[act.t].i == i
  }

  /** What the last store to this byte in the run was, judged by who held what; the source's byte if there was none. */
  function LastStore(c: Config, s: State, acts: seq<Action>, i: nat, off: nat): nat
    requires c.cells > 0 && i < |c.src| && off < |c.src[i]|
  {
    if acts == [] then c.src[i][off]
    else
      var m := |acts| - 1;
      if StoresTo(Run(c, s, acts[..m]), acts[m], i, off) then acts[m].v else LastStore(c, s, acts[..m], i, off)
  }

  lemma LogStep(c: Config, q: State, act: Action, i: nat, off: nat)
    requires c.cells > 0 && i < |c.src| && |c.src[i]| == OBJ && off < OBJ
    ensures Latest(c, Apply(c, q, act).log, i, off)
         == if StoresTo(q, act, i, off) then act.v else Latest(c, q.log, i, off)
  {
    if act.Store? && act.t < |q.threads| && q.threads[act.t].Holding? && act.off < OBJ {
      var w := Write(q.threads[act.t].i, act.off, act.v);
      assert (q.log + [w])[..|q.log|] == q.log;
    }
  }

  lemma {:induction false} LogIsActions(c: Config, s: State, acts: seq<Action>, i: nat, off: nat)
    requires c.cells > 0 && i < |c.src| && |c.src[i]| == OBJ && off < OBJ && s.log == []
    ensures Latest(c, Run(c, s, acts).log, i, off) == LastStore(c, s, acts, i, off)
  {
    if acts != [] {
      var m := |acts| - 1;
      LogIsActions(c, s, acts[..m], i, off);
      LogStep(c, Run(c, s, acts[..m]), acts[m], i, off);
    }
  }

  /**
    Reads and writes through healed references are those of one shared object: a read returns the
    value of the last store to that byte by any thread that held the object, or the source's byte
    if there was none. No write is lost.
   */
  lemma ReadsLatest(c: Config, s: State, acts: seq<Action>, t: nat, off: nat)
    requires ConfigOk(c) && Initial(c, s) && |s.threads| * |c.src| <= c.cells
    requires t < |s.threads| && off < OBJ && Run(c, s, acts).threads[t].Holding?
    ensures var r := Run(c, s, acts);
      var x := r.threads[t];
      && x.i < |c.src| && |c.src[x.i]| == OBJ
      && ByteAt(c.cells, r.dst, x.slot, off) == LastStore(c, s, acts, x.i, off)
  {
    RunKeepsInv(c, s, acts);
    var r := Run(c, s, acts);
    assert PcOk(c, r, t);
    assert Current(c, r, r.threads[t].i);
    LogIsActions(c, s, acts, r.threads[t].i, off);
  }

  /** Right after a store every thread that holds the object reads the value stored. */
  lemma StoreIsRead(c: Config, s: State, acts: seq<Action>, t: nat, off: nat, v: nat, u: nat)
    requires ConfigOk(c) && Initial(c, s) && |s.threads| * |c.src| <= c.cells
    requires t < |s.threads| && u < |s.threads| && off < OBJ
    requires var r := Run(c, s, acts);
      r.threads[t].Holding? && r.threads[u].Holding? && r.threads[u].i == r.threads[t].i
    ensures var q := Apply(c, Run(c, s, acts), Store(t, off, v));
      && q.threads == Run(c, s, acts).threads
      && ByteAt(c.cells, q.dst, q.threads[u].slot, off) == v
  {
    RunKeepsInv(c, s, acts);
    var r := Run(c, s, acts);
    assert PcOk(c, r, t) && PcOk(c, r, u) && Current(c, r, r.threads[t].i);
    SlotsFit(c, r);
    SetByteReads(c.cells, r.dst, r.threads[t].slot, off, v, r.threads[u].slot, off);
  }

  // ------------------------------------------------------------------ nobody waits

  /** Steps thread `t` still needs to hold its object. */
  function StepsLeft(pc: Pc): nat {
    match pc
    case Resting => 0
    case Faulted(_) => OBJ + 4
    case Reserving(_) => OBJ + 3
    case Copying(_, _, j) => if j < OBJ then OBJ - j + 2 else 2
    case Publishing(_, _) => 1
    case Holding(_, _) => 0
  }

  function AimOf(pc: Pc): Option<nat> {
    if pc.Resting? then None else Some(pc.i)
  }

  lemma GoApproaches(c: Config, s: State, t: nat)
    requires c.cells > 0 && t < |s.threads| && !s.threads[t].Resting? && !s.threads[t].Holding?
    ensures var r := Next(c, s, t);
      StepsLeft(r.threads[t]) < StepsLeft(s.threads[t]) && AimOf(r.threads[t]) == AimOf(s.threads[t])
  {
  }

  lemma OthersLeaveThread(c: Config, s: State, act: Action, t: nat)
    requires c.cells > 0 && t < |s.threads| && act != Go(t) && (act.Touch? ==> act.t != t)
    ensures Apply(c, s, act).threads[t] == s.threads[t]
  {
  }

  /** How many steps of thread `t` there are in a schedule. */
  function Goes(acts: seq<Action>, t: nat): nat {
    if acts == [] then 0 else Goes(acts[..|acts| - 1], t) + if acts[|acts| - 1] == Go(t) then 1 else 0
  }

  /**
    No thread waits for another: under every schedule, whoever faults on an object holds it after
    at most 132 steps of its own.
   */
  lemma {:induction false} FaultIsServed(c: Config, s: State, t: nat, acts: seq<Action>)
    requires c.cells > 0 && t < |s.threads| && !s.threads[t].Resting?
    requires forall n | 0 <= n < |acts| && acts[n].Touch? :: acts[n].t != t
    ensures var pc := Run(c, s, acts).threads[t];
      && !pc.Resting? && pc.i == s.threads[t].i
      && StepsLeft(pc) <= (if Goes(acts, t) <= StepsLeft(s.threads[t]) then StepsLeft(s.threads[t]) - Goes(acts, t) else 0)
      && (Goes(acts, t) >= 132 ==> pc.Holding?)
  {
    if acts != [] {
      var m := |acts| - 1;
      FaultIsServed(c, s, t, acts[..m]);
      var q := Run(c, s, acts[..m]);
      if acts[m] == Go(t) {
        if !q.threads[t].Holding? {
          GoApproaches(c, q, t);
        }
      } else {
        OthersLeaveThread(c, q, acts[m], t);
      }
    }
  }

  /** Touching a revoked reference faults on its object. */
  lemma TouchFaults(c: Config, s: State, t: nat, i: nat)
    requires c.cells > 0 && t < |s.threads| && (s.threads[t].Resting? || s.threads[t].Holding?) && i < |c.src|
    ensures Apply(c, s, Touch(t, i)) == s.(threads := s.threads[t := Faulted(i)])
  {
  }

  /**
    The winners counter is the number of objects evacuated, each once; and destination slots are
    not reused, because no thread ever reserves twice for one object.
   */
  lemma WinnersAreObjects(c: Config, s: State, acts: seq<Action>)
    requires ConfigOk(c) && Initial(c, s) && |s.threads| * |c.src| <= c.cells
    ensures var r := Run(c, s, acts);
      && r.winners == |r.fwd| <= |c.src|
      && (r.winners == |c.src| <==> forall i | 0 <= i < |c.src| :: i in r.fwd)
      && r.cursor <= |s.threads| * |c.src|
  {
    RunKeepsInv(c, s, acts);
    var r := Run(c, s, acts);
    CursorBounded(c, r);
    forall i | i in r.fwd
      ensures i < |c.src|
    {
      assert Current(c, r, i);
    }
    KeysBelow(r.fwd.Keys, |c.src|);
  }

  lemma {:induction false} KeysBelow(keys: set<nat>, n: nat)
    requires forall i | i in keys :: i < n
    ensures |keys| <= n
    ensures |keys| == n <==> forall i | 0 <= i < n :: i in keys
  {
    if n == 0 {
      assert keys == {};
    } else {
      KeysBelow(keys - {n - 1}, n - 1);
      assert n - 1 in keys ==> |keys - {n - 1}| == |keys| - 1;
      assert n - 1 !in keys ==> keys - {n - 1} == keys;
    }
  }

  /** The destination arena of `test_concurrent_move.c`: 64 objects, 8 threads, 4 MiB. */
  lemma ArenaSuffices()
    ensures 8 * 64 <= 4 * 1024 * 1024 / OBJ == 32768
  {
  }

  // ------------------------------------------------------------------ where it would fail

  /**
    A copy in progress overwrites a published copy exactly when their slots are equal modulo the
    arena's capacity: then a reader of object `k` sees a byte of another object.
   */
  lemma CopyOverwritesIff(c: Config, s: State, t: nat, k: nat, v: nat)
    requires c.cells > 0 && |s.dst| == c.cells * OBJ && t < |s.threads| && k in s.fwd
    requires s.threads[t].Copying? && s.threads[t].j < OBJ
    requires v == CopyByte(c, s.threads[t].i, s.threads[t].j) != ByteAt(c.cells, s.dst, s.fwd[k], s.threads[t].j)
    ensures ByteAt(c.cells, Next(c, s, t).dst, s.fwd[k], s.threads[t].j) == v
       <==> s.threads[t].slot % c.cells == s.fwd[k] % c.cells
  {
    var j := s.threads[t].j;
    SlotsCollideIff(c.cells, s.threads[t].slot, j, s.fwd[k], j);
    PosInside(c.cells, s.threads[t].slot, j);
    PosInside(c.cells, s.fwd[k], j);
  }

  /** Refilling from the shadow byte rebuilds the object exactly when the object was uniform. */
  lemma RefillIsCopyIff(c: Config, i: nat)
    requires i < |c.src| && i < |c.shadow| && i !in c.rederived
    ensures (forall j | 0 <= j < |c.src[i]| :: CopyByte(c, i, j) == c.src[i][j]) <==> Uniform(c.src[i], c.shadow[i])
  {
    if forall j | 0 <= j < |c.src[i]| :: CopyByte(c, i, j) == c.src[i][j] {
      forall j | 0 <= j < |c.src[i]|
        ensures c.src[i][j] == c.shadow[i]
      {
        assert CopyByte(c, i, j) == c.src[i][j];
      }
    }
  }

  /** Only addresses inside one of the objects are evacuated, and each to its own object. */
  lemma IndexOfIff(c: Config, base: nat, from: nat, i: nat)
    requires |c.src| <= c.cells
    ensures IndexOf(c, base, from) == Some(i) <==> i < |c.src| && base + i * OBJ <= from < base + i * OBJ + OBJ
  {
    if i < |c.src| && base + i * OBJ <= from < base + i * OBJ + OBJ {
      DivModUnique(from - base, OBJ, i, from - base - i * OBJ);
    }
  }
}
