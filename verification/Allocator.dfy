/**
  The bump allocator (`allocator.c`). `Place` is the body of its retry loop, in 64-bit
  arithmetic; `Arena.Alloc` is the loop as one thread sees it while others move the cursor.
 */
module Allocator {
  import opened Prelude
  import opened Representable
  import opened Cheri

  /** `cheri_representable_length`, which yields a wrapped result for lengths near the top of the range. */
  function RepresentableLength(n: nat): nat {
    U64(ReprLen(n))
  }

  /** `align_up_repr`. */
  function AlignUpRepr(off: nat, rounded: nat): nat {
    Down(U64(off + Align(rounded) - 1), Align(rounded))
  }

  datatype Placement = NoFit | Fit(off: nat, next: nat)

  /** One turn of the retry loop before its CAS: the reservation to attempt from cursor `cur`. */
  function Place(cur: nat, rounded: nat, arenaSize: nat): Placement {
    var off := AlignUpRepr(cur, rounded);
    var next := U64(off + rounded);
    if next > arenaSize then NoFit else Fit(off, next)
  }

  /** A reservation of `rounded` bytes from `cur` on stays below 2^64. */
  predicate NoWrap(cur: nat, rounded: nat) {
    Up(cur, Align(rounded)) + rounded < WORD
  }

  /** A size for which no cursor inside the arena makes the reservation wrap. */
  predicate Sound(size: nat, arenaSize: nat) {
    && 0 < size && ReprLen(size) < WORD
    && arenaSize + Align(ReprLen(size)) + ReprLen(size) <= WORD
  }

  lemma SoundNeverWraps(cur: nat, size: nat, arenaSize: nat)
    requires Sound(size, arenaSize) && cur <= arenaSize
    ensures RepresentableLength(size) == ReprLen(size) >= size
    ensures NoWrap(cur, ReprLen(size))
  {
    ReprLenBounds(size);
    UpBounds(cur, Align(ReprLen(size)));
  }

  lemma PlaceWithoutWrap(cur: nat, size: nat, arenaSize: nat)
    requires size > 0 && NoWrap(cur, ReprLen(size))
    ensures var r := ReprLen(size);
      Place(cur, r, arenaSize)
      == if Up(cur, Align(r)) + r > arenaSize then NoFit else Fit(Up(cur, Align(r)), Up(cur, Align(r)) + r)
    ensures cur <= Up(cur, Align(ReprLen(size)))
  {
    var r, al := ReprLen(size), Align(ReprLen(size));
    AlignFits(size);
    UpBounds(cur, al);
    U64Small(cur + al - 1);
    U64Small(Up(cur, al) + r);
  }

  lemma AlignFits(size: nat)
    requires size > 0
    ensures 0 < Align(ReprLen(size)) <= ReprLen(size)
  {
    ReprLenBounds(size);
    ReprLenSelfAligned(size);
    DivisorIsSmaller(Align(ReprLen(size)), ReprLen(size));
  }

  /**
    A placement moves the cursor forward over exactly the reserved bytes if and only if the
    reservation does not wrap; `Up(cur, Align(r)) + r < 2^64` can be checked before the call.
   */
  lemma PlaceAdvancesIff(cur: nat, size: nat, arenaSize: nat)
    requires size > 0 && ReprLen(size) < WORD && cur <= arenaSize < WORD
    requires Place(cur, ReprLen(size), arenaSize).Fit?
    ensures var p, r := Place(cur, ReprLen(size), arenaSize), ReprLen(size);
      (cur <= p.off && p.next == p.off + r) <==> NoWrap(cur, r)
  {
    var r, al := ReprLen(size), Align(ReprLen(size));
    AlignFits(size);
    UpBounds(cur, al);
    if NoWrap(cur, r) {
      PlaceWithoutWrap(cur, size, arenaSize);
    } else if cur + al - 1 < WORD {
      U64Small(cur + al - 1);
      U64Wraps(Up(cur, al) + r);
    } else {
      U64Wraps(cur + al - 1);
      DownBelowAlign(cur + al - 1 - WORD, al);
    }
  }

  lemma DownBelowAlign(x: nat, a: nat)
    requires x < a
    ensures Down(x, a) == 0
  {
    DivModUnique(x, a, 0, x);
  }

  /**
    A request that wraps is not refused: in an arena of 4 MiB with its first page in use, asking
    for 2^64 - 2^54 bytes succeeds and sends the cursor back to 0, so that the next request is
    given the page already handed out.
   */
  lemma WrapReissues()
    ensures var cur, arenaSize, size := 0x1000, 0x40_0000, WORD - 0x40_0000_0000_0000;
      && RepresentableLength(size) == size
      && Place(cur, size, arenaSize) == Fit(0x40_0000_0000_0000, 0)
      && Place(0, ReprLen(64), arenaSize) == Fit(0, 64)
  {
    var cur, size := 0x1000, WORD - 0x40_0000_0000_0000;
    WideAlign();
    var al := 0x40_0000_0000_0000;
    DivModUnique(size + al - 1, al, 0x3ff, al - 1);
    DivModUnique(cur + al - 1, al, 1, cur - 1);
    assert ReprLen(size) == size && Down(cur + al - 1, al) == al;
    U64Small(size);
    U64Small(cur + al - 1);
    U64Wraps(al + size);
    SmallRequest();
  }

  lemma SmallRequest()
    ensures ReprLen(64) == 64 && Place(0, 64, 0x40_0000) == Fit(0, 64)
  {
    assert Pow2(6) == 64;
    BitLenExact(64, 6);
    assert Align(64) == 1;
    ResetReissues(64, 0x40_0000);
  }

  lemma WideAlign()
    ensures Align(WORD - 0x40_0000_0000_0000) == 0x40_0000_0000_0000
  {
    assert Pow2(9) == 0x200;
    Pow2Add(9, 9);
    Pow2Add(18, 18);
    Pow2Add(36, 18);
    Pow2Add(54, 9);
    assert Pow2(54) == 0x40_0000_0000_0000;
    assert Pow2(63) == 0x8000_0000_0000_0000;
    BitLenExact(WORD - 0x40_0000_0000_0000, 63);
  }

  /** A refusal based on a stale cursor is a refusal for every later cursor. */
  lemma NoFitIsForever(cur: nat, later: nat, size: nat, arenaSize: nat)
    requires Sound(size, arenaSize) && cur <= later <= arenaSize
    requires Place(cur, ReprLen(size), arenaSize).NoFit?
    ensures Place(later, ReprLen(size), arenaSize).NoFit?
  {
    SoundNeverWraps(cur, size, arenaSize);
    SoundNeverWraps(later, size, arenaSize);
    PlaceWithoutWrap(cur, size, arenaSize);
    PlaceWithoutWrap(later, size, arenaSize);
    UpMonotone(cur, later, Align(ReprLen(size)));
  }

  /** What one turn from a possibly stale cursor `cur` establishes. */
  lemma TurnFacts(cur: nat, bump: nat, size: nat, arenaSize: nat)
    requires Sound(size, arenaSize) && cur <= bump <= arenaSize
    ensures RepresentableLength(size) == ReprLen(size) >= size
    ensures match Place(cur, ReprLen(size), arenaSize)
      case NoFit => Place(bump, ReprLen(size), arenaSize).NoFit?
      case Fit(off, next) =>
        cur <= off && next == off + ReprLen(size) <= arenaSize && Divides(Align(ReprLen(size)), off)
  {
    SoundNeverWraps(cur, size, arenaSize);
    PlaceWithoutWrap(cur, size, arenaSize);
    UpBounds(cur, Align(ReprLen(size)));
    if Place(cur, ReprLen(size), arenaSize).NoFit? {
      NoFitIsForever(cur, bump, size, arenaSize);
    }
  }

  /**
    From a cursor of zero every request that fits is placed at the arena's first byte: what was
    allocated before a reset is issued again.
   */
  lemma ResetReissues(size: nat, arenaSize: nat)
    requires Sound(size, arenaSize)
    ensures Place(0, ReprLen(size), arenaSize) == if ReprLen(size) > arenaSize then NoFit else Fit(0, ReprLen(size))
  {
    SoundNeverWraps(0, size, arenaSize);
    PlaceWithoutWrap(0, size, arenaSize);
    MultipleHasNoRemainder(0, Align(ReprLen(size)));
    AlignedIsFixed(0, Align(ReprLen(size)));
  }

  /** What happens at a CAS: it fails for no reason, or other threads have moved the cursor first. */
  datatype Interference = Spurious | Others(to: nat)

  class Arena {
    const root: Cap
    const size: nat
    /** `bump_offset`. */
    var bump: nat

    ghost predicate Valid()
      reads this
    {
      RootOk(root) && bump <= size <= root.len
    }

    constructor (root: Cap, size: nat)
      requires RootOk(root) && size <= root.len
      ensures Valid() && bump == 0 && this.root == root && this.size == size
    {
      this.root, this.size, bump := root, size, 0;
    }

    /** The cursor after the interference of one attempt; other threads only move it forward. */
    function Moved(i: Interference): (to: nat)
      requires bump <= size
      reads this
      ensures bump <= to <= size
    {
      if i.Others? && bump <= i.to <= size then i.to else bump
    }

    /**
      `stopless_alloc`. A capability is the exact, tight capability of a reservation above every
      earlier one, and its bounds are now below the cursor. NULL leaves the cursor to the others,
      and then no room is left from the cursor's present value on.
     */
    method Alloc(sizeBytes: nat, env: seq<Interference>) returns (r: Cap)
      requires Valid() && sizeBytes < WORD
      modifies this`bump
      ensures Valid()
      ensures Sound(sizeBytes, size) ==> old(bump) <= bump
      ensures Sound(sizeBytes, size) && r != NULL ==>
        && r == ObjCap(root, r.addr, ReprLen(sizeBytes))
        && Placed(root, r.addr, r.len)
        && root.base + old(bump) <= r.base && r.base + r.len == root.base + bump
      ensures Sound(sizeBytes, size) && r == NULL ==> Place(bump, ReprLen(sizeBytes), size).NoFit?
      ensures sizeBytes == 0 || RepresentableLength(sizeBytes) < sizeBytes ==> r == NULL && bump == old(bump)
      ensures sizeBytes > 0 && RepresentableLength(sizeBytes) >= sizeBytes && env == [] ==>
        match Place(old(bump), RepresentableLength(sizeBytes), size)
        case NoFit => r == NULL && bump == old(bump)
        case Fit(off, next) => r == AllocCap(root, off, sizeBytes) && bump == next
    {
      if sizeBytes == 0 {
        return NULL;
      }
      var rounded := RepresentableLength(sizeBytes);
      if rounded < sizeBytes {
        if Sound(sizeBytes, size) {
          TurnFacts(bump, bump, sizeBytes, size);
        }
        return NULL;
      }
      var cur := bump;
      var attempt := 0;
      var placement := NoFit;
      ghost var sound := Sound(sizeBytes, size);
      while true
        invariant attempt <= |env| && old(bump) <= cur <= bump <= size
        invariant attempt == |env| ==> cur == bump
        invariant attempt == 0 ==> cur == old(bump)
        decreases |env| - attempt
      {
        placement := Place(cur, rounded, size);
        if sound {
          TurnFacts(cur, bump, sizeBytes, size);
        }
        if placement.NoFit? {
          return NULL;
        }
        var spurious := false;
        if attempt < |env| {
          bump := Moved(env[attempt]);
          spurious := env[attempt].Spurious?;
          attempt := attempt + 1;
        }
        if bump == cur && !spurious {
          bump := placement.next;
          break;
        }
        cur := bump;
      }
      r := AllocCap(root, placement.off, sizeBytes);
      if sound {
        RebuildEqualsOriginal(root, placement.off, sizeBytes);
      }
    }

    method Used() returns (n: nat)
      requires Valid()
      ensures n == bump <= size
    {
      n := bump;
    }

    method Reset()
      requires Valid()
      modifies this`bump
      ensures Valid() && bump == 0
    {
      bump := 0;
    }
  }
}
