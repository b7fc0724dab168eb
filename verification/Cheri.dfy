/**
  Capabilities and the few CHERI operations the collector performs on them. The hardware is
  outside the repository, so each operation is one specified step: deriving can only shrink
  rights, and anything that would grow them (or leave the bounds) loses its tag.
 */
module Cheri {
  import opened Prelude
  import opened Representable

  datatype Perm = Load | Store | LoadCap | StoreCap | SwVmem

  datatype Cap = Cap(tag: bool, base: nat, len: nat, addr: nat, perms: set<Perm>)

  /** An integer held in a capability register: untagged, derived from NULL. */
  function IntCap(n: nat): Cap {
    Cap(false, 0, WORD - 1, n, {})
  }

  const NULL: Cap := IntCap(0)

  /** `c == NULL` compares addresses. */
  predicate IsNull(c: Cap) {
    c.addr == 0
  }

  /** Not revoked, in either kernel representation (tag cleared, or permissions cleared). */
  predicate Live(c: Cap) {
    c.tag && c.perms != {}
  }

  function AddressSet(c: Cap, a: nat): Cap {
    c.(addr := a, tag := c.tag && c.base <= a <= c.base + c.len)
  }

  /** `cheri_bounds_set`: round the requested region outwards to what can be encoded. */
  function BoundsSet(c: Cap, len: nat): Cap {
    var base := Down(c.addr, Align(len));
    var top := Up(c.addr + len, Align(len));
    c.(base := base, len := top - base, tag := c.tag && c.base <= base && top <= c.base + c.len)
  }

  function StripSwVmem(c: Cap): Cap {
    c.(perms := c.perms - {SwVmem})
  }

  /** The arena root as `mmap` hands it out: page-aligned, hence aligned for its own length. */
  ghost predicate RootOk(root: Cap) {
    && root.tag
    && 0 < root.base == root.addr
    && root.base + root.len < WORD
    && Divides(Align(root.len), root.base)
    && Load in root.perms && SwVmem in root.perms
  }

  /** `[a, a + len)` lies in the arena and has exactly representable bounds. */
  ghost predicate Placed(root: Cap, a: nat, len: nat) {
    && 0 < len
    && root.base <= a && a + len <= root.base + root.len
    && Divides(Align(len), a)
    && Divides(Align(len), len)
  }

  /** The capability the allocator hands out for an object at `a`: tight and sweepable. */
  function ObjCap(root: Cap, a: nat, len: nat): Cap {
    Cap(true, a, len, a, root.perms - {SwVmem})
  }

  /** `stopless_alloc`, lines after the reservation. */
  function AllocCap(root: Cap, off: nat, size: nat): Cap {
    StripSwVmem(BoundsSet(AddressSet(root, root.addr + off), size))
  }

  /** `ft_derive`. */
  function FtDerive(root: Option<Cap>, addr: nat, len: nat): Cap {
    if addr == 0 || root.None? then NULL
    else
      var c := AddressSet(root.value, addr);
      StripSwVmem(if len > 0 then BoundsSet(c, len) else c)
  }

  /** Asking for bounds yields them exactly iff both ends are aligned for that length. */
  lemma BoundsExactIff(c: Cap, len: nat)
    ensures (BoundsSet(c, len).base == c.addr && BoundsSet(c, len).len == len)
       <==> (Divides(Align(len), c.addr) && Divides(Align(len), len))
  {
    var a, al := c.addr, Align(len);
    DownBounds(a, al);
    UpBounds(a + len, al);
    if Divides(al, a) && Divides(al, len) {
      DividesSum(al, a, len);
      AlignedIsFixed(a, al);
      AlignedIsFixed(a + len, al);
    } else if Down(a, al) == a && Up(a + len, al) == a + len {
      DividesSum(al, -a, a + len) by {
        assert -a == -(a / al) * al;
        MultipleHasNoRemainder(-(a / al), al);
      }
    }
  }

  /** Whatever the table stores about a placed object rebuilds to the object's own capability. */
  lemma DerivePlaced(root: Cap, a: nat, len: nat)
    requires RootOk(root) && Placed(root, a, len)
    ensures FtDerive(Some(root), a, len) == ObjCap(root, a, len)
    ensures Live(ObjCap(root, a, len))
  {
    BoundsExactIff(AddressSet(root, a), len);
    assert Load in ObjCap(root, a, len).perms;
  }

  /**
    Every capability the allocator returns is exactly what `ft_derive` rebuilds from its
    address and length, although the allocator asked for `size` bytes and the table for the
    rounded length.
   */
  lemma RebuildEqualsOriginal(root: Cap, off: nat, size: nat)
    requires RootOk(root) && size > 0
    requires Divides(Align(ReprLen(size)), off) && off + ReprLen(size) <= root.len
    ensures var c := AllocCap(root, off, size);
      && c == ObjCap(root, root.base + off, ReprLen(size))
      && FtDerive(Some(root), c.addr, c.len) == c
      && Placed(root, c.addr, c.len)
  {
    var a, r := root.base + off, ReprLen(size);
    ReprLenBounds(size);
    ReprLenSelfAligned(size);
    AlignMonotone(r, root.len);
    DividesTrans(Align(r), Align(root.len), root.base);
    DividesSum(Align(r), root.base, off);
    DividesTrans(Align(size), Align(r), a);
    AlignedIsFixed(a, Align(size));
    UpShift(a, size, Align(size));
    DerivePlaced(root, a, r);
  }

  /**
    Alignment is computed on the arena offset, not on the absolute address. With an arena base
    that is not aligned for the object, the returned bounds start below the object.
   */
  lemma TightIffAbsoluteAligned(root: Cap, off: nat, size: nat)
    requires size > 0
    ensures AllocCap(root, off, size).base == AllocCap(root, off, size).addr
       <==> Divides(Align(size), root.addr + off)
  {
    DownBounds(root.addr + off, Align(size));
    if Divides(Align(size), root.addr + off) {
      AlignedIsFixed(root.addr + off, Align(size));
    }
  }
}
