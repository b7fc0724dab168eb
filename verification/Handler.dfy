/**
  The fault handler's heal core and the identity barrier (`handler.c`). Both decide from the
  capability alone: the base selects the object, the address only the offset inside it.
 */
module Handler {
  import opened Prelude
  import opened Representable
  import opened Cheri
  import opened Chase
  import opened ForwardTable

  /** What the handler can ask: the arena base, the visible table, and the optional evacuation hook. */
  datatype Resolver = Resolver(root: Option<Cap>, table: Fwd, evacuate: Option<nat -> Cap>)

  /** The parts of a fault the handler looks at; `rn` is bits 9..5 of the faulting instruction. */
  datatype Fault = Fault(code: int, rn: nat, siAddr: nat)

  const PROT_CHERI_TAG: int := 2
  const PROT_CHERI_PERM: int := 5

  /** `c0` to `c29`; the handler never touches the others. */
  const REGS: nat := 30

  function Resolve(f: Resolver, k: nat): Cap {
    FtLookup(f.root, f.table, k)
  }

  /** What a register not holding a live capability is replaced by, if anything. */
  function TryReg(f: Resolver, c: Cap): Option<Cap> {
    if Live(c) then None
    else
      var byBase := Resolve(f, c.base);
      var byAddr := if IsNull(byBase) && c.addr != c.base then Resolve(f, c.addr) else NULL;
      if !IsNull(byBase) then WithOffset(byBase, U64(c.addr - c.base))
      else if !IsNull(byAddr) then Some(byAddr)
      else if f.evacuate.Some? && !IsNull(f.evacuate.value(c.base)) then
        WithOffset(f.evacuate.value(c.base), U64(c.addr - c.base))
      else None
  }

  function WithOffset(c: Cap, off: nat): Option<Cap> {
    var moved := if off == 0 then c else AddressSet(c, U64(c.addr + off));
    if IsNull(moved) then None else Some(moved)
  }

  datatype Outcome = Unhealed | Patched(reg: nat, cap: Cap) | SiAddrOnly

  /** The first register from `i` on that can be replaced. */
  function FirstFrom(f: Resolver, file: seq<Cap>, i: nat): (r: nat)
    requires i <= |file|
    ensures i <= r <= |file|
    ensures r < |file| ==> TryReg(f, file[r]).Some?
    ensures forall j | i <= j < r :: TryReg(f, file[j]).None?
    decreases |file| - i
  {
    if i == |file| || TryReg(f, file[i]).Some? then i else FirstFrom(f, file, i + 1)
  }

  /** The decision of `stopless_try_heal`: decoded base register, then a scan, then `si_addr`. */
  function Decide(f: Resolver, file: seq<Cap>, fault: Fault): Outcome
    requires |file| == REGS
  {
    if fault.code != PROT_CHERI_TAG && fault.code != PROT_CHERI_PERM then Unhealed
    else if fault.rn < REGS && TryReg(f, file[fault.rn]).Some? then
      Patched(fault.rn, TryReg(f, file[fault.rn]).value)
    else
      var i := FirstFrom(f, file, 0);
      if i < REGS then Patched(i, TryReg(f, file[i]).value)
      else if !IsNull(Resolve(f, fault.siAddr)) then SiAddrOnly
      else Unhealed
  }

  /** The register file after the decision. */
  function Patch(file: seq<Cap>, o: Outcome): (r: seq<Cap>)
    ensures |r| == |file|
  {
    if o.Patched? && o.reg < |file| then file[o.reg := o.cap] else file
  }

  class TrapFrame {
    /** `cap_x[0..30]`. */
    const capX: array<Cap>
    /** `stopless_handler_faults`. */
    var faults: nat

    constructor (file: seq<Cap>)
      requires |file| == REGS
      ensures fresh(capX) && capX.Length == REGS && capX[..] == file && faults == 0
    {
      capX := new Cap[REGS](i requires 0 <= i < |file| => file[i]);
      faults := 0;
    }

    /** `stopless_try_heal`: at most one register changes, and only when it reports success. */
    method TryHeal(f: Resolver, fault: Fault) returns (healed: bool)
      requires capX.Length == REGS
      modifies capX, this`faults
      ensures capX[..] == Patch(old(capX[..]), Decide(f, old(capX[..]), fault))
      ensures healed <==> !Decide(f, old(capX[..]), fault).Unhealed?
      ensures healed ==> fault.code == 2 || fault.code == 5
      ensures faults == old(faults) + if healed then 1 else 0
    {
      if fault.code != PROT_CHERI_TAG && fault.code != PROT_CHERI_PERM {
        return false;
      }
      var newCap, faultingReg := None, -1;
      if fault.rn < REGS {
        newCap := TryReg(f, capX[fault.rn]);
        if newCap.Some? {
          faultingReg := fault.rn;
        }
      }
      if newCap.None? {
        var i := 0;
        while i < REGS && newCap.None?
          invariant i <= REGS && capX[..] == old(capX[..])
          invariant newCap.None? ==> faultingReg == -1 && FirstFrom(f, capX[..], 0) == FirstFrom(f, capX[..], i)
          invariant newCap.Some? ==>
            faultingReg == FirstFrom(f, capX[..], 0) < REGS && newCap == TryReg(f, capX[faultingReg])
          decreases REGS - i, newCap.None?
        {
          newCap := TryReg(f, capX[i]);
          if newCap.Some? {
            faultingReg := i;
          } else {
            i := i + 1;
          }
        }
      }
      if newCap.None? {
        var last := Resolve(f, fault.siAddr);
        if IsNull(last) {
          return false;
        }
        newCap := Some(last);
      }
      if faultingReg >= 0 {
        capX[faultingReg] := newCap.value;
      }
      faults := faults + 1;
      healed := true;
    }
  }

  // ------------------------------------------------------------------ progress

  function DeadRegs(file: seq<Cap>): nat {
    if file == [] then 0
    else DeadRegs(file[..|file| - 1]) + if Live(file[|file| - 1]) then 0 else 1
  }

  lemma {:induction false} DeadRegsUpdate(file: seq<Cap>, i: nat, c: Cap)
    requires i < |file|
    ensures DeadRegs(file[i := c]) + (if Live(file[i]) then 0 else 1) == DeadRegs(file) + (if Live(c) then 0 else 1)
  {
    var m := |file| - 1;
    if i == m {
      assert file[i := c][..m] == file[..m];
    } else {
      assert file[i := c][..m] == file[..m][i := c];
      DeadRegsUpdate(file[..m], i, c);
    }
  }

  /**
    A heal that patches a live capability lowers the number of revoked registers by one and
    leaves every other register alone.
   */
  lemma HealMakesProgress(f: Resolver, file: seq<Cap>, fault: Fault)
    requires |file| == REGS && Decide(f, file, fault).Patched? && Live(Decide(f, file, fault).cap)
    ensures var o := Decide(f, file, fault);
      && o.reg < REGS && !Live(file[o.reg])
      && DeadRegs(Patch(file, o)) == DeadRegs(file) - 1
      && forall j | 0 <= j < REGS && j != o.reg :: Patch(file, o)[j] == file[j]
  {
    var o := Decide(f, file, fault);
    DeadRegsUpdate(file, o.reg, o.cap);
  }

  /** Neither the base nor the address of this revoked capability is forwarded, and a hook is installed. */
  predicate AsksHook(f: Resolver, c: Cap) {
    !Live(c) && f.evacuate.Some? && IsNull(Resolve(f, c.base)) && (c.addr == c.base || IsNull(Resolve(f, c.addr)))
  }

  /**
    The hook is asked with the base, and its copy is carried to the offset of the faulting pointer:
    same bounds and rights, address moved by exactly as much as the pointer was past its base.
   */
  lemma HookGivesOffset(f: Resolver, c: Cap)
    requires AsksHook(f, c)
    ensures var h := f.evacuate.value(c.base);
      && (IsNull(h) ==> TryReg(f, c) == None)
      && (!IsNull(h) && c.base <= c.addr && h.addr + (c.addr - c.base) < WORD ==>
            && TryReg(f, c).Some?
            && var n := TryReg(f, c).value;
               && n.base == h.base && n.len == h.len && n.perms == h.perms
               && n.addr == h.addr + (c.addr - c.base)
               && (Live(h) && h.base <= h.addr && n.addr <= h.base + h.len ==> Live(n)))
  {
    var h := f.evacuate.value(c.base);
    if !IsNull(h) && c.base <= c.addr && h.addr + (c.addr - c.base) < WORD {
      U64Small(c.addr - c.base);
      U64Small(h.addr + (c.addr - c.base));
    }
  }

  /** What the handler does with the hook's answer when the decoded base register faulted. */
  lemma HookHealsBaseRegister(f: Resolver, file: seq<Cap>, fault: Fault)
    requires |file| == REGS && (fault.code == 2 || fault.code == 5) && fault.rn < 30 && AsksHook(f, file[fault.rn])
    requires var c := file[fault.rn]; c.base <= c.addr && f.evacuate.value(c.base).addr + (c.addr - c.base) < WORD
    ensures var c := file[fault.rn];
      var h := f.evacuate.value(c.base);
      if IsNull(h) then Decide(f, file, fault).Patched? ==> Decide(f, file, fault).reg != fault.rn
      else
        && Decide(f, file, fault).Patched? && Decide(f, file, fault).reg == fault.rn
        && var n := Decide(f, file, fault).cap;
           n.base == h.base && n.len == h.len && n.perms == h.perms && n.addr == h.addr + (c.addr - c.base)
  {
    HookGivesOffset(f, file[fault.rn]);
    hide TryReg;
    assert FirstFrom(f, file, 0) < |file| ==> TryReg(f, file[FirstFrom(f, file, 0)]).Some?;
  }

  /** A sequence of faults, each handled before the next. */
  function Retry(f: Resolver, file: seq<Cap>, faults: seq<Fault>): (r: seq<Cap>)
    requires |file| == REGS
    ensures |r| == REGS
  {
    if faults == [] then file
    else
      var last := Retry(f, file, faults[..|faults| - 1]);
      Patch(last, Decide(f, last, faults[|faults| - 1]))
  }

  /** Every one of the faults is handled by patching a live capability. */
  predicate AllHeal(f: Resolver, file: seq<Cap>, faults: seq<Fault>)
    requires |file| == REGS
  {
    faults == []
    || (AllHeal(f, file, faults[..|faults| - 1])
        && var last := Retry(f, file, faults[..|faults| - 1]);
           var o := Decide(f, last, faults[|faults| - 1]);
           o.Patched? && Live(o.cap))
  }

  lemma {:induction false} DeadRegsBound(file: seq<Cap>)
    ensures DeadRegs(file) <= |file|
  {
    if file != [] {
      DeadRegsBound(file[..|file| - 1]);
    }
  }

  /**
    Retries of one instruction: no more faults in a row can be healed than registers were not
    loadable, hence at most 30, because each heal lowers their number by exactly one.
   */
  lemma {:induction false} RetriesAreBounded(f: Resolver, file: seq<Cap>, faults: seq<Fault>)
    requires |file| == REGS && AllHeal(f, file, faults)
    ensures DeadRegs(Retry(f, file, faults)) == DeadRegs(file) - |faults|
    ensures |faults| <= DeadRegs(file) <= 30
  {
    DeadRegsBound(file);
    if faults != [] {
      var last := Retry(f, file, faults[..|faults| - 1]);
      RetriesAreBounded(f, file, faults[..|faults| - 1]);
      HealMakesProgress(f, last, faults[|faults| - 1]);
    }
  }

  // ------------------------------------------------------------------ identity barrier

  /** `stopless_acmp_normalize`. */
  function Normalize(f: Resolver, c: Cap): nat {
    if IsNull(c) then 0
    else if Live(c) then c.addr
    else
      var fwd := Resolve(f, c.base);
      if IsNull(fwd) then c.addr else U64(fwd.addr + (c.addr - c.base))
  }

  /** `stopless_acmp_eq`. */
  function AcmpEq(f: Resolver, a: Cap, b: Cap): bool {
    Normalize(f, a) == Normalize(f, b)
  }

  /**
    The whole barrier: equal addresses are equal, unequal addresses of two tagged capabilities
    are unequal, and only otherwise is `stopless_acmp_eq` called.
   */
  function AcmpBarrier(f: Resolver, a: Cap, b: Cap): bool {
    if a.addr == b.addr then true
    else if a.tag && b.tag then false
    else AcmpEq(f, a, b)
  }

  // ------------------------------------------------------------------ concrete failures

  /** An arena of 4096 bytes at 65536, whose first object, of 16 bytes, has moved to 65792. */
  const ROOT: Cap := Cap(true, 0x1_0000, 0x1000, 0x1_0000, {Load, SwVmem})
  const OLD: nat := 0x1_0000
  const NEW: nat := 0x1_0100

  function OneMoved(): Resolver {
    Resolver(Some(ROOT), map[OLD := Entry(NEW, 16)], None)
  }

  lemma ArenaAlignments()
    ensures Align(16) == 1 && Align(0x1000) == 8 && ReprLen(16) == 16
    ensures RootOk(ROOT) && Placed(ROOT, OLD, 16) && Placed(ROOT, NEW, 16)
  {
    assert Pow2(4) == 16 && Pow2(12) == 4096 by {
      assert Pow2(6) == 64;
      Pow2Add(6, 6);
    }
    BitLenExact(16, 4);
    BitLenExact(0x1000, 12);
    assert Align(16) == 1 && Align(0x1000) == 8;
    DivModUnique(OLD, 8, 0x2000, 0);
  }

  lemma OneMovedResolves()
    ensures Resolve(OneMoved(), OLD) == ObjCap(ROOT, NEW, 16)
    ensures Resolve(OneMoved(), 0) == NULL
  {
    ArenaAlignments();
    DerivePlaced(ROOT, NEW, 16);
    assert Lookup(OneMoved().table, OLD) == Some(Entry(NEW, 16));
  }

  /**
    The scan mistakes an integer for an old reference: with the number 65536 in `c0` and no
    revoked reference in any register, a fault overwrites the number with a capability.
   */
  lemma ScanOverwritesInteger(file: seq<Cap>, siAddr: nat)
    requires |file| == REGS && file[0] == IntCap(OLD)
    ensures Decide(OneMoved(), file, Fault(PROT_CHERI_TAG, 31, siAddr)) == Patched(0, ObjCap(ROOT, NEW, 16))
  {
    OneMovedResolves();
    assert TryReg(OneMoved(), IntCap(OLD)) == Some(ObjCap(ROOT, NEW, 16));
  }

  /**
    Two references to one object that the barrier calls different although the slow path knows
    better: the stale one kept its tag and lost its permissions.
   */
  lemma SecondTierMisses()
    ensures var stale, current := Cap(true, OLD, 16, OLD, {}), ObjCap(ROOT, NEW, 16);
      && !Live(stale) && Live(current)
      && AcmpEq(OneMoved(), stale, current) && !AcmpBarrier(OneMoved(), stale, current)
  {
    OneMovedResolves();
    U64Small(NEW);
    assert Load in ObjCap(ROOT, NEW, 16).perms;
  }
}
