/**
  The C forwarding table (`forward_table.c`), operation by operation, over its real slot array.
  Each operation is proved against the finite map the array stands for (`Contents`). These
  are the single-threaded meanings; module CasInsert interleaves the atomic steps.
 */
module ForwardTable {
  import opened Prelude
  import opened Representable
  import opened Cheri
  import opened ProbeTable
  import opened Chase

  /** `FT_INITIAL_CAP`. */
  const FT_INITIAL_CAP: nat := 0x1_0000

  /** `forward_table_lookup` as a function of what the table makes visible. */
  function FtLookup(root: Option<Cap>, v: Fwd, k: nat): Cap {
    match Lookup(v, k)
    case None => NULL
    case Some(e) => FtDerive(root, e.addr, e.len)
  }

  lemma InitialCapIsPow2()
    ensures IsPow2(FT_INITIAL_CAP)
  {
    assert Pow2(8) == 256;
    Pow2Add(8, 8);
    assert FT_INITIAL_CAP == Pow2(16);
  }

  class ForwardingTable {
    /** The slot-selecting hash; nothing below depends on which function it is. */
    const mix: nat -> nat
    /** `g_table`, NULL until first use. */
    var table: array?<Slot<Entry>>
    /** `g_capacity`; `& mask` is `% capacity` because it is a power of two. */
    var capacity: nat
    /** `g_size`. */
    var size: nat
    /** `g_arena_base`. */
    var arenaBase: Option<Cap>

    ghost predicate Valid()
      reads this, table
    {
      && (table == null ==> size == 0)
      && (table != null ==>
            && capacity == table.Length
            && IsPow2(capacity)
            && WF(table[..], mix)
            && size == Occupied(table[..]))
    }

    ghost function Contents(): Fwd
      reads this, table
    {
      if table == null then map[] else Entries(table[..])
    }

    /** Number of slots the next store will find. */
    ghost function Slots(): nat
      reads this
    {
      if table == null then FT_INITIAL_CAP else capacity
    }

    constructor (mix: nat -> nat)
      ensures Valid() && Contents() == map[] && table == null
      ensures this.mix == mix && arenaBase == None
    {
      this.mix := mix;
      table, capacity, size, arenaBase := null, 0, 0, None;
    }

    method SetArenaBase(base: Cap)
      requires Valid()
      modifies this`arenaBase
      ensures Valid() && Contents() == old(Contents()) && arenaBase == Some(base)
    {
      arenaBase := Some(base);
    }

    method Init()
      requires Valid()
      modifies this`table, this`capacity, this`size
      ensures Valid() && Contents() == old(Contents())
      ensures table != null && Slots() == old(Slots()) && size == old(size)
      ensures old(table) != null ==> table == old(table)
      ensures old(table) == null ==> fresh(table)
    {
      if table != null {
        return;
      }
      var t := new Slot<Entry>[FT_INITIAL_CAP](_ => Slot(0, Entry(0, 0)));
      capacity := FT_INITIAL_CAP;
      table := t;
      size := 0;
      NoEntries(t[..]);
      InitialCapIsPow2();
    }

    method Clear()
      requires Valid()
      modifies this`size, table
      ensures Valid() && Contents() == map[] && table == old(table) && Slots() == old(Slots())
    {
      if table == null {
        return;
      }
      for j := 0 to table.Length
        modifies table
        invariant forall q | 0 <= q < j :: table[q].key == 0
      {
        table[j] := Slot(0, Entry(0, 0));
      }
      size := 0;
      NoEntries(table[..]);
    }

    /**
      Re-inserts every mapping into a table of twice the size once the load reaches 70 percent.
      The map is unchanged, and unless memory ran out an immediate second call does nothing.
     */
    method MaybeGrow(callocOk: bool)
      requires Valid()
      modifies this`table, this`capacity, this`size
      ensures Valid() && Contents() == old(Contents()) && size == old(size)
      ensures old(table) == null ==> Slots() == FT_INITIAL_CAP && table != null
      ensures old(table) != null ==>
        Slots() == if size * 10 < old(capacity) * 7 || !callocOk then old(capacity) else 2 * old(capacity)
      ensures table != old(table) ==> fresh(table)
      ensures callocOk ==> size * 10 < Slots() * 7
    {
      if table == null {
        Init();
        return;
      }
      if size * 10 < capacity * 7 {
        return;
      }
      if !callocOk {
        return;
      }
      var newcap := capacity * 2;
      var nt := new Slot<Entry>[newcap](_ => Slot(0, Entry(0, 0)));
      RehashInto(table, nt);
      ghost var e: nat :| capacity == Pow2(e);
      assert newcap == Pow2(e + 1);
      capacity := newcap;
      table := nt;
    }

    /** The rehash loop of `MaybeGrow`: nothing is lost, and every probe run is rebuilt. */
    method RehashInto(previous: array<Slot<Entry>>, nt: array<Slot<Entry>>)
      requires previous != nt && WF(previous[..], mix) && nt.Length == 2 * previous.Length
      requires forall q | 0 <= q < nt.Length :: nt[q].key == 0
      modifies nt
      ensures WF(nt[..], mix) && Entries(nt[..]) == Entries(previous[..])
      ensures Occupied(nt[..]) == Occupied(previous[..])
    {
      ghost var s, empty := previous[..], nt[..];
      WFUnique(s, mix);
      for j := 0 to previous.Length
        invariant previous[..] == s
        invariant nt[..] == Rehash(s[..j], empty, mix)
      {
        assert s[..j + 1][..j] == s[..j];
        if previous[j].key != 0 {
          FreshKeyStops(s, j, empty, mix);
          PlaceFresh(nt, previous[j]);
        }
      }
      assert s[..previous.Length] == s;
      RehashKeepsMap(s, empty, mix);
    }

    /** Copy one slot into the first free slot of its probe run. */
    method PlaceFresh(nt: array<Slot<Entry>>, x: Slot<Entry>)
      requires nt.Length > 0 && x.key != 0
      requires var stop := Scan(nt[..], mix(x.key), x.key, 0);
        stop < nt.Length && nt[Idx(mix(x.key), stop, nt.Length)].key == 0
      modifies nt
      ensures nt[..] == Put(old(nt[..]), mix, x.key, x.val)
    {
      ghost var s, stop := nt[..], Scan(nt[..], mix(x.key), x.key, 0);
      var n := nt.Length;
      var i := mix(x.key) % n;
      ghost var p := 0;
      while nt[i].key != 0
        invariant p <= stop && i == Idx(mix(x.key), p, n)
        invariant nt[..] == s
        decreases stop - p
      {
        IdxStep(mix(x.key), p, n);
        i := (i + 1) % n;
        p := p + 1;
      }
      FreeStops(s, mix(x.key), x.key, p);
      nt[i] := nt[i].(val := nt[i].val.(len := x.val.len));
      nt[i] := nt[i].(val := nt[i].val.(addr := x.val.addr));
      nt[i] := nt[i].(key := x.key);
      assert nt[..] == s[i := Slot(x.key, x.val)];
    }

    /**
      Adds or overwrites one mapping. It takes effect whenever the key is present or a slot is
      free, and otherwise changes nothing. Inserting NULL hides the key (`Visible`).
     */
    method Insert(from: nat, newCap: Cap)
      requires Valid() && from != 0
      modifies this`table, this`capacity, this`size, table
      ensures Valid() && Slots() == old(Slots())
      ensures Contents() ==
        if from in old(Contents()) || |old(Contents())| < old(Slots())
        then old(Contents())[from := Entry(newCap.addr, newCap.len)]
        else old(Contents())
    {
      Init();
      var t := table;
      ghost var s := t[..];
      var n := capacity;
      var i := mix(from) % n;
      IdxHome(mix(from), n);
      for probe := 0 to n
        invariant Valid() && table == t && t[..] == s && n == capacity
        invariant i == Idx(mix(from), probe, n)
        invariant Missed(s, mix(from), from, probe)
      {
        var k := t[i].key;
        if k == 0 || k == from {
          StopHere(s, mix(from), from, probe);
          StopMeansRoom(s, mix, from);
          PutCorrect(s, mix, from, Entry(newCap.addr, newCap.len));
          FindIffEntry(s, mix, from);
          t[i] := t[i].(val := t[i].val.(len := newCap.len));
          t[i] := t[i].(val := t[i].val.(addr := newCap.addr));
          t[i] := t[i].(key := from);
          assert t[..] == Put(s, mix, from, Entry(newCap.addr, newCap.len));
          if k == 0 {
            size := size + 1;
          }
          return;
        }
        MissOne(s, mix(from), from, probe);
        i := (i + 1) % n;
      }
      StopHere(s, mix(from), from, n);
      ExhaustedMeansFull(s, mix, from);
    }

    /**
      Insert-or-get. The caller either installs its own destination or learns where the object
      already went; it gets NULL only from a table full of other keys (or a chain that is too
      long). `None` stands for a call that never comes back: the key was hidden by a NULL
      insertion, and the caller waits for an address nobody will store.
     */
    method CasInsert(from: nat, newCap: Cap) returns (r: Option<Cap>)
      requires Valid() && from != 0
      modifies this`table, this`capacity, this`size, table
      ensures Valid() && Slots() == old(Slots()) && arenaBase == old(arenaBase)
      ensures r.None? <==> from in old(Contents()) && old(Contents())[from].addr == 0
      ensures from in old(Contents()) ==>
        Contents() == old(Contents())
        && (r.Some? ==> r.value == FtLookup(arenaBase, Visible(old(Contents())), from))
      ensures from !in old(Contents()) && |old(Contents())| < old(Slots()) ==>
        && Contents() == old(Contents())[from := Entry(newCap.addr, newCap.len)]
        && r == Some(FtDerive(arenaBase, newCap.addr, newCap.len))
      ensures from !in old(Contents()) && |old(Contents())| >= old(Slots()) ==>
        Contents() == old(Contents()) && r == Some(NULL)
    {
      Init();
      var t := table;
      ghost var s := t[..];
      var n := capacity;
      var i := mix(from) % n;
      IdxHome(mix(from), n);
      for probe := 0 to n
        invariant Valid() && table == t && t[..] == s && n == capacity
        invariant i == Idx(mix(from), probe, n)
        invariant Missed(s, mix(from), from, probe)
      {
        var k := t[i].key;
        if k == from {
          HitIsEntry(s, mix, from, probe);
          if t[i].val.addr == 0 {
            return None;
          }
          var found := LookupCap(from);
          return Some(found);
        }
        if k == 0 {
          ClaimIsPut(s, mix, from, Entry(newCap.addr, newCap.len), probe);
          t[i] := t[i].(key := from);
          t[i] := t[i].(val := t[i].val.(len := newCap.len));
          t[i] := t[i].(val := t[i].val.(addr := newCap.addr));
          assert t[..] == s[i := Slot(from, Entry(newCap.addr, newCap.len))];
          size := size + 1;
          return Some(FtDerive(arenaBase, newCap.addr, newCap.len));
        }
        MissOne(s, mix(from), from, probe);
        i := (i + 1) % n;
      }
      StopHere(s, mix(from), from, n);
      ExhaustedMeansFull(s, mix, from);
      r := Some(NULL);
    }

    /** One hop: the visible mapping of `from`, if any. */
    method FtFind(from: nat) returns (hit: bool, e: Entry)
      requires Valid()
      ensures hit <==> from in Visible(Contents())
      ensures hit ==> e == Visible(Contents())[from]
    {
      hit, e := false, Entry(0, 0);
      if table == null {
        return;
      }
      ghost var s := table[..];
      var n := capacity;
      var i := mix(from) % n;
      IdxHome(mix(from), n);
      FindIffEntry(s, mix, from);
      for probe := 0 to n
        invariant i == Idx(mix(from), probe, n)
        invariant Missed(s, mix(from), from, probe)
      {
        var k := table[i].key;
        if k == 0 {
          StopHere(s, mix(from), from, probe);
          return;
        }
        if k == from {
          StopHere(s, mix(from), from, probe);
          var a := table[i].val.addr;
          if a == 0 {
            return;
          }
          return true, Entry(a, table[i].val.len);
        }
        MissOne(s, mix(from), from, probe);
        i := (i + 1) % n;
      }
      StopHere(s, mix(from), from, n);
    }

    /** The transitive lookup. */
    method LookupCap(from: nat) returns (r: Cap)
      requires Valid()
      ensures r == FtLookup(arenaBase, Visible(Contents()), from)
    {
      var hit, e := FtFind(from);
      if !hit {
        return NULL;
      }
      ghost var v := Visible(Contents());
      var depth := 0;
      while true
        invariant depth <= CHASE_MAX
        invariant Lookup(v, from) == ChaseFrom(v, e, depth)
        decreases CHASE_MAX - depth
      {
        if depth >= CHASE_MAX {
          return NULL;
        }
        var more, next := FtFind(e.addr);
        if !more || next.addr == e.addr {
          break;
        }
        e := next;
        depth := depth + 1;
      }
      r := FtDerive(arenaBase, e.addr, e.len);
    }
  }

  /** While growing, the next key is new to the table under construction and will find a slot. */
  lemma FreshKeyStops(s: seq<Slot<Entry>>, j: nat, empty: seq<Slot<Entry>>, hash: nat -> nat)
    requires UniqueKeys(s) && j < |s| && s[j].key != 0 && |empty| == 2 * |s|
    requires forall q | 0 <= q < |empty| :: empty[q].key == 0
    ensures var t, k := Rehash(s[..j], empty, hash), s[j].key;
      Scan(t, hash(k), k, 0) < |t| && t[Idx(hash(k), Scan(t, hash(k), k, 0), |t|)].key == 0
  {
    var t, k := Rehash(s[..j], empty, hash), s[j].key;
    RehashKeepsMap(s[..j], empty, hash);
    EntriesAre(s[..j]);
    FindIffEntry(t, hash, k);
    WFUnique(t, hash);
    EntriesAre(t);
    assert k !in Entries(t);
    PutHasRoom(t, hash, k);
  }

  /** Hiding a key by inserting NULL hides that key only. */
  lemma NullInsertHidesOneKey(m: Fwd, k: nat)
    ensures Visible(m[k := Entry(NULL.addr, NULL.len)]) == Visible(m) - {k}
  {
  }
}
