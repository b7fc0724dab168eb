/**
  The C++ forwarding table (`forwarding_table.cc`) on one thread: the same open addressing as
  the C table, but the first writer of a key wins, a miss answers the argument itself, and a
  table full of other keys drops the mapping without a word.
 */
module CppForwardingTable {
  import opened Prelude
  import opened Representable
  import opened Cheri
  import opened ProbeTable

  /** One slot per 64 bytes of heap, and no fewer than 64. */
  function Target(heapBytes: nat): nat {
    if heapBytes / 64 < 64 then 64 else heapBytes / 64
  }

  class ForwardingTable {
    /** `hash_addr` before masking; nothing below depends on which function it is. */
    const hash: nat -> nat
    /** `slots_`. */
    const slots: array<Slot<Cap>>
    /** `installed_`. */
    var installed: nat

    ghost predicate Valid()
      reads this, slots
    {
      IsPow2(slots.Length) && WF(slots[..], hash) && installed == Occupied(slots[..])
    }

    ghost function Contents(): map<nat, Cap>
      reads this, slots
    {
      Entries(slots[..])
    }

    /** The smallest power of two that holds the target. */
    constructor (hash: nat -> nat, heapBytes: nat)
      ensures Valid() && Contents() == map[] && fresh(slots) && this.hash == hash
      ensures 64 <= slots.Length && heapBytes / 64 <= slots.Length
      ensures slots.Length < 2 * 64 || slots.Length < 2 * (heapBytes / 64)
    {
      var pow2 := 1;
      ghost var e := 0;
      while pow2 < Target(heapBytes)
        invariant pow2 == Pow2(e) && 0 < pow2 < 2 * Target(heapBytes)
        decreases Target(heapBytes) - pow2
      {
        pow2, e := 2 * pow2, e + 1;
      }
      this.hash := hash;
      slots := new Slot<Cap>[pow2](_ => Slot(0, NULL));
      installed := 0;
      new;
      NoEntries(slots[..]);
    }

    /** The first mapping of an address stays; address 0 and a full table are ignored. */
    method Install(from: Cap, to: Cap)
      requires Valid()
      modifies this`installed, slots
      ensures Valid()
      ensures Contents() == InstallOne(old(Contents()), slots.Length, from.addr, to)
      ensures installed == |Contents()|
    {
      var key := from.addr;
      SizeIsOccupied(slots[..], hash);
      if key == 0 {
        return;
      }
      ghost var s, m := slots[..], Contents();
      var n := slots.Length;
      var idx := hash(key) % n;
      IdxHome(hash(key), n);
      for probe := 0 to n
        invariant slots[..] == s && installed == |m|
        invariant idx == Idx(hash(key), probe, n)
        invariant Missed(s, hash(key), key, probe)
      {
        if slots[idx].key == 0 {
          ClaimIsPut(s, hash, key, to, probe);
          slots[idx] := slots[idx].(key := key);
          slots[idx] := slots[idx].(val := to);
          installed := installed + 1;
          assert slots[..] == s[idx := Slot(key, to)];
          return;
        }
        if slots[idx].key == key {
          HitIsEntry(s, hash, key, probe);
          return;
        }
        MissOne(s, hash(key), key, probe);
        idx := (idx + 1) % n;
      }
      StopHere(s, hash(key), key, n);
      ExhaustedMeansFull(s, hash, key);
    }

    method Lookup(from: Cap) returns (r: Cap)
      requires Valid()
      ensures r == if from.addr in Contents() then Contents()[from.addr] else from
    {
      var key := from.addr;
      ghost var s := slots[..];
      SizeIsOccupied(s, hash);
      if key == 0 {
        return from;
      }
      var n := slots.Length;
      var idx := hash(key) % n;
      IdxHome(hash(key), n);
      FindIffEntry(s, hash, key);
      for probe := 0 to n
        invariant idx == Idx(hash(key), probe, n)
        invariant Missed(s, hash(key), key, probe)
      {
        var f := slots[idx].key;
        if f == 0 {
          StopHere(s, hash(key), key, probe);
          return from;
        }
        if f == key {
          HitIsEntry(s, hash, key, probe);
          return slots[idx].val;
        }
        MissOne(s, hash(key), key, probe);
        idx := (idx + 1) % n;
      }
      StopHere(s, hash(key), key, n);
      r := from;
    }

    /** Whatever region is named, the whole table is emptied; destinations stay behind, unreachable. */
    method ClearRegion()
      requires Valid()
      modifies this`installed, slots
      ensures Valid() && Contents() == map[] && installed == 0
    {
      for i := 0 to slots.Length
        modifies slots
        invariant forall q | 0 <= q < i :: slots[q].key == 0
      {
        slots[i] := slots[i].(key := 0);
      }
      installed := 0;
      NoEntries(slots[..]);
    }
  }

  // ------------------------------------------------------------------ sequences of installs

  datatype Pair = Pair(key: nat, to: Cap)

  /** What one install does to a map of at most `n` keys. */
  function InstallOne(m: map<nat, Cap>, n: nat, key: nat, to: Cap): map<nat, Cap> {
    if key == 0 || key in m || |m| >= n then m else m[key := to]
  }

  function InstallAll(n: nat, ps: seq<Pair>): map<nat, Cap> {
    if ps == [] then map[]
    else InstallOne(InstallAll(n, ps[..|ps| - 1]), n, ps[|ps| - 1].key, ps[|ps| - 1].to)
  }

  /** The keys asked for. */
  function KeysOf(ps: seq<Pair>): set<nat> {
    if ps == [] then {}
    else KeysOf(ps[..|ps| - 1]) + if ps[|ps| - 1].key == 0 then {} else {ps[|ps| - 1].key}
  }

  /** Position of the first request for `k`; `|ps|` when there is none. */
  function First(ps: seq<Pair>, k: nat): (p: nat)
    ensures p <= |ps|
    ensures p < |ps| ==> ps[p].key == k
    ensures forall q | 0 <= q < p :: ps[q].key != k
  {
    if ps == [] then 0
    else
      var p := First(ps[..|ps| - 1], k);
      if p < |ps| - 1 || ps[|ps| - 1].key == k then p else |ps|
  }

  lemma {:induction false} KeysAre(ps: seq<Pair>, k: nat)
    ensures k in KeysOf(ps) <==> k != 0 && First(ps, k) < |ps|
  {
    if ps != [] {
      KeysAre(ps[..|ps| - 1], k);
    }
  }

  /** A table with `n` slots holds every key asked for, up to `n` of them. */
  ghost predicate Filled(m: map<nat, Cap>, n: nat, keys: set<nat>) {
    && m.Keys <= keys
    && |m| == (if |keys| < n then |keys| else n)
    && (|keys| <= n ==> m.Keys == keys)
  }

  lemma FilledByOne(m: map<nat, Cap>, n: nat, keys: set<nat>, key: nat, to: Cap)
    requires Filled(m, n, keys)
    ensures Filled(InstallOne(m, n, key, to), n, keys + if key == 0 then {} else {key})
  {
    assert |m.Keys| == |m|;
    if key == 0 || key in keys {
      assert keys + (if key == 0 then {} else {key}) == keys;
      if |m| < n {
        SameSize(m.Keys, keys);
      }
    } else if |m| < n {
      assert InstallOne(m, n, key, to).Keys == m.Keys + {key};
    }
  }

  /** A full table stops taking keys: it holds the lesser of its capacity and the distinct keys asked for. */
  lemma {:induction false} InstalledCount(n: nat, ps: seq<Pair>)
    ensures Filled(InstallAll(n, ps), n, KeysOf(ps))
  {
    if ps != [] {
      InstalledCount(n, ps[..|ps| - 1]);
      FilledByOne(InstallAll(n, ps[..|ps| - 1]), n, KeysOf(ps[..|ps| - 1]), ps[|ps| - 1].key, ps[|ps| - 1].to);
    }
  }

  lemma SameSize(a: set<nat>, b: set<nat>)
    requires a <= b && |a| == |b|
    ensures a == b
  {
    assert b == a + (b - a);
    assert |b| == |a| + |b - a|;
  }

  /**
    First writer wins: after any sequence of installs, looking `k` up yields the destination of
    the first request for it if and only if fewer than `n` distinct keys had been requested by
    then; otherwise the key is not there and lookup answers its argument.
   */
  lemma {:induction false} FirstWriterWins(n: nat, ps: seq<Pair>, k: nat)
    ensures k in InstallAll(n, ps) <==> k in KeysOf(ps) && |KeysOf(ps[..First(ps, k)])| < n
    ensures k in InstallAll(n, ps) ==> First(ps, k) < |ps| && InstallAll(n, ps)[k] == ps[First(ps, k)].to
  {
    KeysAre(ps, k);
    if ps != [] {
      var last, x, p := ps[..|ps| - 1], ps[|ps| - 1], First(ps, k);
      FirstWriterWins(n, last, k);
      KeysAre(last, k);
      InstalledCount(n, last);
      if First(last, k) < |last| {
        assert last[..p] == ps[..p];
      } else if p < |ps| {
        assert ps[..p] == last;
      }
    }
  }
}
