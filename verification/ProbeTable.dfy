/**
  Open addressing with linear probing, on values. A slot is empty when its key is 0; the
  table is correct for every hash function. Both forwarding tables of the repository (the C
  one and the C++ one) refine these functions, differing only in their duplicate rule.
 */
module ProbeTable {
  import opened Prelude

  datatype Slot<V> = Slot(key: nat, val: V)

  /** The `p`-th slot of the probe run that starts at `h`, wrapping at the table's end. */
  function Idx(h: nat, p: nat, n: nat): (i: nat)
    requires n > 0
    ensures i < n
  {
    (h + p) % n
  }

  /** A slot at which probing for `k` stops. */
  predicate Stops<V>(s: seq<Slot<V>>, h: nat, k: nat, p: nat)
    requires |s| > 0
  {
    s[Idx(h, p, |s|)].key == 0 || s[Idx(h, p, |s|)].key == k
  }

  /** The first probe, from `p` on, that stops; `|s|` when none does. */
  function Scan<V>(s: seq<Slot<V>>, h: nat, k: nat, p: nat): (r: nat)
    requires |s| > 0 && p <= |s|
    ensures p <= r <= |s|
    ensures forall q | p <= q < r :: !Stops(s, h, k, q)
    ensures r < |s| ==> Stops(s, h, k, r)
    decreases |s| - p
  {
    if p == |s| || Stops(s, h, k, p) then p else Scan(s, h, k, p + 1)
  }

  /** The index probing for `k` ends at, when that slot holds `k`. */
  function Find<V>(s: seq<Slot<V>>, hash: nat -> nat, k: nat): (r: Option<nat>)
    requires |s| > 0
    ensures r.Some? ==> r.value < |s| && s[r.value].key == k != 0
  {
    var p := Scan(s, hash(k), k, 0);
    if p < |s| && s[Idx(hash(k), p, |s|)].key == k != 0 then Some(Idx(hash(k), p, |s|)) else None
  }

  /** Store `v` under `k` at the slot probing stops at; unchanged when the table is full of others. */
  function Put<V>(s: seq<Slot<V>>, hash: nat -> nat, k: nat, v: V): (r: seq<Slot<V>>)
    requires |s| > 0
    ensures |r| == |s|
  {
    var p := Scan(s, hash(k), k, 0);
    if p < |s| then s[Idx(hash(k), p, |s|) := Slot(k, v)] else s
  }

  /** Probing for the key of an occupied slot ends at that very slot. */
  ghost predicate Settled<V>(s: seq<Slot<V>>, hash: nat -> nat, j: nat)
    requires j < |s|
  {
    s[j].key != 0 ==> Find(s, hash, s[j].key) == Some(j)
  }

  /** The probe-run invariant; it subsumes uniqueness of keys. */
  ghost predicate WF<V>(s: seq<Slot<V>>, hash: nat -> nat) {
    |s| > 0 && forall j | 0 <= j < |s| :: Settled(s, hash, j)
  }

  /** The finite map a slot sequence stands for. */
  function Entries<V>(s: seq<Slot<V>>): map<nat, V> {
    if s == [] then map[]
    else
      var m, x := Entries(s[..|s| - 1]), s[|s| - 1];
      if x.key == 0 then m else m[x.key := x.val]
  }

  function Occupied<V>(s: seq<Slot<V>>): (n: nat)
    ensures n <= |s|
  {
    if s == [] then 0 else Occupied(s[..|s| - 1]) + if s[|s| - 1].key == 0 then 0 else 1
  }

  ghost predicate UniqueKeys<V>(s: seq<Slot<V>>) {
    forall i, j | 0 <= i < j < |s| && s[i].key != 0 :: s[i].key != s[j].key
  }

  // ------------------------------------------------------------------ probe runs

  lemma IdxInjective(h: nat, p: nat, q: nat, n: nat)
    requires p < q < n
    ensures Idx(h, p, n) != Idx(h, q, n)
  {
    var a, b := (h + p) / n, (h + q) / n;
    assert h + p == a * n + Idx(h, p, n) && h + q == b * n + Idx(h, q, n);
    assert (b - a) * n == q - p + Idx(h, p, n) - Idx(h, q, n);
    MultipleGap(b - a, n);
  }

  /** A probe run visits every slot. */
  lemma IdxSurjective(h: nat, j: nat, n: nat) returns (p: nat)
    requires j < n
    ensures p < n && Idx(h, p, n) == j
  {
    p := (j + n - h % n) % n;
    if h % n <= j {
      DivModUnique(j + n - h % n, n, 1, j - h % n);
      DivModUnique(h + p, n, h / n, j);
    } else {
      DivModUnique(j + n - h % n, n, 0, j + n - h % n);
      assert h + p == (h / n + 1) * n + j;
      DivModUnique(h + p, n, h / n + 1, j);
    }
  }

  /** One probe step. */
  lemma IdxStep(h: nat, p: nat, n: nat)
    requires n > 0
    ensures Idx(h, p + 1, n) == (Idx(h, p, n) + 1) % n
  {
    var i := Idx(h, p, n);
    assert h + p == (h + p) / n * n + i;
    if i + 1 == n {
      DivModUnique(h + p + 1, n, (h + p) / n + 1, 0);
      DivModUnique(i + 1, n, 1, 0);
    } else {
      DivModUnique(h + p + 1, n, (h + p) / n, i + 1);
    }
  }

  lemma IdxHome(h: nat, n: nat)
    requires n > 0
    ensures Idx(h, 0, n) == h % n
  {
  }

  /** `Scan` is the unique first stop. */
  lemma ScanIs<V>(s: seq<Slot<V>>, h: nat, k: nat, p: nat)
    requires |s| > 0 && p <= |s|
    requires forall q | 0 <= q < p :: !Stops(s, h, k, q)
    requires p < |s| ==> Stops(s, h, k, p)
    ensures Scan(s, h, k, 0) == p
  {
  }

  /** The first `p` probes for `k` met other keys only. */
  ghost predicate Missed<V>(s: seq<Slot<V>>, h: nat, k: nat, p: nat)
    requires |s| > 0
  {
    forall q | 0 <= q < p :: !Stops(s, h, k, q)
  }

  /** One more probe that meets another key. */
  lemma MissOne<V>(s: seq<Slot<V>>, h: nat, k: nat, p: nat)
    requires p < |s| && Missed(s, h, k, p)
    requires s[Idx(h, p, |s|)].key != 0 && s[Idx(h, p, |s|)].key != k
    ensures Missed(s, h, k, p + 1) && Idx(h, p + 1, |s|) == (Idx(h, p, |s|) + 1) % |s|
  {
    assert !Stops(s, h, k, p);
    IdxStep(h, p, |s|);
  }

  /** The probe that ends the run, or the end of the table, is where `Scan` stops. */
  lemma StopHere<V>(s: seq<Slot<V>>, h: nat, k: nat, p: nat)
    requires 0 < |s| && p <= |s| && Missed(s, h, k, p)
    requires p < |s| ==> s[Idx(h, p, |s|)].key == 0 || s[Idx(h, p, |s|)].key == k
    ensures Scan(s, h, k, 0) == p
  {
    assert p < |s| ==> Stops(s, h, k, p);
    ScanIs(s, h, k, p);
  }

  /** The first free slot met on the way is where the run ends. */
  lemma FreeStops<V>(s: seq<Slot<V>>, h: nat, k: nat, p: nat)
    requires p < |s| && p <= Scan(s, h, k, 0) && s[Idx(h, p, |s|)].key == 0
    ensures Scan(s, h, k, 0) == p
  {
    assert Stops(s, h, k, p);
  }

  /** With a free slot anywhere, no probe run is exhausted. */
  lemma ScanStops<V>(s: seq<Slot<V>>, h: nat, k: nat, j: nat)
    requires j < |s| && (s[j].key == 0 || s[j].key == k)
    ensures Scan(s, h, k, 0) < |s|
  {
    var p := IdxSurjective(h, j, |s|);
    assert Stops(s, h, k, p);
  }

  lemma {:induction false} FreeSlot<V>(s: seq<Slot<V>>) returns (j: nat)
    requires Occupied(s) < |s|
    ensures j < |s| && s[j].key == 0
  {
    if s[|s| - 1].key == 0 {
      j := |s| - 1;
    } else {
      j := FreeSlot(s[..|s| - 1]);
    }
  }

  lemma {:induction false} FullMeansOccupied<V>(s: seq<Slot<V>>)
    requires forall j | 0 <= j < |s| :: s[j].key != 0
    ensures Occupied(s) == |s|
  {
    if s != [] {
      assert forall j | 0 <= j < |s| - 1 :: s[..|s| - 1][j] == s[j];
      FullMeansOccupied(s[..|s| - 1]);
    }
  }

  // ------------------------------------------------------------------ the abstract map

  lemma WFUnique<V>(s: seq<Slot<V>>, hash: nat -> nat)
    requires WF(s, hash)
    ensures UniqueKeys(s)
  {
    forall i, j | 0 <= i < j < |s| && s[i].key != 0
      ensures s[i].key != s[j].key
    {
      assert Settled(s, hash, i) && Settled(s, hash, j);
    }
  }

  lemma {:induction false} EntriesAre<V>(s: seq<Slot<V>>)
    requires UniqueKeys(s)
    ensures forall j | 0 <= j < |s| && s[j].key != 0 :: s[j].key in Entries(s) && Entries(s)[s[j].key] == s[j].val
    ensures forall k | k in Entries(s) :: k != 0 && exists j :: 0 <= j < |s| && s[j].key == k
    ensures |Entries(s)| == Occupied(s)
  {
    if s != [] {
      var t := s[..|s| - 1];
      assert forall j | 0 <= j < |t| :: t[j] == s[j];
      EntriesAre(t);
      var x := s[|s| - 1];
      assert x.key in Entries(t) ==> x.key == 0;
      forall k | k in Entries(s)
        ensures k != 0 && exists j :: 0 <= j < |s| && s[j].key == k
      {
        if k in Entries(t) {
          var j :| 0 <= j < |t| && t[j].key == k;
          assert s[j].key == k;
        } else {
          assert s[|s| - 1].key == k;
        }
      }
    }
  }

  /** Probing is sound and complete: it finds `k` exactly when the map has it, with its value. */
  lemma FindIffEntry<V>(s: seq<Slot<V>>, hash: nat -> nat, k: nat)
    requires WF(s, hash)
    ensures Find(s, hash, k).Some? <==> k in Entries(s)
    ensures Find(s, hash, k).Some? ==> Entries(s)[k] == s[Find(s, hash, k).value].val
  {
    WFUnique(s, hash);
    EntriesAre(s);
    if k in Entries(s) {
      var j :| 0 <= j < |s| && s[j].key == k;
      assert Settled(s, hash, j);
    }
  }

  /** A store succeeds whenever the key is present or a slot is free. */
  lemma PutHasRoom<V>(s: seq<Slot<V>>, hash: nat -> nat, k: nat)
    requires WF(s, hash)
    requires k in Entries(s) || |Entries(s)| < |s|
    ensures Scan(s, hash(k), k, 0) < |s|
  {
    WFUnique(s, hash);
    EntriesAre(s);
    if k in Entries(s) {
      var j :| 0 <= j < |s| && s[j].key == k;
      ScanStops(s, hash(k), k, j);
    } else {
      var j := FreeSlot(s);
      ScanStops(s, hash(k), k, j);
    }
  }

  lemma {:induction false} FreeMeansRoom<V>(s: seq<Slot<V>>, j: nat)
    requires j < |s| && s[j].key == 0
    ensures Occupied(s) < |s|
  {
    if j < |s| - 1 {
      FreeMeansRoom(s[..|s| - 1], j);
    }
  }

  /** Stopping within the table means the key is present or there is room for it. */
  lemma StopMeansRoom<V>(s: seq<Slot<V>>, hash: nat -> nat, k: nat)
    requires WF(s, hash) && k != 0 && Scan(s, hash(k), k, 0) < |s|
    ensures k in Entries(s) || |Entries(s)| < |s|
  {
    WFUnique(s, hash);
    EntriesAre(s);
    var i := Idx(hash(k), Scan(s, hash(k), k, 0), |s|);
    if s[i].key == 0 {
      FreeMeansRoom(s, i);
    }
  }

  /** An exhausted probe run means a table full of other keys. */
  lemma ExhaustedMeansFull<V>(s: seq<Slot<V>>, hash: nat -> nat, k: nat)
    requires WF(s, hash) && Scan(s, hash(k), k, 0) == |s|
    ensures k !in Entries(s) && |Entries(s)| == |s|
  {
    WFUnique(s, hash);
    EntriesAre(s);
    if k in Entries(s) || |Entries(s)| < |s| {
      PutHasRoom(s, hash, k);
    }
  }

  lemma PutKeepsSettled<V>(s: seq<Slot<V>>, hash: nat -> nat, k: nat, v: V, j: nat)
    requires WF(s, hash) && k != 0 && j < |s| && Scan(s, hash(k), k, 0) < |s|
    ensures Settled(Put(s, hash, k, v), hash, j)
  {
    var n, p := |s|, Scan(s, hash(k), k, 0);
    var i := Idx(hash(k), p, n);
    var t := Put(s, hash, k, v);
    if j == i {
      forall q | 0 <= q < p
        ensures !Stops(t, hash(k), k, q)
      {
        IdxInjective(hash(k), q, p, n);
        assert !Stops(s, hash(k), k, q);
      }
      ScanIs(t, hash(k), k, p);
    } else if s[j].key != 0 {
      var k' := s[j].key;
      assert Settled(s, hash, j);
      var p' := Scan(s, hash(k'), k', 0);
      forall q | 0 <= q < p'
        ensures !Stops(t, hash(k'), k', q)
      {
        assert !Stops(s, hash(k'), k', q);
      }
      ScanIs(t, hash(k'), k', p');
    }
  }

  lemma {:induction false} UpdateEntries<V>(s: seq<Slot<V>>, i: nat, k: nat, v: V)
    requires i < |s| && k != 0 && (s[i].key == 0 || s[i].key == k)
    requires forall j | 0 <= j < |s| && j != i :: s[j].key != k
    ensures Entries(s[i := Slot(k, v)]) == Entries(s)[k := v]
    ensures Occupied(s[i := Slot(k, v)]) == Occupied(s) + if s[i].key == 0 then 1 else 0
  {
    var t, m := s[i := Slot(k, v)], |s| - 1;
    if i == m {
      assert t[..m] == s[..m];
    } else {
      assert t[..m] == s[..m][i := Slot(k, v)];
      UpdateEntries(s[..m], i, k, v);
    }
  }

  /** Storing keeps every probe run intact and changes the map at `k` alone. */
  lemma PutCorrect<V>(s: seq<Slot<V>>, hash: nat -> nat, k: nat, v: V)
    requires WF(s, hash) && k != 0
    requires k in Entries(s) || |Entries(s)| < |s|
    ensures WF(Put(s, hash, k, v), hash)
    ensures Entries(Put(s, hash, k, v)) == Entries(s)[k := v]
    ensures Occupied(Put(s, hash, k, v)) == Occupied(s) + if k in Entries(s) then 0 else 1
  {
    PutHasRoom(s, hash, k);
    var t := Put(s, hash, k, v);
    var i := Idx(hash(k), Scan(s, hash(k), k, 0), |s|);
    forall j | 0 <= j < |t|
      ensures Settled(t, hash, j)
    {
      PutKeepsSettled(s, hash, k, v, j);
    }
    forall j | 0 <= j < |s| && j != i
      ensures s[j].key != k
    {
      assert Settled(s, hash, j);
    }
    UpdateEntries(s, i, k, v);
    FindIffEntry(s, hash, k);
  }

  lemma SizeIsOccupied<V>(s: seq<Slot<V>>, hash: nat -> nat)
    requires WF(s, hash)
    ensures |Entries(s)| == Occupied(s) && 0 !in Entries(s)
  {
    WFUnique(s, hash);
    EntriesAre(s);
  }

  /** Claiming the empty slot a probe run ends at adds exactly this mapping. */
  lemma ClaimIsPut<V>(s: seq<Slot<V>>, hash: nat -> nat, key: nat, v: V, p: nat)
    requires WF(s, hash) && key != 0 && p < |s| && s[Idx(hash(key), p, |s|)].key == 0
    requires Missed(s, hash(key), key, p)
    ensures var t := s[Idx(hash(key), p, |s|) := Slot(key, v)];
      && WF(t, hash) && key !in Entries(s) && |Entries(s)| < |s| && Entries(t) == Entries(s)[key := v]
      && Occupied(t) == Occupied(s) + 1
  {
    StopHere(s, hash(key), key, p);
    StopMeansRoom(s, hash, key);
    FindIffEntry(s, hash, key);
    PutCorrect(s, hash, key, v);
  }

  lemma HitIsEntry<V>(s: seq<Slot<V>>, hash: nat -> nat, key: nat, p: nat)
    requires WF(s, hash) && key != 0 && p < |s| && s[Idx(hash(key), p, |s|)].key == key
    requires Missed(s, hash(key), key, p)
    ensures key in Entries(s) && Entries(s)[key] == s[Idx(hash(key), p, |s|)].val
  {
    StopHere(s, hash(key), key, p);
    FindIffEntry(s, hash, key);
  }

  // ------------------------------------------------------------------ growing

  /** Re-insert the occupied slots of `s`, in order, into `t`. */
  function Rehash<V>(s: seq<Slot<V>>, t: seq<Slot<V>>, hash: nat -> nat): (r: seq<Slot<V>>)
    requires |t| > 0
    ensures |r| == |t|
  {
    if s == [] then t
    else
      var r := Rehash(s[..|s| - 1], t, hash);
      var x := s[|s| - 1];
      if x.key == 0 then r else Put(r, hash, x.key, x.val)
  }

  lemma {:induction false} NoEntries<V>(t: seq<Slot<V>>)
    requires forall j | 0 <= j < |t| :: t[j].key == 0
    ensures Entries(t) == map[] && Occupied(t) == 0
  {
    if t != [] {
      assert forall j | 0 <= j < |t| - 1 :: t[..|t| - 1][j] == t[j];
      NoEntries(t[..|t| - 1]);
    }
  }

  lemma {:induction false} RehashKeepsMap<V>(s: seq<Slot<V>>, t: seq<Slot<V>>, hash: nat -> nat)
    requires UniqueKeys(s) && |s| <= |t|
    requires forall j | 0 <= j < |t| :: t[j].key == 0
    requires |t| > 0
    ensures WF(Rehash(s, t, hash), hash)
    ensures Entries(Rehash(s, t, hash)) == Entries(s)
    ensures Occupied(Rehash(s, t, hash)) == Occupied(s)
  {
    if s == [] {
      NoEntries(t);
    } else {
      var u, x := s[..|s| - 1], s[|s| - 1];
      assert forall j | 0 <= j < |u| :: u[j] == s[j];
      RehashKeepsMap(u, t, hash);
      EntriesAre(u);
      if x.key != 0 {
        assert x.key !in Entries(u);
        WFUnique(Rehash(u, t, hash), hash);
        EntriesAre(Rehash(u, t, hash));
        PutCorrect(Rehash(u, t, hash), hash, x.key, x.val);
      }
    }
  }
}
