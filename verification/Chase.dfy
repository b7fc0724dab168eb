/**
  Forwarding chains. The table maps an old address to the (address, length) of the next copy;
  a lookup follows the chain to its end and never hands out an intermediate hop.
 */
module Chase {
  import opened Prelude

  datatype Entry = Entry(addr: nat, len: nat)

  type Fwd = map<nat, Entry>

  /** `FT_CHASE_MAX`. */
  const CHASE_MAX: nat := 4096

  /** What `ft_find` can see: an entry whose address is 0 is treated as absent. */
  function Visible(m: Fwd): (v: Fwd)
    ensures forall k :: k in v <==> k in m && m[k].addr != 0
    ensures forall k | k in v :: v[k] == m[k]
  {
    map k | k in m && m[k].addr != 0 :: m[k]
  }

  /** The chase stops here: no further mapping, or a self mapping. */
  predicate Final(v: Fwd, a: nat) {
    a !in v || v[a].addr == a
  }

  /** The loop of `forward_table_lookup`, entered with `e` reached and `depth` further hops behind. */
  function ChaseFrom(v: Fwd, e: Entry, depth: nat): Option<Entry>
    decreases CHASE_MAX - depth
  {
    if depth >= CHASE_MAX then None
    else if Final(v, e.addr) then Some(e)
    else ChaseFrom(v, v[e.addr], depth + 1)
  }

  function Lookup(v: Fwd, k: nat): Option<Entry> {
    if k in v then ChaseFrom(v, v[k], 0) else None
  }

  // ------------------------------------------------------------------ what a chain is

  /** The entry `n` hops down the chain of `k`, as long as no earlier hop ended the chain. */
  ghost function Hop(v: Fwd, k: nat, n: nat): Option<Entry> {
    if n == 0 then None
    else if n == 1 then (if k in v then Some(v[k]) else None)
    else
      var e := Hop(v, k, n - 1);
      if e.None? || Final(v, e.value.addr) then None else Some(v[e.value.addr])
  }

  lemma {:induction false} ChaseFollowsHops(v: Fwd, k: nat, e: Entry, depth: nat, r: Entry)
    requires depth <= CHASE_MAX && Hop(v, k, depth + 1) == Some(e)
    requires ChaseFrom(v, e, depth) == Some(r)
    ensures exists n :: depth + 1 <= n <= CHASE_MAX && Hop(v, k, n) == Some(r) && Final(v, r.addr)
    decreases CHASE_MAX - depth
  {
    if Final(v, e.addr) {
      assert Hop(v, k, depth + 1) == Some(r);
    } else {
      assert Hop(v, k, depth + 2) == Some(v[e.addr]);
      ChaseFollowsHops(v, k, v[e.addr], depth + 1, r);
    }
  }

  lemma {:induction false} HopsAreChased(v: Fwd, k: nat, e: Entry, depth: nat, r: Entry, n: nat)
    requires Hop(v, k, depth + 1) == Some(e)
    requires depth + 1 <= n <= CHASE_MAX && Hop(v, k, n) == Some(r) && Final(v, r.addr)
    ensures ChaseFrom(v, e, depth) == Some(r)
    decreases n - depth
  {
    if n > depth + 1 {
      HopDefinedBelow(v, k, depth + 2, n);
      HopsAreChased(v, k, v[e.addr], depth + 1, r, n);
    }
  }

  lemma {:induction false} HopDefinedBelow(v: Fwd, k: nat, m: nat, n: nat)
    requires 1 <= m <= n && Hop(v, k, n).Some?
    ensures Hop(v, k, m).Some?
    decreases n
  {
    if m < n {
      HopDefinedBelow(v, k, m, n - 1);
    }
  }

  /**
    Lookup is transitive and never partial: it answers `r` exactly when `r` is the end of the
    chain of `k` and that end is at most 4096 hops away.
   */
  lemma LookupExact(v: Fwd, k: nat, r: Entry)
    ensures Lookup(v, k) == Some(r)
       <==> exists n :: 1 <= n <= 4096 && Hop(v, k, n) == Some(r) && Final(v, r.addr)
  {
    if Lookup(v, k) == Some(r) {
      ChaseFollowsHops(v, k, v[k], 0, r);
    }
    if n :| 1 <= n <= CHASE_MAX && Hop(v, k, n) == Some(r) && Final(v, r.addr) {
      HopDefinedBelow(v, k, 1, n);
      HopsAreChased(v, k, v[k], 0, r, n);
    }
  }

  /** What a lookup answers is some entry of the table, whole. */
  lemma {:induction false} ChaseEndsAtEntry(v: Fwd, e: Entry, depth: nat, r: Entry)
    requires ChaseFrom(v, e, depth) == Some(r)
    ensures r == e || r in v.Values
    decreases CHASE_MAX - depth
  {
    if !Final(v, e.addr) {
      ChaseEndsAtEntry(v, v[e.addr], depth + 1, r);
    }
  }

  // ------------------------------------------------------------------ chains of a bump arena

  /** Destinations come from a cursor that only grows, so every mapping raises the address. */
  ghost predicate Increasing(v: Fwd) {
    forall k | k in v :: k < v[k].addr
  }

  /** The ranking function of a chase: the keys not yet passed. */
  ghost function Ahead(v: Fwd, a: nat): set<nat> {
    set k | k in v && a <= k
  }

  lemma AheadShrinks(v: Fwd, a: nat)
    requires Increasing(v) && a in v
    ensures Ahead(v, v[a].addr) < Ahead(v, a)
    ensures |Ahead(v, v[a].addr)| < |Ahead(v, a)|
  {
    var x, y := Ahead(v, v[a].addr), Ahead(v, a);
    assert a in y && a !in x;
    assert y == x + (y - x) && a in y - x;
  }

  /** Number of hops from `a` to the end of its chain. */
  ghost function Depth(v: Fwd, a: nat): (d: nat)
    requires Increasing(v)
    ensures d <= |Ahead(v, a)|
    decreases |Ahead(v, a)|
  {
    if a !in v then 0
    else
      AheadShrinks(v, a);
      1 + Depth(v, v[a].addr)
  }

  /** Where the chain from `a` ends. */
  ghost function Terminus(v: Fwd, a: nat): (t: nat)
    requires Increasing(v)
    ensures t !in v && a <= t
    decreases |Ahead(v, a)|
  {
    if a !in v then a
    else
      AheadShrinks(v, a);
      Terminus(v, v[a].addr)
  }

  /** Forwarding the end of a chain extends exactly the chains that ended there. */
  lemma {:induction false} TerminusExtends(v: Fwd, a: nat, e: Entry, x: nat)
    requires Increasing(v) && a !in v && a < e.addr && e.addr !in v
    ensures Increasing(v[a := e])
    ensures Terminus(v[a := e], x) == if Terminus(v, x) == a then e.addr else Terminus(v, x)
    decreases |Ahead(v, x)|
  {
    if x in v {
      AheadShrinks(v, x);
      TerminusExtends(v, a, e, v[x].addr);
    } else if x == a {
      assert Terminus(v[a := e], e.addr) == e.addr;
    }
  }

  lemma DepthAtMostEntries(v: Fwd, a: nat)
    requires Increasing(v)
    ensures Depth(v, a) <= |v|
  {
    assert Ahead(v, a) <= v.Keys;
    var rest := v.Keys - Ahead(v, a);
    assert v.Keys == Ahead(v, a) + rest;
    assert |v.Keys| == |Ahead(v, a)| + |rest|;
  }

  lemma {:induction false} ChaseMeasures(v: Fwd, e: Entry, depth: nat)
    requires Increasing(v)
    ensures ChaseFrom(v, e, depth).Some? <==> depth + Depth(v, e.addr) < CHASE_MAX
    ensures ChaseFrom(v, e, depth).Some? ==> ChaseFrom(v, e, depth).value.addr == Terminus(v, e.addr)
    decreases CHASE_MAX - depth
  {
    if depth < CHASE_MAX && e.addr in v {
      ChaseMeasures(v, v[e.addr], depth + 1);
    }
  }

  /**
    On a bump arena a lookup answers exactly for moved addresses whose chain has at most 4096
    hops, and then with the chain's end; a longer chain stops the program instead.
   */
  lemma LookupResolves(v: Fwd, k: nat)
    requires Increasing(v)
    ensures Lookup(v, k).Some? <==> k in v && Depth(v, k) <= 4096
    ensures Lookup(v, k).Some? ==> Lookup(v, k).value.addr == Terminus(v, k)
  {
    if k in v {
      ChaseMeasures(v, v[k], 0);
    }
  }

  /** A table of at most 4096 entries resolves every moved address. */
  lemma SmallTableResolves(v: Fwd, k: nat)
    requires Increasing(v) && |v| <= 4096 && k in v
    ensures Lookup(v, k).Some?
  {
    DepthAtMostEntries(v, k);
    LookupResolves(v, k);
  }

  /** A chain of `n` hops: 1, 2, ..., n + 1. */
  ghost function Ladder(n: nat): (v: Fwd)
    ensures forall k :: k in v <==> 1 <= k <= n
    ensures forall k | k in v :: v[k] == Entry(k + 1, 1)
    ensures |v| == n
  {
    if n == 0 then map[] else Ladder(n - 1)[n := Entry(n + 1, 1)]
  }

  lemma {:induction false} LadderDepth(n: nat, a: nat)
    requires 1 <= a <= n + 1
    ensures Depth(Ladder(n), a) == n + 1 - a
    decreases n - a
  {
    if a <= n {
      LadderDepth(n, a + 1);
    }
  }

  /** The bound is tight: 4096 entries always resolve, 4097 may not. */
  lemma LongChainStops()
    ensures |Ladder(CHASE_MAX + 1)| == CHASE_MAX + 1
    ensures 1 in Ladder(CHASE_MAX + 1) && Lookup(Ladder(CHASE_MAX + 1), 1) == None
  {
    LadderDepth(CHASE_MAX + 1, 1);
    LookupResolves(Ladder(CHASE_MAX + 1), 1);
  }
}
