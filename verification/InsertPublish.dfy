/**
  `forward_table_insert` beside concurrent lookups: one writer stores length, then address, then
  key of a slot, while any number of threads run `ft_find`, interleaved at every atomic access.
 */
module InsertPublish {
  import opened Prelude
  import opened ProbeTable
  import opened Chase

  type Table = seq<Slot<Entry>>

  datatype Writer =
    | Rest
    | Hunt(k: nat, e: Entry, p: nat)
    | PutLen(k: nat, e: Entry, i: nat)
    | PutAddr(k: nat, e: Entry, i: nat)
    | PutKey(k: nat, e: Entry, i: nat)

  /** `known` remembers that the mapping was there when the search began. */
  datatype Reader =
    | Idle
    | Seek(k: nat, known: bool, p: nat)
    | SeenKey(k: nat, known: bool, i: nat)
    | SeenAddr(k: nat, i: nat, a: nat)
    | Found(k: nat, e: Entry)
    | Absent(k: nat, known: bool)

  /** `installed` is history: what each finished insert installed. */
  datatype State = State(slots: Table, writer: Writer, readers: seq<Reader>, installed: Fwd)

  datatype Action = BeginInsert(k: nat, e: Entry) | Write | BeginFind(t: nat, k: nat) | Read(t: nat)

  function NextWriter(s: State, hash: nat -> nat): (r: State)
    requires |s.slots| > 0
    ensures |r.slots| == |s.slots| && |r.readers| == |s.readers|
  {
    var n := |s.slots|;
    match s.writer
    case Rest => s
    case Hunt(k, e, p) =>
      if p >= n then s.(writer := Rest)
      else
        var i := Idx(hash(k), p, n);
        if s.slots[i].key == 0 || s.slots[i].key == k then s.(writer := PutLen(k, e, i))
        else s.(writer := Hunt(k, e, p + 1))
    case PutLen(k, e, i) =>
      if i >= n then s
      else s.(slots := s.slots[i := s.slots[i].(val := s.slots[i].val.(len := e.len))], writer := PutAddr(k, e, i))
    case PutAddr(k, e, i) =>
      if i >= n then s
      else s.(slots := s.slots[i := s.slots[i].(val := s.slots[i].val.(addr := e.addr))], writer := PutKey(k, e, i))
    case PutKey(k, e, i) =>
      if i >= n then s
      else s.(slots := s.slots[i := s.slots[i].(key := k)], writer := Rest, installed := s.installed[k := e])
  }

  function NextReader(s: State, hash: nat -> nat, rd: Reader): Reader
    requires |s.slots| > 0
  {
    var n := |s.slots|;
    match rd
    case Seek(k, known, p) =>
      if p >= n then Absent(k, known)
      else
        var i := Idx(hash(k), p, n);
        if s.slots[i].key == 0 then Absent(k, known)
        else if s.slots[i].key == k then SeenKey(k, known, i)
        else Seek(k, known, p + 1)
    case SeenKey(k, known, i) =>
      if i >= n || s.slots[i].val.addr == 0 then Absent(k, known) else SeenAddr(k, i, s.slots[i].val.addr)
    case SeenAddr(k, i, a) => if i >= n then rd else Found(k, Entry(a, s.slots[i].val.len))
    case _ => rd
  }

  function Apply(s: State, hash: nat -> nat, act: Action): (r: State)
    requires |s.slots| > 0
    ensures |r.slots| == |s.slots| && |r.readers| == |s.readers|
  {
    match act
    case BeginInsert(k, e) => if s.writer.Rest? && k != 0 then s.(writer := Hunt(k, e, 0)) else s
    case Write => NextWriter(s, hash)
    case BeginFind(t, k) =>
      if t < |s.readers| then s.(readers := s.readers[t := Seek(k, k in Visible(s.installed), 0)]) else s
    case Read(t) =>
      if t < |s.readers| then s.(readers := s.readers[t := NextReader(s, hash, s.readers[t])]) else s
  }

  function Run(s: State, hash: nat -> nat, acts: seq<Action>): (r: State)
    requires |s.slots| > 0
    ensures |r.slots| == |s.slots| && |r.readers| == |s.readers|
  {
    if acts == [] then s else Apply(Run(s, hash, acts[..|acts| - 1]), hash, acts[|acts| - 1])
  }

  /** Keys are written once: no insert begins for a key that is already installed. */
  ghost predicate WriteOnce(s: State, hash: nat -> nat, acts: seq<Action>)
    requires |s.slots| > 0
  {
    acts == []
    || (&& WriteOnce(s, hash, acts[..|acts| - 1])
        && (acts[|acts| - 1].BeginInsert? ==> acts[|acts| - 1].k !in Run(s, hash, acts[..|acts| - 1]).installed))
  }

  // ------------------------------------------------------------------ the invariant

  /** The writer has its free slot, where probing for its key stops. */
  ghost predicate HasSlot(slots: Table, hash: nat -> nat, k: nat, i: nat) {
    i < |slots| && slots[i].key == 0 && exists p {:trigger Idx(hash(k), p, |slots|)} ::
      0 <= p < |slots| && i == Idx(hash(k), p, |slots|) && Missed(slots, hash(k), k, p)
  }

  ghost predicate WriterOk(s: State, hash: nat -> nat)
    requires |s.slots| > 0
  {
    match s.writer
    case Rest => true
    case Hunt(k, e, p) => k != 0 && k !in s.installed && p <= |s.slots| && Missed(s.slots, hash(k), k, p)
    case PutLen(k, e, i) => k != 0 && k !in s.installed && HasSlot(s.slots, hash, k, i)
    case PutAddr(k, e, i) => k != 0 && k !in s.installed && HasSlot(s.slots, hash, k, i) && s.slots[i].val.len == e.len
    case PutKey(k, e, i) => k != 0 && k !in s.installed && HasSlot(s.slots, hash, k, i) && s.slots[i].val == e
  }

  ghost predicate ReaderOk(slots: Table, installed: Fwd, hash: nat -> nat, rd: Reader)
    requires |slots| > 0
  {
    match rd
    case Idle => true
    case Seek(k, known, p) =>
      && p <= |slots| && (known ==> k in Visible(installed) && Missed(slots, hash(k), k, p))
    case SeenKey(k, known, i) => i < |slots| && slots[i].key == k != 0 && (known ==> k in Visible(installed))
    case SeenAddr(k, i, a) => i < |slots| && slots[i].key == k != 0 && a == slots[i].val.addr != 0
    case Found(k, e) => k in Visible(installed) && installed[k] == e
    case Absent(k, known) => !known
  }

  ghost predicate Inv(s: State, hash: nat -> nat) {
    && WF(s.slots, hash)
    && Entries(s.slots) == s.installed
    && WriterOk(s, hash)
    && forall t | 0 <= t < |s.readers| :: ReaderOk(s.slots, s.installed, hash, s.readers[t])
  }

  // ------------------------------------------------------------------ writes

  lemma {:induction false} FreeValueKeepsEntries(a: Table, i: nat, v: Entry)
    requires i < |a| && a[i].key == 0
    ensures Entries(a[i := Slot(0, v)]) == Entries(a)
  {
    var b, m := a[i := Slot(0, v)], |a| - 1;
    if i == m {
      assert b[..m] == a[..m];
    } else {
      assert b[..m] == a[..m][i := Slot(0, v)];
      FreeValueKeepsEntries(a[..m], i, v);
    }
  }

  /** What a free slot holds is nobody's business. */
  lemma FreeValueInvisible(a: Table, hash: nat -> nat, i: nat, v: Entry)
    requires WF(a, hash) && i < |a| && a[i].key == 0
    ensures var b := a[i := Slot(0, v)];
      && WF(b, hash) && Entries(b) == Entries(a)
      && (forall h: nat, k, p: nat | Missed(a, h, k, p) :: Missed(b, h, k, p))
  {
    var b := a[i := Slot(0, v)];
    FreeValueKeepsEntries(a, i, v);
    assert forall h: nat, k, p: nat :: Stops(b, h, k, p) == Stops(a, h, k, p);
    forall j | 0 <= j < |b|
      ensures Settled(b, hash, j)
    {
      assert Settled(a, hash, j);
      var k := a[j].key;
      ScanIs(b, hash(k), k, Scan(a, hash(k), k, 0));
    }
  }

  lemma FreeValueReaders(a: Table, installed: Fwd, hash: nat -> nat, i: nat, v: Entry, rd: Reader)
    requires WF(a, hash) && i < |a| && a[i].key == 0 && ReaderOk(a, installed, hash, rd)
    ensures ReaderOk(a[i := Slot(0, v)], installed, hash, rd)
  {
    FreeValueInvisible(a, hash, i, v);
  }

  lemma ValueStep(s: State, hash: nat -> nat)
    requires Inv(s, hash) && (s.writer.PutLen? || s.writer.PutAddr?)
    ensures Inv(NextWriter(s, hash), hash)
  {
    var i, e := s.writer.i, s.writer.e;
    var v := if s.writer.PutLen? then s.slots[i].val.(len := e.len) else s.slots[i].val.(addr := e.addr);
    FreeValueInvisible(s.slots, hash, i, v);
    forall t | 0 <= t < |s.readers|
      ensures ReaderOk(s.slots[i := Slot(0, v)], s.installed, hash, s.readers[t])
    {
      FreeValueReaders(s.slots, s.installed, hash, i, v, s.readers[t]);
    }
  }

  lemma PublishReader(a: Table, hash: nat -> nat, i: nat, k: nat, installed: Fwd, e: Entry, rd: Reader)
    requires |a| > 0 && HasSlot(a, hash, k, i) && k != 0 && k !in installed && ReaderOk(a, installed, hash, rd)
    ensures ReaderOk(a[i := a[i].(key := k)], installed[k := e], hash, rd)
  {
    var b := a[i := a[i].(key := k)];
    if rd.Seek? && rd.known {
      forall q | 0 <= q < rd.p
        ensures !Stops(b, hash(rd.k), rd.k, q)
      {
        assert !Stops(a, hash(rd.k), rd.k, q);
      }
    }
  }

  /** Storing the key publishes the whole entry at once. */
  lemma PublishStep(s: State, hash: nat -> nat)
    requires Inv(s, hash) && s.writer.PutKey?
    ensures Inv(NextWriter(s, hash), hash)
  {
    var k, e, i := s.writer.k, s.writer.e, s.writer.i;
    var p :| 0 <= p < |s.slots| && i == Idx(hash(k), p, |s.slots|) && Missed(s.slots, hash(k), k, p);
    StopHere(s.slots, hash(k), k, p);
    StopMeansRoom(s.slots, hash, k);
    PutCorrect(s.slots, hash, k, e);
    assert s.slots[i := s.slots[i].(key := k)] == Put(s.slots, hash, k, e);
    forall t | 0 <= t < |s.readers|
      ensures ReaderOk(Put(s.slots, hash, k, e), s.installed[k := e], hash, s.readers[t])
    {
      PublishReader(s.slots, hash, i, k, s.installed, e, s.readers[t]);
    }
  }

  lemma HuntStep(s: State, hash: nat -> nat)
    requires Inv(s, hash) && s.writer.Hunt?
    ensures Inv(NextWriter(s, hash), hash)
  {
    var k, p := s.writer.k, s.writer.p;
    if p < |s.slots| {
      var i := Idx(hash(k), p, |s.slots|);
      WFUnique(s.slots, hash);
      EntriesAre(s.slots);
      if s.slots[i].key != 0 {
        MissOne(s.slots, hash(k), k, p);
      }
    }
  }

  // ------------------------------------------------------------------ reads

  lemma ReadStep(s: State, hash: nat -> nat, rd: Reader)
    requires Inv(s, hash) && ReaderOk(s.slots, s.installed, hash, rd)
    ensures ReaderOk(s.slots, s.installed, hash, NextReader(s, hash, rd))
  {
    WFUnique(s.slots, hash);
    EntriesAre(s.slots);
    if rd.Seek? && rd.known {
      var n := |s.slots|;
      FindIffEntry(s.slots, hash, rd.k);
      var stop := Scan(s.slots, hash(rd.k), rd.k, 0);
      if rd.p < n {
        var i := Idx(hash(rd.k), rd.p, n);
        if s.slots[i].key == 0 || s.slots[i].key == rd.k {
          StopHere(s.slots, hash(rd.k), rd.k, rd.p);
        } else {
          MissOne(s.slots, hash(rd.k), rd.k, rd.p);
        }
      } else {
        StopHere(s.slots, hash(rd.k), rd.k, rd.p);
      }
    }
  }

  lemma StepKeepsInv(s: State, hash: nat -> nat, act: Action)
    requires Inv(s, hash) && (act.BeginInsert? ==> act.k !in s.installed)
    ensures Inv(Apply(s, hash, act), hash)
  {
    match act
    case BeginInsert(k, e) =>
    case Write =>
      match s.writer {
        case Rest =>
        case Hunt(_, _, _) => HuntStep(s, hash);
        case PutLen(_, _, _) => ValueStep(s, hash);
        case PutAddr(_, _, _) => ValueStep(s, hash);
        case PutKey(_, _, _) => PublishStep(s, hash);
      }
    case BeginFind(t, k) =>
    case Read(t) =>
      if t < |s.readers| {
        ReadStep(s, hash, s.readers[t]);
      }
  }

  lemma {:induction false} RunKeepsInv(s: State, hash: nat -> nat, acts: seq<Action>)
    requires Inv(s, hash) && WriteOnce(s, hash, acts)
    ensures Inv(Run(s, hash, acts), hash)
  {
    if acts != [] {
      RunKeepsInv(s, hash, acts[..|acts| - 1]);
      StepKeepsInv(Run(s, hash, acts[..|acts| - 1]), hash, acts[|acts| - 1]);
    }
  }

  /** The reader looks for `k`, and remembers whether it was there when it began. */
  predicate LooksFor(rd: Reader, k: nat, known: bool) {
    match rd
    case Idle => false
    case Seek(x, y, _) => x == k && y == known
    case SeenKey(x, y, _) => x == k && y == known
    case SeenAddr(x, _, _) => x == k
    case Found(x, _) => x == k
    case Absent(x, y) => x == k && y == known
  }

  lemma {:induction false} LooksForStays(s: State, hash: nat -> nat, acts: seq<Action>, t: nat, k: nat, known: bool)
    requires |s.slots| > 0 && t < |s.readers| && LooksFor(s.readers[t], k, known)
    requires forall j | 0 <= j < |acts| && acts[j].BeginFind? :: acts[j].t != t
    ensures LooksFor(Run(s, hash, acts).readers[t], k, known)
  {
    if acts != [] {
      LooksForStays(s, hash, acts[..|acts| - 1], t, k, known);
    }
  }

  lemma {:induction false} RunAppends(s: State, hash: nat -> nat, a: seq<Action>, b: seq<Action>)
    requires |s.slots| > 0
    ensures Run(s, hash, a + b) == Run(Run(s, hash, a), hash, b)
  {
    if b == [] {
      assert a + b == a;
    } else {
      var m := |b| - 1;
      assert (a + b)[..|a + b| - 1] == a + b[..m];
      RunAppends(s, hash, a, b[..m]);
    }
  }

  lemma {:induction false} WriteOncePrefix(s: State, hash: nat -> nat, a: seq<Action>, b: seq<Action>)
    requires |s.slots| > 0 && WriteOnce(s, hash, a + b)
    ensures WriteOnce(s, hash, a)
  {
    if b == [] {
      assert a + b == a;
    } else {
      assert (a + b)[..|a + b| - 1] == a + b[..|b| - 1];
      WriteOncePrefix(s, hash, a, b[..|b| - 1]);
    }
  }

  /**
    No torn entry: while keys are written once, a lookup beside the writer returns either the
    whole pair that the table holds for that key, or a miss; and it misses only a key whose
    mapping was not there when the lookup began.
   */
  lemma NoTornEntry(s: State, hash: nat -> nat, before: seq<Action>, t: nat, k: nat, after: seq<Action>)
    requires Inv(s, hash) && WriteOnce(s, hash, before + ([BeginFind(t, k)] + after)) && t < |s.readers|
    requires forall j | 0 <= j < |after| && after[j].BeginFind? :: after[j].t != t
    ensures var q, r := Run(s, hash, before), Run(s, hash, before + ([BeginFind(t, k)] + after));
      && t < |r.readers|
      && (r.readers[t].Found? ==> r.readers[t].k == k && k in Visible(Entries(r.slots)) && Entries(r.slots)[k] == r.readers[t].e)
      && (r.readers[t].Absent? ==> k !in Visible(Entries(q.slots)))
  {
    var acts := before + ([BeginFind(t, k)] + after);
    RunKeepsInv(s, hash, acts);
    WriteOncePrefix(s, hash, before, [BeginFind(t, k)] + after);
    RunKeepsInv(s, hash, before);
    var q := Run(s, hash, before);
    RunAppends(s, hash, before, [BeginFind(t, k)] + after);
    RunAppends(q, hash, [BeginFind(t, k)], after);
    assert [BeginFind(t, k)][..0] == [];
    assert Run(q, hash, [BeginFind(t, k)]) == Apply(q, hash, BeginFind(t, k));
    LooksForStays(Apply(q, hash, BeginFind(t, k)), hash, after, t, k, k in Visible(q.installed));
    var r := Run(s, hash, acts);
    assert ReaderOk(r.slots, r.installed, hash, r.readers[t]);
  }

  function ReadsLeft(rd: Reader, n: nat): nat {
    match rd
    case Seek(_, _, p) => if p <= n then n - p + 3 else 3
    case SeenKey(_, _, _) => 2
    case SeenAddr(_, _, _) => 1
    case _ => 0
  }

  lemma ReadFirst(s: State, hash: nat -> nat, t: nat, n: nat)
    requires |s.slots| > 0
    ensures Run(s, hash, seq(n + 1, _ => Read(t))) == Run(Apply(s, hash, Read(t)), hash, seq(n, _ => Read(t)))
  {
    var a, b := seq(n + 1, _ => Read(t)), seq(n, _ => Read(t));
    if n == 0 {
      assert a[..0] == [] && b == [];
    } else {
      assert a[..n] == seq(n, _ => Read(t)) && b[..n - 1] == seq(n - 1, _ => Read(t));
      ReadFirst(s, hash, t, n - 1);
    }
  }

  /** A lookup left alone comes back with a pair or a miss. */
  lemma {:induction false} FindReturns(s: State, hash: nat -> nat, t: nat) returns (n: nat)
    requires Inv(s, hash) && t < |s.readers| && !s.readers[t].Idle?
    ensures var rd := Run(s, hash, seq(n, _ => Read(t))).readers[t]; rd.Found? || rd.Absent?
    decreases ReadsLeft(s.readers[t], |s.slots|)
  {
    n := 0;
    assert seq(0, _ => Read(t)) == [];
    if !s.readers[t].Found? && !s.readers[t].Absent? {
      StepKeepsInv(s, hash, Read(t));
      assert ReaderOk(s.slots, s.installed, hash, s.readers[t]);
      n := FindReturns(Apply(s, hash, Read(t)), hash, t);
      ReadFirst(s, hash, t, n);
      n := n + 1;
    }
  }

  // ------------------------------------------------------------------ the insert arrives

  function WritesLeft(w: Writer, n: nat): nat {
    match w
    case Rest => 0
    case Hunt(_, _, p) => if p <= n then n - p + 4 else 4
    case PutLen(_, _, _) => 3
    case PutAddr(_, _, _) => 2
    case PutKey(_, _, _) => 1
  }

  lemma WriteFirst(s: State, hash: nat -> nat, n: nat)
    requires |s.slots| > 0
    ensures Run(s, hash, seq(n + 1, _ => Write)) == Run(NextWriter(s, hash), hash, seq(n, _ => Write))
  {
    var a, b := seq(n + 1, _ => Write), seq(n, _ => Write);
    if n == 0 {
      assert a[..0] == [] && b == [];
    } else {
      assert a[..n] == seq(n, _ => Write) && b[..n - 1] == seq(n - 1, _ => Write);
      WriteFirst(s, hash, n - 1);
    }
  }

  lemma WriterStep(s: State, hash: nat -> nat)
    requires Inv(s, hash) && !s.writer.Rest? && (s.writer.Hunt? ==> |Entries(s.slots)| < |s.slots|)
    ensures var r := NextWriter(s, hash);
      && Inv(r, hash) && WritesLeft(r.writer, |s.slots|) < WritesLeft(s.writer, |s.slots|)
      && (r.writer.Rest? ==> s.writer.PutKey? && r.installed == s.installed[s.writer.k := s.writer.e])
      && (!r.writer.Rest? ==> r.writer.k == s.writer.k && r.writer.e == s.writer.e && r.installed == s.installed)
      && (r.writer.Hunt? ==> s.writer.Hunt?)
  {
    StepKeepsInv(s, hash, Write);
    if s.writer.Hunt? && s.writer.p == |s.slots| {
      StopHere(s.slots, hash(s.writer.k), s.writer.k, s.writer.p);
      ExhaustedMeansFull(s.slots, hash, s.writer.k);
    }
  }

  /** An insert of a new key into a table with a free slot, left alone, ends with exactly that mapping added. */
  lemma {:induction false} InsertArrives(s: State, hash: nat -> nat) returns (n: nat)
    requires Inv(s, hash) && !s.writer.Rest? && (s.writer.Hunt? ==> |Entries(s.slots)| < |s.slots|)
    ensures var r := Run(s, hash, seq(n, _ => Write));
      && r.writer.Rest?
      && Entries(r.slots) == Entries(s.slots)[s.writer.k := s.writer.e]
    decreases WritesLeft(s.writer, |s.slots|)
  {
    WriterStep(s, hash);
    var r := NextWriter(s, hash);
    n := 0;
    assert seq(0, _ => Write) == [];
    if !r.writer.Rest? {
      assert r.writer.Hunt? ==> Entries(r.slots) == Entries(s.slots) && |r.slots| == |s.slots|;
      n := InsertArrives(r, hash);
    }
    WriteFirst(s, hash, n);
    n := n + 1;
  }

  // ------------------------------------------------------------------ the overwrite branch

  const FIRST := Entry(10, 5)
  const SECOND := Entry(20, 7)

  /** Key 1 is installed with `FIRST`; nobody is busy. */
  function OneSlot(): State {
    State([Slot(1, FIRST)], Rest, [Idle], map[1 := FIRST])
  }

  /** Find key 1 up to its address; overwrite the length; finish the find. */
  function TearingRun(): seq<Action> {
    [BeginFind(0, 1), Read(0), Read(0), BeginInsert(1, SECOND), Write, Write, Read(0)]
  }

  lemma OneSlotIsGood(hash: nat -> nat)
    ensures Inv(OneSlot(), hash)
  {
    var s := OneSlot();
    assert Idx(hash(1), 0, 1) == 0;
    StopHere(s.slots, hash(1), 1, 0);
    assert Settled(s.slots, hash, 0);
    assert s.slots[..0] == [];
  }

  lemma RunOneMore(s: State, hash: nat -> nat, acts: seq<Action>, n: nat)
    requires |s.slots| > 0 && n < |acts|
    ensures Run(s, hash, acts[..n + 1]) == Apply(Run(s, hash, acts[..n]), hash, acts[n])
  {
    assert acts[..n + 1][..n] == acts[..n];
  }

  /** The first three steps: the reader has loaded the key and the address. */
  lemma TearingReads(hash: nat -> nat)
    ensures Run(OneSlot(), hash, TearingRun()[..3]) == OneSlot().(readers := [SeenAddr(1, 0, 10)])
  {
    var s, acts := OneSlot(), TearingRun();
    assert Idx(hash(1), 0, 1) == 0;
    assert acts[..0] == [];
    RunOneMore(s, hash, acts, 0);
    RunOneMore(s, hash, acts, 1);
    RunOneMore(s, hash, acts, 2);
    assert Run(s, hash, acts[..1]) == s.(readers := [Seek(1, true, 0)]);
    assert Run(s, hash, acts[..2]) == s.(readers := [SeenKey(1, true, 0)]);
  }

  /**
    Overwriting a key beside a lookup does tear: a reader that has loaded the address before the
    writer stores the new length returns the old address with the new length, a pair no insert
    ever installed. The overwriting branch is for safepoints only.
   */
  lemma OverwriteTears(hash: nat -> nat)
    ensures Inv(OneSlot(), hash)
    ensures Run(OneSlot(), hash, TearingRun()).readers[0] == Found(1, Entry(FIRST.addr, SECOND.len))
    ensures Entry(FIRST.addr, SECOND.len) !in {FIRST, SECOND}
  {
    var s, acts := OneSlot(), TearingRun();
    OneSlotIsGood(hash);
    TearingReads(hash);
    assert Idx(hash(1), 0, 1) == 0;
    RunOneMore(s, hash, acts, 3);
    RunOneMore(s, hash, acts, 4);
    RunOneMore(s, hash, acts, 5);
    RunOneMore(s, hash, acts, 6);
    assert Run(s, hash, acts[..5]).writer == PutLen(1, SECOND, 0);
    assert Run(s, hash, acts[..6]).slots == [Slot(1, Entry(10, 7))];
    assert acts[..7] == acts;
  }

  /** An overwrite of the entry in slot `i` is about to begin, and a lookup has just found that slot. */
  ghost predicate Overwriting(s: State, t: nat, k: nat, e: Entry, i: nat) {
    && i < |s.slots| && t < |s.readers| && k != 0 && s.slots[i].key == k
    && s.writer == PutLen(k, e, i)
    && s.readers[t].SeenKey? && s.readers[t].k == k && s.readers[t].i == i
  }

  /** Steps of the writer and of this lookup only. */
  predicate Race(acts: seq<Action>, t: nat) {
    forall j | 0 <= j < |acts| :: acts[j] == Write || acts[j] == Read(t)
  }

  /** The lookup has returned a pair that is neither the previous entry nor the new one. */
  predicate Torn(rd: Reader, was: Entry, e: Entry) {
    rd.Found? && rd.e != was && rd.e != e
  }

  /** How far the writer is, what the slot then holds, and what the lookup can have seen of it. */
  ghost predicate RaceOk(s: State, t: nat, k: nat, was: Entry, e: Entry, i: nat) {
    && i < |s.slots| && t < |s.readers| && s.slots[i].key == k
    && (s.writer == PutLen(k, e, i) || s.writer == PutAddr(k, e, i) || s.writer == PutKey(k, e, i) || s.writer == Rest)
    && (s.writer == PutLen(k, e, i) ==> s.slots[i].val == was)
    && (s.writer == PutAddr(k, e, i) ==> s.slots[i].val == Entry(was.addr, e.len))
    && (s.writer == PutKey(k, e, i) || s.writer == Rest ==> s.slots[i].val == e)
    && match s.readers[t]
       case SeenKey(_, _, j) => j == i
       case SeenAddr(_, j, a) =>
         j == i && a != 0 && (a == was.addr || (a == e.addr && s.slots[i].val == e))
       case Found(_, x) => x == was || x == e || (x == Entry(was.addr, e.len) && was.addr != 0)
       case Absent(_, _) => true
       case Idle => false
       case Seek(_, _, _) => false
  }

  lemma RaceStep(s: State, hash: nat -> nat, t: nat, k: nat, was: Entry, e: Entry, i: nat, act: Action)
    requires RaceOk(s, t, k, was, e, i) && (act == Write || act == Read(t))
    ensures RaceOk(Apply(s, hash, act), t, k, was, e, i)
  {
  }

  lemma {:induction false} RaceRun(s: State, hash: nat -> nat, t: nat, k: nat, was: Entry, e: Entry, i: nat, acts: seq<Action>)
    requires RaceOk(s, t, k, was, e, i) && Race(acts, t)
    ensures RaceOk(Run(s, hash, acts), t, k, was, e, i)
  {
    if acts != [] {
      RaceRun(s, hash, t, k, was, e, i, acts[..|acts| - 1]);
      RaceStep(Run(s, hash, acts[..|acts| - 1]), hash, t, k, was, e, i, acts[|acts| - 1]);
    }
  }

  /** Load the address, let the length be overwritten, load the length. */
  lemma TearingRace(s: State, hash: nat -> nat, t: nat, k: nat, e: Entry, i: nat) returns (acts: seq<Action>)
    requires Overwriting(s, t, k, e, i) && s.slots[i].val.addr != 0
    ensures Race(acts, t) && Run(s, hash, acts).readers[t] == Found(k, Entry(s.slots[i].val.addr, e.len))
  {
    acts := [Read(t), Write, Read(t)];
    assert acts[..0] == [] && acts[..3] == acts;
    RunOneMore(s, hash, acts, 0);
    RunOneMore(s, hash, acts, 1);
    RunOneMore(s, hash, acts, 2);
  }

  /**
    Some schedule of an overwrite and a lookup tears if and only if the overwritten address is
    nonzero and both the address and the length change.
   */
  lemma OverwriteTearsIff(s: State, hash: nat -> nat, t: nat, k: nat, e: Entry, i: nat)
    requires Overwriting(s, t, k, e, i)
    ensures var was := s.slots[i].val;
      (exists acts {:trigger Race(acts, t)} :: Race(acts, t) && Torn(Run(s, hash, acts).readers[t], was, e))
      <==> was.addr != 0 && e.addr != was.addr && e.len != was.len
  {
    var was := s.slots[i].val;
    if was.addr != 0 && e.addr != was.addr && e.len != was.len {
      var acts := TearingRace(s, hash, t, k, e, i);
      assert Race(acts, t) && Torn(Run(s, hash, acts).readers[t], was, e);
    } else {
      forall acts | Race(acts, t)
        ensures !Torn(Run(s, hash, acts).readers[t], was, e)
      {
        RaceRun(s, hash, t, k, was, e, i, acts);
      }
    }
  }
}
