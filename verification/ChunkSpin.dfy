/**
 * A get under the chunk policy need not return: a short run in which every zone is full
 * again and yet enough chunks count as free for no eviction to be called for.
 */
module ChunkSpin {
  import opened Types
  import opened Transfer
  import opened CacheSpec
  import opened ChunkSpec
  import opened Chains
  import opened Moments
  import Z = ZoneSpec
  import M = MapSpec
  import ChunkCache

  /**
   * Two zones of one chunk, of the size direct I/O needs; an eviction empties both, and its
   * collection stops at one free zone.
   */
  const LIMITS := Limits(2, 0, 1, 0, 2)
  const GEOMETRY := Geometry(4096, 4096, 1, 2, 4096)

  /** Only ids below `n` are mapped. */
  ghost predicate Below(m: M.MapState, n: nat) {
    forall j: Id :: M.Cached(m, j) ==> j < n
  }

  /** Nothing in flight, `free` the free zones, the others full. */
  ghost predicate Still(s: Snap, free: seq<nat>) {
    && Z.Inv(s.zs) && |s.zs.zone| == 2 && s.zs.maxChunks == 1 && s.zs.maxActive == 1
    && s.zs.free == free && s.zs.active == [] && s.zs.writes == 0
  }

  /** Two zones are full exactly when neither queue holds any and nothing is in flight. */
  lemma StillFull(s: Snap)
    requires Still(s, [])
    ensures Z.GetActive(s.zs).1.Evict? && s.zs.zone[0].cond == s.zs.zone[1].cond == Z.Full
  {
    Z.RefusalMeaning(s.zs);
  }

  /** A write into the only slot of the oldest free zone fills it. */
  lemma FillsZone(zs: Z.Zones, z: nat)
    requires Z.Inv(zs) && zs.maxChunks == 1 && zs.active == [] && zs.writes == 0 && zs.free != [] && zs.free[0] == z
    ensures Z.GetActive(zs).1 == Z.Granted(Loc(z, 0))
    ensures var w := Wrote(zs, true);
      Z.Inv(w) && w == zs.(zone := zs.zone[z := Z.Zone(Z.Full, 0)], free := zs.free[1..])
  {
    var (taken, g) := Z.GetActive(zs);
    Z.GetActiveKeepsInv(zs);
    Z.ReturnKeepsInv(taken, g.loc);
    assert taken.active == [] && taken.writes == 1;
    assert Wrote(zs, true).zone == zs.zone[z := Z.Zone(Z.Full, 0)];
  }

  /** A get that misses while a zone is free. */
  lemma FillStep(s: Snap, id: Id, s': Snap, mid: Z.Zones, free: seq<nat>)
    requires Still(s, free) && free != [] && Below(s.m, id) && Missed(LIMITS, s, id, true, s', mid)
    ensures Still(s', free[1..]) && Below(s'.m, id + 1) && s'.keys == s.keys + [Loc(free[0], 0)]
  {
    FillsZone(s.zs, free[0]);
    MappedBelow(s, id, s', mid);
  }

  lemma MappedBelow(s: Snap, id: Id, s': Snap, mid: Z.Zones)
    requires Below(s.m, id) && Missed(LIMITS, s, id, true, s', mid)
    ensures Below(s'.m, id + 1)
  {
    forall j: Id | M.Cached(s'.m, j) && j != id ensures M.Cached(s.m, j) {
      assert M.Maps(s'.m, j, s'.m.entry[j].loc);
    }
  }

  /** With both zones full and both chunks listed, an eviction frees one zone and forgets both ids. */
  lemma EvictStep(s: Snap, id: Id, s': Snap, mid: Z.Zones)
    requires Still(s, []) && |s.keys| == 2 && Below(s.m, id) && Missed(LIMITS, s, id, true, s', mid)
    ensures Still(s', []) && Below(s'.m, id + 1) && |s'.keys| == 1
  {
    StillFull(s);
    MappedBelow(s, id, s', mid);
    OneFreed(s, mid);
    FillsZone(mid, mid.free[0]);
  }

  lemma TwoDead(s: Snap)
    requires Still(s, [])
    ensures |Dead(s.zs, [])| == 2
  {
    StillFull(s);
    assert Dead(s.zs, []) == {0, 1};
  }

  lemma OneFreed(s: Snap, mid: Z.Zones)
    requires Still(s, []) && |s.keys| == 2 && Z.Inv(mid) && LIMITS.Reclaimed(s.zs, s.keys, mid)
    ensures LIMITS.Dropped(s.zs, 2) == 2 && |mid.free| == 1
    ensures mid.active == [] && mid.writes == 0 && mid.maxChunks == 1 && |mid.zone| == 2 && mid.maxActive == 1
  {
    StillFull(s);
    TwoDead(s);
    assert s.keys[2..] == [];
  }

  /** Both zones full, one chunk listed: the other counts as free, and nothing will be evicted. */
  lemma Fates(s: Snap)
    requires Still(s, []) && 1 <= |s.keys| <= 2
    ensures LIMITS.SlotFate(s.zs, s.keys) == if |s.keys| == 2 then ChunkSpec.Returns else Spins
  {
    StillFull(s);
    TwoDead(s);
    if |s.keys| == 2 {
      assert s.keys[2..] == [];
    }
  }

  /** Every write succeeds on a device whose transfers of a block all go through. */
  lemma WritesGoWell(outcome: nat -> int, tick: nat)
    requires forall t :: outcome(t) == 4096
    ensures Moved(outcome, tick, 4096, 4096, WRITE_TRIES).Some?
  {
    assert FirstFull(outcome, tick, 4096, WRITE_TRIES) == Some(tick + 1);
    assert Moved(outcome, tick + 1, 0, 4096, WRITE_TRIES) == Some(tick + 1);
  }

  /** The cache of the witness, on a device where every transfer goes through. */
  ghost predicate Small(c: ChunkCache.Cache) {
    c.lim == LIMITS && c.st.g == GEOMETRY && (forall t :: c.st.dev.outcome(t) == 4096)
  }

  /** A get of a new id, in terms of the states around it. */
  lemma GetMisses(c: ChunkCache.Cache, s: Snap, id: Id, d: Option<Bytes>, s': Snap) returns (mid: Z.Zones)
    requires Small(c) && GEOMETRY.Valid() && Below(s.m, id) && c.Did(s, ChunkCache.Get(id), d, s')
    ensures Missed(LIMITS, s, id, true, s', mid)
  {
    WritesGoWell(c.st.dev.outcome, s.tick);
    assert !M.Cached(s.m, id);
    mid :| Missed(LIMITS, s, id, d.Some?, s', mid);
  }

  lemma GetFills(c: ChunkCache.Cache, s: Snap, id: Id, d: Option<Bytes>, s': Snap, free: seq<nat>)
    requires Small(c) && GEOMETRY.Valid() && c.Did(s, ChunkCache.Get(id), d, s')
    requires Still(s, free) && free != [] && Below(s.m, id)
    ensures Still(s', free[1..]) && Below(s'.m, id + 1) && |s'.keys| == |s.keys| + 1
  {
    var mid := GetMisses(c, s, id, d, s');
    FillStep(s, id, s', mid, free);
  }

  lemma GetEvicts(c: ChunkCache.Cache, s: Snap, id: Id, d: Option<Bytes>, s': Snap)
    requires Small(c) && GEOMETRY.Valid() && c.Did(s, ChunkCache.Get(id), d, s')
    requires Still(s, []) && |s.keys| == 2 && Below(s.m, id)
    ensures Still(s', []) && Below(s'.m, id + 1) && |s'.keys| == 1
  {
    var mid := GetMisses(c, s, id, d, s');
    EvictStep(s, id, s', mid);
  }

  /** The states of the run: empty, one zone filled, both filled, both filled but only one listed. */
  ghost predicate At(s: Snap, i: nat) {
    && Still(s, if i == 0 then [0, 1] else if i == 1 then [1] else [])
    && Below(s.m, i) && |s.keys| == if i == 3 then 1 else i
  }

  lemma FirstGet(c: ChunkCache.Cache, s: Snap, d: Option<Bytes>, s': Snap)
    requires Small(c) && GEOMETRY.Valid() && At(s, 0) && c.Did(s, ChunkCache.Get(0), d, s')
    ensures At(s', 1)
  {
    GetFills(c, s, 0, d, s', [0, 1]);
  }

  lemma SecondGet(c: ChunkCache.Cache, s: Snap, d: Option<Bytes>, s': Snap)
    requires Small(c) && GEOMETRY.Valid() && At(s, 1) && c.Did(s, ChunkCache.Get(1), d, s')
    ensures At(s', 2)
  {
    GetFills(c, s, 1, d, s', [1]);
  }

  lemma OneGet(c: ChunkCache.Cache, s: Snap, i: Id, d: Option<Bytes>, s': Snap)
    requires Small(c) && GEOMETRY.Valid() && At(s, i) && i < 3 && c.Did(s, ChunkCache.Get(i), d, s')
    ensures At(s', i + 1)
  {
    if i == 0 {
      FirstGet(c, s, d, s');
    } else if i == 1 {
      SecondGet(c, s, d, s');
    } else {
      GetEvicts(c, s, 2, d, s');
    }
  }

  /** The first three gets return; the fourth, which finds both zones full, does not. */
  lemma OneEnding(c: ChunkCache.Cache, s: Snap, i: Id)
    requires Small(c) && At(s, i) && i <= 3
    ensures c.EndingOf(s, ChunkCache.Get(i)) == if i < 3 then ChunkSpec.Returns else Spins
  {
    if i >= 2 {
      Fates(s);
    }
  }

  function Ops(): seq<ChunkCache.Op> {
    [ChunkCache.Get(0), ChunkCache.Get(1), ChunkCache.Get(2), ChunkCache.Get(3)]
  }

  ghost function AtFrom(out: seq<Option<Bytes>>, trace: seq<Snap>): nat -> bool {
    (i: nat) => i <= |out| < |trace| && At(trace[i], i)
  }

  lemma RunCarries(c: ChunkCache.Cache, out: seq<Option<Bytes>>, trace: seq<Snap>, n: nat)
    requires Small(c) && GEOMETRY.Valid() && Chain(c.Sound(), Ops(), out, trace) && n <= |out| && n <= 3
    requires At(trace[0], 0)
    ensures Carried(AtFrom(out, trace), n)
  {
    var p := AtFrom(out, trace);
    forall i: nat | i < n && p(i) ensures p(i + 1) {
      assert c.Sound()(trace[i], Ops()[i], out[i], trace[i + 1]);
      OneGet(c, trace[i], i, out[i], trace[i + 1]);
    }
  }

  lemma RunAt(c: ChunkCache.Cache, out: seq<Option<Bytes>>, trace: seq<Snap>, i: nat)
    requires Small(c) && GEOMETRY.Valid() && Chain(c.Sound(), Ops(), out, trace) && i <= |out| && i <= 3
    requires At(trace[0], 0)
    ensures At(trace[i], i)
  {
    RunCarries(c, out, trace, i);
    HoldsAt(AtFrom(out, trace), i, i);
  }

  lemma RunStops(c: ChunkCache.Cache, out: seq<Option<Bytes>>, trace: seq<Snap>)
    requires Small(c) && GEOMETRY.Valid() && Chain(c.Sound(), Ops(), out, trace) && At(trace[0], 0)
    requires |out| < 4 ==>
      Z.Inv(trace[|out|].zs) && c.EndingOf(trace[|out|], Ops()[|out|]) != ChunkSpec.Returns
    ensures |out| == 3 && c.EndingOf(trace[3], Ops()[3]) == Spins
  {
    if |out| == 4 {
      assert c.Sound()(trace[3], Ops()[3], out[3], trace[3 + 1]);
    }
    var i := if |out| < 3 then |out| else 3;
    RunAt(c, out, trace, i);
    OneEnding(c, trace[i], i);
  }

  lemma AtStart(s: Snap)
    requires s.zs == Z.Initial(2, 1, 1) && s.m == M.Initial(2) && s.keys == []
    ensures At(s, 0)
  {
    Z.InitialInv(2, 1, 1);
    assert s.zs.free == [0, 1];
  }

  method FourGets(c: ChunkCache.Cache, src: Bytes) returns (out: seq<Option<Bytes>>, stop: Ending)
    requires c.Valid() && Small(c) && src == c.st.src && At(c.Now(), 0)
    modifies c.Parts()
    ensures |out| == 3 && stop == Spins && c.Spinning(3)
  {
    ghost var trace;
    out, stop, trace := c.Run(Ops(), src);
    RunStops(c, out, trace);
  }

  /**
   * From a new cache of two zones of one chunk, four gets of different ids on a device
   * without faults: the first three return, and the fourth goes round its loop for ever.
   */
  method SpinHappens(dev: Device, src: Bytes) returns (c: ChunkCache.Cache, out: seq<Option<Bytes>>, stop: Ending)
    requires |src| == 4096 && |dev.bytes| == 8192 && forall t :: dev.outcome(t) == 4096
    modifies dev
    ensures |out| == 3 && stop == Spins && c.Spinning(3)
  {
    c := new ChunkCache.Cache(GEOMETRY, 1, LIMITS, src, dev);
    AtStart(c.Now());
    out, stop := FourGets(c, src);
  }
}
