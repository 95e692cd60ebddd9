/** Runs of operations that each return something, as the states between them. */
module Chains {
  /** Each operation leads from one state to the next. */
  ghost predicate Chain<S, O, D>(did: (S, O, D, S) -> bool, ops: seq<O>, out: seq<D>, states: seq<S>) {
    && |states| == |out| + 1 && |out| <= |ops|
    && forall i :: 0 <= i < |out| ==> did(states[i], ops[i], out[i], states[i + 1])
  }

  lemma ChainSnoc<S, O, D>(did: (S, O, D, S) -> bool, ops: seq<O>, out: seq<D>, states: seq<S>, d: D, s: S)
    requires Chain(did, ops, out, states) && |out| < |ops| && did(states[|out|], ops[|out|], d, s)
    ensures Chain(did, ops, out + [d], states + [s])
  {
  }
}

/**
 * What a quiescent cache guarantees about its parts, as values: the zone manager, the map,
 * the bytes on the device. Shared by the caches of both policies.
 */
module CacheSpec {
  import opened Types
  import opened Transfer
  import Payload
  import Z = ZoneSpec
  import M = MapSpec

  ghost predicate Shape(g: Geometry, zs: Z.Zones, m: M.MapState) {
    && g.Valid() && Z.Inv(zs) && M.TwoWay(m)
    && |zs.zone| == |m.inverse| == g.numZones
    && zs.maxChunks == g.maxChunks
  }

  /** Every slot in the map has been written and returned since its zone's last reset. */
  ghost predicate Settled(zs: Z.Zones, m: M.MapState) {
    forall l: Loc :: M.Occupied(m, l) ==> l.zone < |zs.zone| && l.chunk < Z.Filled(zs, l.zone)
  }

  /** The slot's bytes are the source's data for `id`. */
  ghost predicate SlotHolds(g: Geometry, src: Bytes, b: Bytes, l: Loc, id: Id) {
    && |src| == g.chunkSize >= 4 && g.Start(l) + g.chunkSize <= |b|
    && b[g.Start(l)..g.Start(l) + g.chunkSize] == Payload.Gen(src, id)
  }

  /** Every id in the map has its data in its slot. */
  ghost predicate Backed(g: Geometry, src: Bytes, m: M.MapState, b: Bytes) {
    && |b| == g.zoneSize * g.numZones
    && forall id :: id in m.entry && m.entry[id].At? ==> SlotHolds(g, src, b, m.entry[id].loc, id)
  }

  ghost predicate Core(g: Geometry, src: Bytes, zs: Z.Zones, m: M.MapState, b: Bytes) {
    Shape(g, zs, m) && |src| == g.chunkSize && Settled(zs, m) && Backed(g, src, m, b)
  }

  /** Nothing is in flight: no write, no reader, no id being written. */
  ghost predicate Quiet(zs: Z.Zones, m: M.MapState) {
    && zs.writes == 0
    && (forall z :: 0 <= z < |m.readers| ==> m.readers[z] == 0)
    && (forall id :: id in m.entry ==> !m.entry[id].Cond?)
  }

  /** Only `id` is being written, and no reader is inside. */
  ghost predicate Serves(m: M.MapState, id: Id) {
    && (forall z :: 0 <= z < |m.readers| ==> m.readers[z] == 0)
    && (forall j :: j in m.entry ==> (m.entry[j].Cond? <==> j == id))
    && id in m.entry
  }

  lemma QuietAfterInsert(zs: Z.Zones, m: M.MapState, id: Id, l: Loc)
    requires Z.Inv(zs) && Serves(m, id) && Z.InFlight(zs, l) && zs.writes == 1 && l.zone < |m.inverse|
    ensures Quiet(Z.Return(zs, l), M.Insert(m, id, l))
  {
  }

  lemma QuietAfterFail(zs: Z.Zones, m: M.MapState, id: Id, l: Loc)
    requires Z.Inv(zs) && Serves(m, id) && Z.InFlight(zs, l) && zs.writes == 1
    ensures Quiet(Z.Fail(zs, l), M.FailWrite(m, id))
  {
  }

  /** Pinning for a hit and unpinning again restores the map. */
  lemma PinUnpin(m: M.MapState, id: Id, l: Loc)
    requires M.TwoWay(m) && M.Maps(m, id, l)
    ensures l.zone < |m.readers| && M.Unpin(M.Find(m, id).0, l.zone) == m
  {
    assert M.Unpin(M.Find(m, id).0, l.zone).readers == m.readers;
  }

  /** Mapped slots are slots of the device. */
  lemma MappedHas(g: Geometry, zs: Z.Zones, m: M.MapState, l: Loc)
    requires Shape(g, zs, m) && Settled(zs, m) && M.Occupied(m, l)
    ensures g.Has(l)
  {
  }

  lemma SlotSurvives(g: Geometry, src: Bytes, b: Bytes, b': Bytes, lo: nat, hi: nat, l: Loc, id: Id)
    requires SlotHolds(g, src, b, l, id) && SameOutside(b, b', lo, hi)
    requires g.Start(l) + g.chunkSize <= lo || hi <= g.Start(l)
    ensures SlotHolds(g, src, b', l, id)
  {
    var from, to := g.Start(l), g.Start(l) + g.chunkSize;
    assert b'[from..to] == b[from..to];
  }

  /** Changing bytes outside every mapped slot keeps every mapped id's data. */
  lemma BackedSurvives(g: Geometry, src: Bytes, m: M.MapState, b: Bytes, b': Bytes, lo: nat, hi: nat)
    requires Backed(g, src, m, b) && SameOutside(b, b', lo, hi)
    requires forall id :: id in m.entry && m.entry[id].At? ==>
      var l := m.entry[id].loc; g.Start(l) + g.chunkSize <= lo || hi <= g.Start(l)
    ensures Backed(g, src, m, b')
  {
    forall id | id in m.entry && m.entry[id].At? ensures SlotHolds(g, src, b', m.entry[id].loc, id) {
      SlotSurvives(g, src, b, b', lo, hi, m.entry[id].loc, id);
    }
  }

  /** Writing a slot that is not in the map disturbs no other slot's data. */
  lemma WriteKeepsBacked(g: Geometry, src: Bytes, zs: Z.Zones, m: M.MapState, b: Bytes, b': Bytes, l: Loc)
    requires Core(g, src, zs, m, b) && g.Has(l) && !M.Occupied(m, l)
    requires SameOutside(b, b', g.Start(l), g.Start(l) + g.chunkSize)
    ensures Backed(g, src, m, b')
  {
    forall id | id in m.entry && m.entry[id].At?
      ensures var k := m.entry[id].loc; g.Start(k) + g.chunkSize <= g.Start(l) || g.Start(l) + g.chunkSize <= g.Start(k)
    {
      assert M.Occupied(m, m.entry[id].loc);
      MappedHas(g, zs, m, m.entry[id].loc);
      SlotsDisjoint(g, m.entry[id].loc, l);
    }
    BackedSurvives(g, src, m, b, b', g.Start(l), g.Start(l) + g.chunkSize);
  }

  /** Resetting a zone that is not in the map disturbs no mapped slot's data. */
  lemma ResetKeepsBacked(g: Geometry, src: Bytes, zs: Z.Zones, m: M.MapState, b: Bytes, b': Bytes, z: nat)
    requires Core(g, src, zs, m, b) && z < g.numZones && m.inverse[z] == map[]
    requires SameOutside(b, b', g.zoneSize * z, g.zoneSize * z + g.zoneSize)
    ensures Backed(g, src, m, b')
  {
    var lo := g.zoneSize * z;
    forall id | id in m.entry && m.entry[id].At?
      ensures var k := m.entry[id].loc; g.Start(k) + g.chunkSize <= lo || lo + g.zoneSize <= g.Start(k)
    {
      assert M.Occupied(m, m.entry[id].loc);
      MappedHas(g, zs, m, m.entry[id].loc);
      SlotOutsideZone(g, m.entry[id].loc, z);
    }
    BackedSurvives(g, src, m, b, b', lo, lo + g.zoneSize);
  }

  /** Clearing ids can only help. */
  lemma FewerKeepsCore(g: Geometry, src: Bytes, zs: Z.Zones, m: M.MapState, b: Bytes, m': M.MapState)
    requires Core(g, src, zs, m, b) && M.TwoWay(m') && |m'.inverse| == |m.inverse|
    requires forall id, l :: M.Maps(m', id, l) ==> M.Maps(m, id, l)
    ensures Core(g, src, zs, m', b)
  {
    forall l: Loc | M.Occupied(m', l) ensures M.Occupied(m, l) {
      assert M.Maps(m', m'.inverse[l.zone][l.chunk], Loc(l.zone, l.chunk));
      assert M.Maps(m, m'.inverse[l.zone][l.chunk], l);
    }
    forall id | id in m'.entry && m'.entry[id].At? ensures SlotHolds(g, src, b, m'.entry[id].loc, id) {
      assert M.Maps(m', id, m'.entry[id].loc);
    }
  }

  lemma FindKeeps(g: Geometry, src: Bytes, zs: Z.Zones, m: M.MapState, b: Bytes, id: Id)
    requires Core(g, src, zs, m, b)
    ensures Core(g, src, zs, M.Find(m, id).0, b)
  {
    M.FindKeeps(m, id);
    FewerKeepsCore(g, src, zs, m, b, M.Find(m, id).0);
  }

  lemma UnpinKeeps(g: Geometry, src: Bytes, zs: Z.Zones, m: M.MapState, b: Bytes, z: nat)
    requires Core(g, src, zs, m, b) && z < |m.readers|
    ensures Core(g, src, zs, M.Unpin(m, z), b)
  {
    M.UnpinKeeps(m, z);
    FewerKeepsCore(g, src, zs, m, b, M.Unpin(m, z));
  }

  /** Publishing a written slot. */
  lemma InsertKeepsCore(g: Geometry, src: Bytes, zs: Z.Zones, m: M.MapState, b: Bytes, id: Id, l: Loc)
    requires Core(g, src, zs, m, b) && M.IsCond(m, id) && !M.Occupied(m, l)
    requires l.zone < |zs.zone| && l.chunk < Z.Filled(zs, l.zone) && SlotHolds(g, src, b, l, id)
    ensures Core(g, src, zs, M.Insert(m, id, l), b)
  {
    M.InsertKeepsIff(m, id, l);
    var m' := M.Insert(m, id, l);
    forall k: Loc | M.Occupied(m', k) ensures k == l || M.Occupied(m, k) {
    }
  }

  /** The manager may move on as long as no fill level of a mapped slot's zone drops. */
  lemma ZonesKeepCore(g: Geometry, src: Bytes, zs: Z.Zones, m: M.MapState, b: Bytes, zs': Z.Zones)
    requires Core(g, src, zs, m, b) && Z.Inv(zs') && |zs'.zone| == |zs.zone| && zs'.maxChunks == zs.maxChunks
    requires forall z :: 0 <= z < |zs.zone| && m.inverse[z] != map[] ==> Z.Filled(zs, z) <= Z.Filled(zs', z)
    ensures Core(g, src, zs', m, b)
  {
    forall l: Loc | M.Occupied(m, l) ensures l.chunk < Z.Filled(zs', l.zone) {
      assert m.inverse[l.zone] != map[];
    }
  }

  /** Zones, map and LRU list at one moment, and the transfers so far. */
  datatype Moment<K> = Moment(zs: Z.Zones, m: M.MapState, keys: seq<K>, tick: nat)

  /** The zones after a slot is granted and its write has gone well or not. */
  ghost function Wrote(zs: Z.Zones, ok: bool): Z.Zones
    requires Z.Inv(zs) && Z.GetActive(zs).1.Granted?
  {
    Z.GetActiveKeepsInv(zs);
    var (taken, g) := Z.GetActive(zs);
    if ok then Z.Return(taken, g.loc) else Z.Fail(taken, g.loc)
  }

  lemma TakenMeaning(zs: Z.Zones)
    requires Z.Inv(zs) && Z.GetActive(zs).1.Granted?
    ensures Z.GetActive(zs).0.maxChunks == zs.maxChunks && Z.GetActive(zs).0.writes == zs.writes + 1
  {
  }

  /**
   * What that comes to: nothing is in flight that was not before; the fill level of the
   * slot's zone has risen by one if the write went well, and no other has changed; and the
   * zone is FULL if that was its last chunk, and else the last in the active queue.
   */
  lemma WroteMeaning(zs: Z.Zones, ok: bool, z: nat)
    requires Z.Inv(zs) && Z.GetActive(zs).1.Granted? && z < |zs.zone|
    ensures var l, w := Z.GetActive(zs).1.loc, Wrote(zs, ok);
      && Z.Inv(w) && |w.zone| == |zs.zone| && w.writes == zs.writes && l.zone < |w.zone|
      && Z.Filled(w, z) == Z.Filled(zs, z) + (if ok && z == l.zone then 1 else 0)
      && (w.zone[l.zone].cond == Z.Full <==> ok && l.chunk + 1 == zs.maxChunks)
      && (w.zone[l.zone].cond != Z.Full ==> w.active != [] && w.active[|w.active| - 1] == l.zone)
  {
    Z.GetActiveKeepsInv(zs);
    TakenMeaning(zs);
    var (taken, g) := Z.GetActive(zs);
    if ok {
      Z.ReturnKeepsInv(taken, g.loc);
      Z.ReturnMeaning(taken, g.loc, z);
    } else {
      Z.FailKeepsInv(taken, g.loc);
      Z.FailMeaning(taken, g.loc, z);
    }
  }
}
