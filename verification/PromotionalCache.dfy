/**
 * The cache under the promotional (zone LRU) policy, used by one thread at a time: each
 * get or eviction runs to completion.
 */
module PromotionalSpec {
  import opened Types
  import opened LruSpec
  import opened Transfer
  import opened CacheSpec
  import Z = ZoneSpec
  import M = MapSpec

  /** The LRU list holds exactly the full zones, each once. */
  ghost predicate Listed(zs: Z.Zones, q: seq<nat>) {
    NoDup(q) && forall z: nat :: z in q <==> z < |zs.zone| && zs.zone[z].cond == Z.Full
  }

  /** The manager with a list of zones reset, in order. */
  ghost function ZonesReset(zs: Z.Zones, q: seq<nat>): Z.Zones {
    zs.(zone := seq(|zs.zone|, z requires 0 <= z < |zs.zone| => if z in q then Z.Zone(Z.Free, 0) else zs.zone[z]),
        free := zs.free + q)
  }

  /** The map with a set of zones cleared. */
  ghost function ZonesCleared(m: M.MapState, q: seq<nat>): M.MapState {
    m.(entry := map id | id in m.entry ::
         if m.entry[id].At? && m.entry[id].loc.zone in q then M.Empty else m.entry[id],
       inverse := seq(|m.inverse|, z requires 0 <= z < |m.inverse| => if z in q then map[] else m.inverse[z]))
  }

  lemma ResetOneMore(zs: Z.Zones, q: seq<nat>, z: nat)
    requires Z.Inv(ZonesReset(zs, q)) && z !in q && z < |zs.zone| && zs.zone[z].cond == Z.Full
    ensures Z.Reset(ZonesReset(zs, q), z) == ZonesReset(zs, q + [z])
  {
    assert Z.Reset(ZonesReset(zs, q), z).zone == ZonesReset(zs, q + [z]).zone;
    assert (zs.free + q) + [z] == zs.free + (q + [z]);
  }

  lemma ClearOneMore(m: M.MapState, q: seq<nat>, z: nat)
    requires z < |m.inverse|
    ensures M.ClearZone(ZonesCleared(m, q), z) == ZonesCleared(m, q + [z])
  {
    var a, b := M.ClearZone(ZonesCleared(m, q), z), ZonesCleared(m, q + [z]);
    assert a.entry == b.entry;
    assert a.inverse == b.inverse;
  }

  lemma NothingReset(zs: Z.Zones, m: M.MapState)
    ensures ZonesReset(zs, []) == zs && ZonesCleared(m, []) == m
  {
    assert ZonesReset(zs, []).zone == zs.zone;
    assert ZonesCleared(m, []).entry == m.entry;
    assert ZonesCleared(m, []).inverse == m.inverse;
  }

  /** Resetting a prefix of the list leaves the rest of it listed. */
  lemma SuffixListed(zs: Z.Zones, q: seq<nat>, n: nat)
    requires Listed(zs, q) && n <= |q|
    ensures Listed(ZonesReset(zs, q[..n]), q[n..])
  {
    assert q == q[..n] + q[n..];
    forall z: nat ensures z in q[n..] <==> z in q && z !in q[..n] {
      if z in q[n..] {
        var j :| n <= j < |q| && q[j] == z;
        assert forall i :: 0 <= i < n ==> q[..n][i] != z;
      }
    }
  }

  /** Filling a zone puts it on the list; anything else leaves the full zones alone. */
  lemma ReturnListed(zs: Z.Zones, q: seq<nat>, l: Loc)
    requires Z.Inv(zs) && Listed(zs, q) && Z.InFlight(zs, l)
    ensures l.zone !in q
    ensures Listed(Z.Return(zs, l), if l.chunk + 1 == zs.maxChunks then q + [l.zone] else q)
  {
  }

  lemma SameFullListed(zs: Z.Zones, zs': Z.Zones, q: seq<nat>, q': seq<nat>)
    requires Listed(zs, q) && |zs'.zone| == |zs.zone| && NoDup(q')
    requires forall z :: z in q' <==> z in q
    requires forall z :: 0 <= z < |zs.zone| ==> (zs'.zone[z].cond == Z.Full <==> zs.zone[z].cond == Z.Full)
    ensures Listed(zs', q')
  {
  }

  /** A lone request is never told to retry, and is served when a zone is free. */
  lemma NeverRetries(zs: Z.Zones)
    requires Z.Inv(zs) && zs.writes == 0
    ensures !Z.GetActive(zs).1.Retry?
    ensures zs.free != [] ==> Z.GetActive(zs).1.Granted?
  {
  }

  lemma AllFullListed(zs: Z.Zones, q: seq<nat>)
    requires Z.Inv(zs) && Listed(zs, q) && Z.GetActive(zs).1.Evict?
    ensures |zs.free| == 0 && (|q| == 0 <==> |zs.zone| == 0)
  {
    Z.RefusalMeaning(zs);
    if |zs.zone| > 0 {
      assert 0 in q;
    }
    if q != [] {
      assert q[0] in q;
    }
  }

  /** The number of zones one call of `zn_fg_evict` frees. */
  function EvictCount(low: nat, free: nat, listed: nat): nat {
    Min(Sub32(low, free), listed)
  }

  /**
   * The count is the shortfall of free zones, as far as the list goes, exactly when the
   * free zones do not exceed the threshold or the list is empty; beyond it the unsigned
   * subtraction wraps and the whole list is evicted.
   */
  lemma EvictCountMeaning(low: nat, free: nat, listed: nat)
    requires low < TWO32 && free + listed < TWO32
    ensures (EvictCount(low, free, listed) == if free <= low then Min(low - free, listed) else 0)
            <==> (free <= low || listed == 0)
    ensures free > low ==> EvictCount(low, free, listed) == listed
  {
    Sub32Meaning(low, free);
  }

  // ---------- what a get and an eviction come to ----------

  type Snap = Moment<nat>

  /** The parts agree: the maps are inverse, and the list holds exactly the full zones. */
  ghost predicate Agreed(s: Snap) {
    Z.Inv(s.zs) && M.TwoWay(s.m) && Settled(s.zs, s.m) && Listed(s.zs, s.keys)
  }

  /** Every zone is full and an eviction frees none: a get that misses would loop for ever. */
  ghost predicate Stalls(low: nat, zs: Z.Zones)
    requires Z.Inv(zs)
  {
    Z.GetActive(zs).1.Evict? && (low == 0 || |zs.zone| == 0)
  }

  /** The zones a get must evict, given the list before it: none unless every zone is full. */
  ghost function Evicted(low: nat, zs: Z.Zones, q: seq<nat>): (r: seq<nat>)
    requires Z.Inv(zs)
    ensures |r| <= |q| && r == q[..|r|]
  {
    if Z.GetActive(zs).1.Evict? then q[..EvictCount(low, 0, |q|)] else q[..0]
  }

  /** When that is, zone by zone. */
  lemma StallsMeaning(low: nat, zs: Z.Zones)
    requires Z.Inv(zs)
    ensures Stalls(low, zs) <==>
            (forall z :: 0 <= z < |zs.zone| ==> zs.zone[z].cond == Z.Full) && (low == 0 || |zs.zone| == 0)
  {
    Z.RefusalMeaning(zs);
  }

  /** Which zones those are: none while some zone is not FULL, and otherwise the `low` oldest, or all. */
  lemma EvictedMeaning(low: nat, zs: Z.Zones, q: seq<nat>)
    requires Z.Inv(zs) && low < TWO32
    ensures var gone := Evicted(low, zs, q);
      && gone == q[..|gone|]
      && |gone| == if forall z :: 0 <= z < |zs.zone| ==> zs.zone[z].cond == Z.Full then
                     (if low < |q| then low else |q|)
                   else 0
  {
    Z.RefusalMeaning(zs);
    Sub32Meaning(low, 0);
  }

  /** What resetting and clearing a list of zones comes to, zone by zone and id by id. */
  lemma GoneMeaning(zs: Z.Zones, m: M.MapState, q: seq<nat>, z: nat, id: Id, l: Loc)
    requires z < |zs.zone|
    ensures |ZonesReset(zs, q).zone| == |zs.zone| && ZonesReset(zs, q).free == zs.free + q
    ensures ZonesReset(zs, q).zone[z] == if z in q then Z.Zone(Z.Free, 0) else zs.zone[z]
    ensures M.Maps(ZonesCleared(m, q), id, l) <==> M.Maps(m, id, l) && l.zone !in q
    ensures M.IsCond(ZonesCleared(m, q), id) <==> M.IsCond(m, id)
    ensures ZonesCleared(m, q).readers == m.readers
  {
  }

  /** From `s`, the search for a slot has evicted what it had to, if anything. */
  ghost predicate Searched(low: nat, s: Snap, s': Snap) {
    && Z.Inv(s.zs)
    && var gone := Evicted(low, s.zs, s.keys);
       s' == Moment(ZonesReset(s.zs, gone), ZonesCleared(s.m, gone), s.keys[|gone|..], s.tick)
  }

  /** From `s`, the search for a slot has got `l`, out of the zones `mid`. */
  ghost predicate SlotTaken(low: nat, s: Snap, mid: Z.Zones, l: Loc, s': Snap) {
    && Searched(low, s, s'.(zs := mid))
    && Z.Inv(mid) && (s'.zs, Z.Granted(l)) == Z.GetActive(mid)
  }

  /** The write to `l` has ended, well or not. */
  ghost predicate WriteEnded(s: Snap, id: Id, l: Loc, ok: bool, s': Snap) {
    && Z.Inv(s.zs) && Z.InFlight(s.zs, l) && l.zone < |s.m.inverse|
    && s'.zs == (if ok then Z.Return(s.zs, l) else Z.Fail(s.zs, l))
    && s'.m == (if ok then M.Insert(s.m, id, l) else M.FailWrite(s.m, id))
    && s'.keys == s.keys + (if ok && l.chunk + 1 == s.zs.maxChunks then [l.zone] else [])
  }

  /** The map after a miss: `id` is at `l` or nowhere, and of the others just those in `gone` are forgotten. */
  ghost predicate MissMap(m: M.MapState, gone: seq<nat>, m': M.MapState, id: Id, l: Loc, ok: bool) {
    && (ok <==> M.Cached(m', id)) && (ok ==> M.Maps(m', id, l))
    && forall j, k :: j != id ==> (M.Maps(m', j, k) <==> M.Maps(m, j, k) && k.zone !in gone)
  }

  /**
   * A miss that is served, with the write going well or not: the zones it had to evict are
   * free again, the slot granted has been written or given back, its zone is listed if that
   * filled it, and the map is as `MissMap` says.
   */
  ghost predicate Missed(low: nat, s: Snap, id: Id, ok: bool, s': Snap) {
    && Z.Inv(s.zs)
    && var gone := Evicted(low, s.zs, s.keys);
       var mid := ZonesReset(s.zs, gone);
       && Z.Inv(mid) && Z.GetActive(mid).1.Granted? && s'.zs == Wrote(mid, ok)
       && var l := Z.GetActive(mid).1.loc;
          && s'.keys == s.keys[|gone|..] + (if ok && l.chunk + 1 == s.zs.maxChunks then [l.zone] else [])
          && MissMap(s.m, gone, s'.m, id, l, ok)
  }

  /** What `zn_fg_evict` does: as many of the oldest zones as it counts are free again and forgotten. */
  ghost predicate EvictedTo(low: nat, s: Snap, s': Snap) {
    var n := EvictCount(low, |s.zs.free|, |s.keys|);
    && n <= |s.keys| && s'.zs == ZonesReset(s.zs, s.keys[..n])
    && s'.m == ZonesCleared(s.m, s.keys[..n]) && s'.keys == s.keys[n..]
  }

  /** What a miss does to the map, after the lookup and whatever was evicted. */
  lemma MissMaps(m: M.MapState, gone: seq<nat>, m': M.MapState, id: Id, l: Loc, ok: bool)
    requires M.TwoWay(m) && !M.Cached(m, id)
    requires ok ==> l.zone < |m.inverse| && m' == M.Insert(ZonesCleared(M.Find(m, id).0, gone), id, l)
    requires !ok ==> m' == M.FailWrite(ZonesCleared(M.Find(m, id).0, gone), id)
    ensures MissMap(m, gone, m', id, l, ok)
  {
    var found := M.Find(m, id).0;
    M.FindKeeps(m, id);
    forall j, k | j != id ensures M.Maps(m', j, k) <==> M.Maps(found, j, k) && k.zone !in gone {
      assert M.Maps(ZonesCleared(found, gone), j, k) <==> M.Maps(found, j, k) && k.zone !in gone;
    }
  }

  /** Put together: the lookup, the search for a slot, the write and its end. */
  lemma MissedBy(low: nat, s: Snap, id: Id, mid: Z.Zones, l: Loc, s1: Snap, ok: bool, s2: Snap)
    requires M.TwoWay(s.m) && !M.Cached(s.m, id)
    requires SlotTaken(low, s.(m := M.Find(s.m, id).0), mid, l, s1) && WriteEnded(s1, id, l, ok, s2)
    ensures Missed(low, s, id, ok, s2)
  {
    Z.GetActiveKeepsInv(mid);
    MissMaps(s.m, Evicted(low, s.zs, s.keys), s2.m, id, l, ok);
  }

  lemma SearchedAtOnce(low: nat, s: Snap)
    requires Z.Inv(s.zs)
    ensures !Z.GetActive(s.zs).1.Evict? ==> Searched(low, s, s)
  {
    NothingReset(s.zs, s.m);
    assert s.keys[..0] == [] && s.keys[0..] == s.keys;
  }
}

module PromotionalCache {
  import opened Types
  import opened LruSpec
  import opened Transfer
  import opened CacheSpec
  import opened PromotionalSpec
  import opened Chains
  import Payload
  import Z = ZoneSpec
  import M = MapSpec
  import Store
  import LruList

  datatype Op = Get(id: Id) | Evict

  /** How a get ends: served, with or without data, or going round its loop for ever. */
  datatype Outcome = Served(data: Option<Bytes>) | Spinning

  class Cache {
    const st: Store.Store
    const lru: LruList.List<nat>
    const low: nat                     // EVICT_LOW_THRESH_ZONES
    var hits: nat
    var misses: nat

    ghost function Repr(): set<object> {
      st.Parts() + {this, lru}
    }

    /** The policy and the store agree; true throughout a get, not only between gets. */
    ghost predicate Consistent()
      reads Repr()
    {
      low < TWO32 && st.Sound() && lru.Valid() && Listed(st.zsm.View(), lru.Keys())
    }

    ghost predicate Valid()
      reads Repr()
    {
      Consistent() && st.AtRest()
    }

    constructor (g: Geometry, maxActive: nat, low: nat, ghost src: Bytes, dev: Device)
      requires g.Valid() && 1 <= maxActive && 1 <= g.maxChunks && |src| == g.chunkSize
      requires |dev.bytes| == g.zoneSize * g.numZones && low < TWO32
      ensures Valid() && st.g == g && st.src == src && this.low == low
      ensures fresh(Repr() - {dev}) && st.dev == dev
    {
      st := new Store.Store(g, maxActive, src, dev);
      lru := new LruList.List();
      this.low, hits, misses := low, 0, 0;
    }

    /**
     * `zn_fg_evict`: resets the least recently used zones, as many as the free zones fall
     * short of the threshold (in 32-bit arithmetic) and the list allows, and forgets
     * exactly the ids stored there.
     */
    method FgEvict() returns (freed: nat)
      requires Consistent() && forall z :: 0 <= z < st.activeReaders.Length ==> st.activeReaders[z] == 0
      modifies Repr()
      ensures Consistent()
      ensures freed == EvictCount(low, |old(st.zsm.free)|, |old(lru.Keys())|)
      ensures lru.Keys() == old(lru.Keys())[freed..]
      ensures st.zsm.View() == ZonesReset(old(st.zsm.View()), old(lru.Keys())[..freed])
      ensures st.cmap.View() == ZonesCleared(old(st.cmap.View()), old(lru.Keys())[..freed])
      ensures hits == old(hits) && misses == old(misses) && st.dev.tick == old(st.dev.tick)
    {
      ghost var zs, m, q := st.zsm.View(), st.cmap.View(), lru.Keys();
      NothingReset(zs, m);
      assert q[..0] == [] && q[0..] == q;
      var limit := Sub32(low, |st.zsm.free|);
      freed := 0;
      while freed < limit
        invariant freed <= limit && freed <= |q|
        invariant st.Sound() && lru.Valid() && lru.Keys() == q[freed..]
        invariant st.zsm.View() == ZonesReset(zs, q[..freed])
        invariant st.cmap.View() == ZonesCleared(m, q[..freed])
        invariant hits == old(hits) && misses == old(misses) && st.dev.tick == old(st.dev.tick)
      {
        if |lru.queue| == 0 {
          break;
        }
        EvictRound(zs, m, q, freed);
        freed := freed + 1;
      }
      SuffixListed(zs, q, freed);
    }

    /** One round of the eviction loop. */
    method EvictRound(ghost zs: Z.Zones, ghost m: M.MapState, ghost q: seq<nat>, ghost n: nat)
      requires n < |q| && Listed(zs, q) && st.Sound() && lru.Valid() && lru.Keys() == q[n..]
      requires st.zsm.View() == ZonesReset(zs, q[..n]) && st.cmap.View() == ZonesCleared(m, q[..n])
      modifies st.Parts(), lru
      ensures st.Sound() && lru.Valid() && lru.Keys() == q[n + 1..] && st.dev.tick == old(st.dev.tick)
      ensures st.zsm.View() == ZonesReset(zs, q[..n + 1]) && st.cmap.View() == ZonesCleared(m, q[..n + 1])
    {
      var z := lru.PopHead();
      EvictOne(zs, m, q, n, z);
    }

    /** The round after the pop. */
    method EvictOne(ghost zs: Z.Zones, ghost m: M.MapState, ghost q: seq<nat>, ghost n: nat, z: nat)
      requires n < |q| && q[n] == z && Listed(zs, q) && st.Sound()
      requires st.zsm.View() == ZonesReset(zs, q[..n]) && st.cmap.View() == ZonesCleared(m, q[..n])
      modifies st.Parts()
      ensures st.Sound() && st.dev.tick == old(st.dev.tick)
      ensures st.zsm.View() == ZonesReset(zs, q[..n + 1]) && st.cmap.View() == ZonesCleared(m, q[..n + 1])
    {
      assert z in q && z !in q[..n];
      assert q[..n + 1] == q[..n] + [z];
      ResetOneMore(zs, q[..n], z);
      ClearOneMore(m, q[..n], z);
      M.ClearZoneKeeps(st.cmap.View(), z);
      FewerKeepsCore(st.g, st.src, st.zsm.View(), st.cmap.View(), st.dev.bytes, M.ClearZone(st.cmap.View(), z));
      st.cmap.ClearZone(z);
      st.ResetZone(z);
    }

    /** A get of `id` that owns the write and has no slot. */
    ghost predicate Seeking(id: Id)
      reads Repr()
    {
      Consistent() && st.Serving(id) && st.zsm.writes == 0
    }

    /** Zones, map, list and transfers at this moment. */
    ghost function Now(): Snap
      requires st.cmap.activeReaders == st.activeReaders
      reads Repr()
    {
      Moment(st.zsm.View(), st.cmap.View(), lru.Keys(), st.dev.tick)
    }

    /** A get of `id` that has been granted slot `l`. */
    ghost predicate Holding(id: Id, l: Loc)
      reads Repr()
    {
      Consistent() && st.Serving(id) && st.zsm.writes == 1 && Z.InFlight(st.zsm.View(), l)
    }

    /** The eviction a get performs when every zone is full. */
    method EvictForSlot(ghost id: Id) returns (freed: nat)
      requires Seeking(id) && Z.GetActive(st.zsm.View()).1.Evict?
      modifies Repr()
      ensures Seeking(id) && (freed == 0 <==> Stalls(low, old(st.zsm.View())))
      ensures freed == 0 ==> Now() == old(Now())
      ensures freed > 0 ==> st.zsm.free != []
      ensures Searched(low, old(Now()), Now())
      ensures hits == old(hits) && misses == old(misses)
    {
      AllFullListed(st.zsm.View(), lru.Keys());
      NothingReset(st.zsm.View(), st.cmap.View());
      Sub32Meaning(low, 0);
      freed := FgEvict();
      assert st.activeReaders[..] == old(st.activeReaders[..]) by {
        assert st.cmap.View().readers == old(st.cmap.View()).readers;
      }
    }

    method TakeSlot(ghost id: Id) returns (r: Z.Grant)
      requires Seeking(id)
      modifies st.zsm, st.zsm.zone
      ensures r == Z.GetActive(old(st.zsm.View())).1 && !r.Retry? && (old(st.zsm.free) != [] ==> r.Granted?)
      ensures r.Granted? ==> Holding(id, r.loc) && Now() == old(Now()).(zs := Z.GetActive(old(st.zsm.View())).0)
      ensures !r.Granted? ==> Seeking(id) && Now() == old(Now())
    {
      ghost var zs := st.zsm.View();
      Z.GetActiveKeepsInv(zs);
      NeverRetries(zs);
      r := st.RequestSlot();
      SameFullListed(zs, st.zsm.View(), lru.Keys(), lru.Keys());
    }

    /**
     * The loop around `zsm_get_active_zone`, run alone: it never meets RETRY, and it evicts
     * at most once, exactly when every zone is full; it stops with no slot exactly when that
     * eviction can free no zone, so that the same pass would come round for ever.
     */
    method AcquireSlot(ghost id: Id) returns (slot: Option<Loc>, evictions: nat, ghost mid: Z.Zones)
      requires Seeking(id)
      modifies Repr()
      ensures evictions == if Z.GetActive(old(st.zsm.View())).1.Evict? then 1 else 0
      ensures slot.None? <==> Stalls(low, old(st.zsm.View()))
      ensures slot.None? ==> Seeking(id) && Now() == old(Now())
      ensures slot.Some? ==> Holding(id, slot.value) && SlotTaken(low, old(Now()), mid, slot.value, Now())
      ensures hits == old(hits) && misses == old(misses)
    {
      ghost var s := Now();
      SearchedAtOnce(low, s);
      evictions := 0;
      while true
        invariant Seeking(id) && hits == old(hits) && misses == old(misses)
        invariant evictions == 0 ==> Now() == s
        invariant evictions > 0 ==> evictions == 1 && st.zsm.free != [] && Searched(low, s, Now())
        invariant evictions > 0 ==> Z.GetActive(s.zs).1.Evict? && !Stalls(low, s.zs)
        decreases 1 - evictions
      {
        mid := st.zsm.View();
        var r := TakeSlot(id);
        if r.Granted? {
          slot := Some(r.loc);
          return;
        }
        var freed := EvictForSlot(id);
        evictions := evictions + 1;
        if freed == 0 {
          slot := None;
          return;
        }
      }
    }

    /** `zn_policy_promotional_update` for a write: a zone is listed when its last chunk is written. */
    method PolicyWrite(l: Loc, ghost zs: Z.Zones)
      requires Z.Inv(zs) && Z.InFlight(zs, l) && Listed(zs, lru.Keys())
      requires low < TWO32 && st.Sound() && lru.Valid() && st.zsm.View() == Z.Return(zs, l)
      modifies lru
      ensures Consistent()
      ensures lru.Keys() == old(lru.Keys()) + (if l.chunk + 1 == zs.maxChunks then [l.zone] else [])
    {
      ReturnListed(zs, lru.Keys(), l);
      if l.chunk == st.g.maxChunks - 1 {
        lru.PushTail(l.zone);
      }
    }

    /** After a good write: return the zone, tell the policy, publish. */
    method Commit(id: Id, l: Loc)
      requires Holding(id, l)
      requires SlotHolds(st.g, st.src, st.dev.bytes, l, id)
      modifies Repr()
      ensures Valid() && WriteEnded(old(Now()), id, l, true, Now())
      ensures hits == old(hits) && misses == old(misses)
    {
      ghost var zs := st.zsm.View();
      Z.ReturnKeepsInv(zs, l);
      QuietAfterInsert(zs, st.cmap.View(), id, l);
      assert !M.Occupied(st.cmap.View(), l);
      st.ReturnSlot(l);
      PolicyWrite(l, zs);
      st.Publish(id, l);
    }

    /** After a failed write: the slot goes back to its zone and the id's entry is emptied. */
    method Rollback(id: Id, l: Loc)
      requires Holding(id, l)
      modifies Repr()
      ensures Valid() && WriteEnded(old(Now()), id, l, false, Now())
      ensures hits == old(hits) && misses == old(misses)
    {
      ghost var zs := st.zsm.View();
      QuietAfterFail(zs, st.cmap.View(), id, l);
      st.Undo(id, l);
      Z.FailKeepsInv(zs, l);
      SameFullListed(zs, Z.Fail(zs, l), lru.Keys(), lru.Keys());
    }

    /** The miss path once a slot is granted. */
    method WriteBack(id: Id, l: Loc, random: Bytes) returns (data: Option<Bytes>)
      requires Holding(id, l)
      requires random == st.src
      modifies Repr()
      ensures Valid() && hits == old(hits)
      ensures data.Some? <==> st.Writable(old(st.dev.tick))
      ensures data.Some? ==> data.value == Payload.Gen(st.src, id) && misses == old(misses) + 1
      ensures data.None? ==> misses == old(misses)
      ensures WriteEnded(old(Now()), id, l, data.Some?, Now())
    {
      var buffer, ret := st.WriteSlot(id, l, random);
      if ret != 0 {
        Rollback(id, l);
        return None;
      }
      misses := misses + 1;
      Commit(id, l);
      return Some(buffer);
    }

    /** The hit path: read the pinned slot, tell the policy, unpin. */
    method Hit(id: Id, l: Loc, ghost m: M.MapState) returns (data: Option<Bytes>)
      requires Consistent() && Quiet(st.zsm.View(), m) && M.TwoWay(m) && M.Maps(m, id, l)
      requires st.cmap.View() == M.Find(m, id).0
      modifies Repr()
      ensures Valid() && st.zsm.View() == old(st.zsm.View()) && st.cmap.View() == m
      ensures lru.Keys() == Touch(old(lru.Keys()), l.zone)
      ensures data.Some? ==> data.value == Payload.Gen(st.src, id)
      ensures data.Some? <==> st.Readable(l, old(st.dev.tick))
      ensures hits == old(hits) + 1 && misses == old(misses)
    {
      data := st.ReadSlot(id, l);
      TouchKeeps(lru.Keys(), l.zone);
      lru.Use(l.zone);
      SameFullListed(st.zsm.View(), st.zsm.View(), old(lru.Keys()), lru.Keys());
      PinUnpin(m, id, l);
      st.Unpin(l.zone);
      hits := hits + 1;
    }

    /** The operation returns: a get does unless it misses with every zone full and none to be freed. */
    ghost predicate Returns(s: Snap, op: Op)
      requires Z.Inv(s.zs)
    {
      op.Get? && !M.Cached(s.m, op.id) ==> !Stalls(low, s.zs)
    }

    /**
     * What an operation that returns does. A hit returns data exactly when the slot can be
     * read and changes only the LRU order. A miss returns data, and maps its id to the slot
     * granted, exactly when that can be written; the only other ids that change are those in
     * the zones evicted: none unless every zone was full. An eviction resets and forgets the
     * oldest zones.
     */
    ghost predicate Did(s: Snap, op: Op, data: Option<Bytes>, s': Snap)
      requires st.g.Valid()
    {
      && Z.Inv(s.zs) && Returns(s, op)
      && match op
         case Get(id) =>
           if M.Cached(s.m, id) then
             var l := s.m.entry[id].loc;
             && (data.Some? <==> st.Readable(l, s.tick))
             && s'.zs == s.zs && s'.m == s.m && s'.keys == Touch(s.keys, l.zone)
           else
             (data.Some? <==> st.Writable(s.tick)) && Missed(low, s, id, data.Some?, s')
         case Evict =>
           data.None? && EvictedTo(low, s, s')
    }

    /** What an operation returned, if anything, is the source's data for its id. */
    ghost predicate Faithful(op: Op, data: Option<Bytes>) {
      op.Get? && data.Some? ==> |st.src| >= 4 && data.value == Payload.Gen(st.src, op.id)
    }

    /** A get of `id` goes round its loop for ever: each pass finds and leaves things as they are. */
    ghost predicate Stuck(id: Id)
      reads Repr()
    {
      Seeking(id) && Stalls(low, st.zsm.View())
    }

    /**
     * `zn_cache_get`. Transparency: a returned buffer is always the source's data for the
     * id. What the get does, and whether it returns, is decided by what it finds.
     */
    method Get(id: Id, random: Bytes) returns (r: Outcome, evictions: nat)
      requires Valid() && random == st.src
      modifies Repr()
      ensures r.Served? <==> Returns(old(Now()), Op.Get(id))
      ensures r.Served? ==> Valid() && Faithful(Op.Get(id), r.data) && Did(old(Now()), Op.Get(id), r.data, Now())
      ensures M.Cached(old(Now()).m, id) ==> evictions == 0 && hits == old(hits) + 1 && misses == old(misses)
      ensures !M.Cached(old(Now()).m, id) ==>
        && evictions == (if Z.GetActive(old(st.zsm.View())).1.Evict? then 1 else 0)
        && hits == old(hits) && misses == old(misses) + (if r.Served? && r.data.Some? then 1 else 0)
      ensures r.Spinning? ==>
        Stuck(id) && M.TwoWay(old(Now()).m) && Now() == old(Now()).(m := M.Find(old(Now()).m, id).0)
    {
      ghost var s := Now();
      var found := LookUp(id);
      match found
      case Hit(l) =>
        var data := Hit(id, l, s.m);
        r, evictions := Served(data), 0;
      case Owner =>
        r, evictions := Miss(id, random, s);
    }

    method LookUp(id: Id) returns (r: M.Found)
      requires Valid()
      modifies st.cmap, st.activeReaders
      ensures Consistent() && !r.Blocked? && M.TwoWay(old(Now()).m)
      ensures (Now().m, r) == M.Find(old(Now()).m, id) && Now() == old(Now()).(m := Now().m)
      ensures r.Owner? ==> Seeking(id)
    {
      r := st.Find(id);
    }

    /** The miss path of a get that began in state `s`. */
    method Miss(id: Id, random: Bytes, ghost s: Snap) returns (r: Outcome, evictions: nat)
      requires Seeking(id) && random == st.src && Z.Inv(s.zs) && M.TwoWay(s.m) && !M.Cached(s.m, id)
      requires Now() == s.(m := M.Find(s.m, id).0)
      modifies Repr()
      ensures evictions == if Z.GetActive(s.zs).1.Evict? then 1 else 0
      ensures r.Spinning? <==> Stalls(low, s.zs)
      ensures r.Spinning? ==> Seeking(id) && Now() == old(Now())
      ensures hits == old(hits) && misses == old(misses) + (if r.Served? && r.data.Some? then 1 else 0)
      ensures r.Served? ==>
        && Valid() && (r.data.Some? <==> st.Writable(s.tick)) && Missed(low, s, id, r.data.Some?, Now())
        && (r.data.Some? ==> r.data.value == Payload.Gen(st.src, id))
    {
      var slot;
      ghost var mid;
      slot, evictions, mid := AcquireSlot(id);
      if slot.None? {
        return Spinning, evictions;
      }
      ghost var taken := Now();
      var data := WriteBack(id, slot.value, random);
      MissedBy(low, s, id, mid, slot.value, taken, data.Some?, Now());
      r := Served(data);
    }

    // ---------- whole runs ----------

    lemma NowAgrees()
      requires Consistent()
      ensures Agreed(Now())
    {
    }

    /** The operation did what it does, returned the source's data if any, and left the parts in agreement. */
    ghost function Sound(): (Snap, Op, Option<Bytes>, Snap) -> bool
      requires st.g.Valid()
    {
      (s: Snap, op: Op, data: Option<Bytes>, s': Snap) => Did(s, op, data, s') && Faithful(op, data) && Agreed(s')
    }

    /**
     * Any sequence of gets and evictions, through the states of `trace`: each does what it
     * does to the state it finds, every buffer returned is the source's data for its id, and
     * the parts agree after every operation. All of them return, unless there is no zone or
     * nothing may ever be evicted; then the first get that does not is one that misses with
     * every zone full.
     */
    method Run(ops: seq<Op>, random: Bytes) returns (out: seq<Option<Bytes>>, ghost trace: seq<Snap>)
      requires Valid() && random == st.src
      modifies Repr()
      ensures st.g.Valid() && Chain(Sound(), ops, out, trace) && trace[0] == old(Now())
      ensures |out| == |ops| ==> Valid() && trace[|out|] == Now()
      ensures |out| < |ops| ==>
        && Z.Inv(trace[|out|].zs) && !Returns(trace[|out|], ops[|out|])
        && ops[|out|].Get? && Stuck(ops[|out|].id)
      ensures 1 <= low && 1 <= st.g.numZones ==> |out| == |ops|
    {
      out, trace := [], [Now()];
      for i := 0 to |ops|
        invariant Valid() && |out| == i && Chain(Sound(), ops, out, trace)
        invariant trace[0] == old(Now()) && trace[i] == Now()
      {
        var r, _ := Perform(ops[i], random);
        if r.Spinning? {
          return;
        }
        NowAgrees();
        ChainSnoc(Sound(), ops, out, trace, r.data, Now());
        out, trace := out + [r.data], trace + [Now()];
      }
    }

    /** One operation, with the check of what a get returned: the check always passes. */
    method Perform(op: Op, random: Bytes) returns (r: Outcome, verdict: Option<int>)
      requires Valid() && random == st.src
      modifies Repr()
      ensures r.Served? <==> Returns(old(Now()), op)
      ensures r.Served? ==> Valid() && Faithful(op, r.data) && Did(old(Now()), op, r.data, Now())
      ensures r.Spinning? ==> op.Get? && Stuck(op.id) && (low == 0 || st.g.numZones == 0)
      ensures verdict == if op.Get? && r.Served? && r.data.Some? then Some(0) else None
    {
      match op
      case Get(id) =>
        var evictions;
        r, evictions := Get(id, random);
        verdict := Validate(id, r, random);
      case Evict =>
        EvictAtRest();
        r, verdict := Served(None), None;
    }

    /** The check of a get's result, made only if there is one. */
    method Validate(id: Id, r: Outcome, random: Bytes) returns (verdict: Option<int>)
      requires random == st.src && (r.Served? ==> Faithful(Op.Get(id), r.data))
      ensures verdict == if r.Served? && r.data.Some? then Some(0) else None
    {
      verdict := None;
      if r.Served? && r.data.Some? {
        var v := Payload.ValidateRead(r.data.value, id, random);
        verdict := Some(v);
      }
    }

    /** An eviction between gets. */
    method EvictAtRest()
      requires Valid()
      modifies Repr()
      ensures Valid() && Did(old(Now()), Op.Evict, None, Now())
    {
      var _ := FgEvict();
      assert st.cmap.View().readers == old(st.cmap.View()).readers;
    }
  }
}
