/** The cache under the chunk policy, used by one thread at a time. */
module ChunkCache {
  import opened Types
  import opened LruSpec
  import opened Transfer
  import opened CacheSpec
  import opened ChunkPool
  import opened ChunkSpec
  import opened Chains
  import Payload
  import Z = ZoneSpec
  import M = MapSpec
  import Store
  import ChunkPolicy

  datatype Round = NoneLeft | Emptied(zone: nat) | FoundLive

  datatype Op = Get(id: Id) | Evict

  /** How an operation ends: it returns, with or without data, or it does not. */
  datatype Outcome = Served(data: Option<Bytes>) | Stopped(why: Ending)

  datatype Slot = Got(loc: Loc) | NoSlot(why: Ending)

  class Cache {
    const st: Store.Store
    const pol: ChunkPolicy.Policy
    const lim: Limits

    ghost function Parts(): set<object>
      reads pol.heap
    {
      st.Parts() + pol.Repr()
    }

    /** The heap holds exactly the full zones. */
    ghost predicate HeapIsFull()
      reads st.zsm, st.zsm.zone, pol, pol.heap
    {
      pol.HeapZones() == FullZones(st.zsm.View())
    }

    ghost predicate Sized()
      reads pol
    {
      && pol.maxChunks == st.g.maxChunks && |pol.pool.inUse| == |pol.pool.live| == st.g.numZones
      && 1 <= st.g.numZones && lim.Valid() && lim.total == st.g.numZones * st.g.maxChunks
    }

    /** The policy shares no object with the store. */
    ghost predicate Apart()
      reads pol.heap
    {
      && st.zsm !in pol.Repr() && st.zsm.zone !in pol.Repr() && st.cmap !in pol.Repr()
      && st.cmap.dataMap !in pol.Repr() && st.activeReaders !in pol.Repr() && st.dev !in pol.Repr()
    }

    /** Store, pool, list and heap agree. */
    ghost predicate Consistent()
      reads Parts()
    {
      Apart() && st.Sound() && pol.Valid() && Sized() && Agrees(st.cmap.View(), pol.lru.Keys()) && HeapIsFull()
    }

    ghost predicate Valid()
      reads Parts()
    {
      Consistent() && st.AtRest()
    }

    constructor (g: Geometry, maxActive: nat, lim: Limits, ghost src: Bytes, dev: Device)
      requires g.Valid() && 1 <= maxActive && 1 <= g.maxChunks && 1 <= g.numZones && |src| == g.chunkSize
      requires |dev.bytes| == g.zoneSize * g.numZones
      requires lim.Valid() && lim.total == g.numZones * g.maxChunks
      ensures Valid() && fresh(Parts() - {dev}) && st.g == g && st.src == src && st.dev == dev && this.lim == lim
      ensures st.zsm.View() == Z.Initial(g.numZones, maxActive, g.maxChunks)
      ensures st.cmap.View() == M.Initial(g.numZones) && pol.lru.Keys() == []
    {
      st := new Store.Store(g, maxActive, src, dev);
      pol := new ChunkPolicy.Policy(g.numZones, g.maxChunks);
      this.lim := lim;
      new;
      Starts(maxActive);
    }

    /** A new store and a new policy agree. */
    lemma Starts(maxActive: nat)
      requires Apart() && st.Sound() && st.AtRest() && pol.Valid() && Sized()
      requires st.zsm.View() == Z.Initial(st.g.numZones, maxActive, st.g.maxChunks)
      requires st.cmap.View() == M.Initial(st.g.numZones) && pol.lru.Keys() == [] && pol.HeapZones() == {}
      ensures Valid()
    {
      InitialAgrees(st.g.numZones, maxActive, st.g.maxChunks);
    }

    /**
     * The eviction loop of `zn_policy_chunk_evict`: the `k` least recently used chunks go
     * out of use and out of the map, oldest first.
     */
    method Invalidate(k: nat)
      requires Consistent() && k <= |pol.lru.Keys()|
      modifies pol.Repr(), st.cmap, st.cmap.dataMap
      ensures Consistent() && pol.SameHeap()
      ensures pol.lru.Keys() == old(pol.lru.Keys())[k..]
      ensures st.cmap.View() == Left(old(st.cmap.View()), old(pol.lru.Keys()), k)
    {
      ghost var m, q := st.cmap.View(), pol.lru.Keys();
      LeftZero(m, q);
      LeftKeeps(st.g, st.src, st.zsm.View(), m, st.dev.bytes, q, k);
      InvalidateLoop(k, m, q);
    }

    /** One round of the loop: the policy lets go of the oldest chunk, then the map does. */
    method InvalidateOne(ghost m: M.MapState, ghost q: seq<Loc>, ghost i: nat)
      requires pol.Valid() && Apart() && st.cmap.activeReaders == st.activeReaders && Evictable(m, q) && i < |q|
      requires st.cmap.View() == Left(m, q, i) && pol.lru.Keys() == q[i..]
      modifies pol.Repr(), st.cmap, st.cmap.dataMap
      ensures pol.Valid() && pol.SameHeap() && pol.HeapZones() == old(pol.HeapZones())
      ensures |pol.pool.inUse| == |old(pol.pool).inUse| && |pol.pool.live| == |old(pol.pool).live|
      ensures st.cmap.View() == Left(m, q, i + 1) && pol.lru.Keys() == q[i + 1..]
    {
      LeftMapped(m, q, i);
      LeftStep(m, q, i);
      SuffixStep(q, i);
      var l := pol.EvictOldest();
      ForgetSlot(l);
    }

    method InvalidateLoop(k: nat, ghost m: M.MapState, ghost q: seq<Loc>)
      requires pol.Valid() && Apart() && st.cmap.activeReaders == st.activeReaders && Evictable(m, q) && k <= |q|
      requires st.cmap.View() == Left(m, q, 0) && pol.lru.Keys() == q[0..]
      modifies pol.Repr(), st.cmap, st.cmap.dataMap
      ensures pol.Valid() && pol.SameHeap() && pol.HeapZones() == old(pol.HeapZones())
      ensures |pol.pool.inUse| == |old(pol.pool).inUse| && |pol.pool.live| == |old(pol.pool).live|
      ensures st.cmap.View() == Left(m, q, k) && pol.lru.Keys() == q[k..]
    {
      for i := 0 to k
        invariant pol.Valid() && pol.SameHeap() && pol.HeapZones() == old(pol.HeapZones())
        invariant |pol.pool.inUse| == |old(pol.pool).inUse| && |pol.pool.live| == |old(pol.pool).live|
        invariant st.cmap.View() == Left(m, q, i) && pol.lru.Keys() == q[i..]
      {
        InvalidateOne(m, q, i);
      }
    }

    /** The scan of a zone's chunks at the top of the migration loop. */
    method HasLive(z: nat) returns (found: bool)
      requires pol.Valid() && z < |pol.pool.inUse| == |pol.pool.live|
      ensures found <==> pol.pool.live[z] > 0
    {
      DeadZone(pol.pool, pol.lru.Keys(), pol.maxChunks, z);
      for i := 0 to |pol.pool.inUse[z]|
        invariant forall c :: 0 <= c < i ==> !pol.pool.inUse[z][c]
      {
        if pol.pool.inUse[z][i] {
          return true;
        }
      }
      return false;
    }

    /**
     * One round of `zn_policy_chunk_gc`: takes the full zone with the fewest live chunks
     * and, if it has none, resets it. A zone with live chunks means that no zone without
     * any is left; the code then starts to migrate.
     */
    method GcRound() returns (r: Round)
      requires Consistent()
      modifies st.Parts(), pol.Repr()
      ensures pol.SameHeap() && pol.pool == old(pol.pool) && pol.lru.Keys() == old(pol.lru.Keys())
      ensures st.cmap.View() == old(st.cmap.View()) && st.dev.tick == old(st.dev.tick)
      ensures r.NoneLeft? ==> Consistent() && st.zsm.View() == old(st.zsm.View())
      ensures r.NoneLeft? <==> FullZones(old(st.zsm.View())) == {}
      ensures r.Emptied? ==> Consistent() && r.zone in Dead(old(st.zsm.View()), pol.lru.Keys())
      ensures r.Emptied? ==> st.zsm.View() == Z.Reset(old(st.zsm.View()), r.zone)
      ensures r.FoundLive? ==>
        Dead(old(st.zsm.View()), pol.lru.Keys()) == {} && !AllDead(old(st.zsm.View()), pol.lru.Keys())
    {
      var z := PopZone();
      if z == -1 {
        return NoneLeft;
      }
      var emptied := Examine(z);
      return if emptied then Emptied(z) else FoundLive;
    }

    /** The zone taken off the heap, while it is still full. */
    ghost predicate TakenOff(z: nat)
      reads Parts()
    {
      && pol.Valid() && st.Sound() && Sized() && Apart() && Agrees(st.cmap.View(), pol.lru.Keys())
      && z in FullZones(st.zsm.View()) && pol.HeapZones() == FullZones(st.zsm.View()) - {z} && z < |pol.pool.live|
    }

    /** The rest of a round: the zone taken off is reset if it has no live chunk. */
    method Examine(z: nat) returns (emptied: bool)
      requires TakenOff(z)
      requires forall y :: y in FullZones(st.zsm.View()) ==>
        0 <= y < |pol.pool.live| && pol.pool.live[z] <= pol.pool.live[y]
      modifies st.Parts()
      ensures st.cmap.View() == old(st.cmap.View()) && st.dev.tick == old(st.dev.tick)
      ensures emptied ==> Consistent() && z in Dead(old(st.zsm.View()), pol.lru.Keys())
      ensures emptied ==> st.zsm.View() == Z.Reset(old(st.zsm.View()), z)
      ensures !emptied ==>
        Dead(old(st.zsm.View()), pol.lru.Keys()) == {} && !AllDead(old(st.zsm.View()), pol.lru.Keys())
    {
      var live := HasLive(z);
      if live {
        FewestIsLive(st.zsm.View(), pol.pool, pol.lru.Keys(), pol.maxChunks, z);
        return false;
      }
      Collect(z);
      return true;
    }

    method Collect(z: nat)
      requires TakenOff(z) && pol.pool.live[z] == 0
      modifies st.Parts()
      ensures Consistent() && st.cmap.View() == old(st.cmap.View()) && st.dev.tick == old(st.dev.tick)
      ensures z in Dead(old(st.zsm.View()), pol.lru.Keys()) && st.zsm.View() == Z.Reset(old(st.zsm.View()), z)
    {
      DeadFacts(st.zsm.View(), st.cmap.View(), pol.pool, pol.lru.Keys(), pol.maxChunks, z);
      EmptyZone(z);
    }

    /**
     * `zn_policy_chunk_gc`, up to the point where it would migrate a live chunk. It ends
     * with enough zones, with an empty heap, or in the migration body, and which of the
     * three is decided by how many full zones have no live chunk when it starts. Until
     * then it resets only such zones and keeps every mapping.
     */
    method Gc() returns (r: GcEnd)
      requires Consistent()
      modifies st.Parts(), pol.Repr()
      ensures pol.SameHeap() && pol.pool == old(pol.pool) && pol.lru.Keys() == old(pol.lru.Keys())
      ensures st.cmap.View() == old(st.cmap.View()) && st.dev.tick == old(st.dev.tick)
      ensures !r.Migrates? ==> Consistent() && OnlyDeadReset(old(st.zsm.View()), st.zsm.View(), pol.lru.Keys())
      ensures r == lim.Verdict(old(st.zsm.View()), pol.lru.Keys())
      ensures r.Enough? ==>
        |st.zsm.free| == if |old(st.zsm.free)| > lim.highZones then |old(st.zsm.free)| else lim.lowZones
      ensures r.HeapEmpty? ==> FullZones(st.zsm.View()) == {}
      ensures r.Migrates? <==>
        && |old(st.zsm.free)| <= lim.highZones
        && |old(st.zsm.free)| + DeadFrom(old(st.zsm.View()), pol.lru.Keys(), 0) < lim.lowZones
        && LiveFrom(old(st.zsm.View()), pol.lru.Keys(), 0)
    {
      VerdictMeaning(lim, st.zsm.View(), pol.lru.Keys());
      ghost var zs, keys := st.zsm.View(), pol.lru.Keys();
      var free := |st.zsm.free|;
      if free > lim.highZones {
        return Enough;
      }
      while free < lim.lowZones
        invariant Consistent() && free == |st.zsm.free| <= lim.lowZones
        invariant pol.SameHeap() && pol.pool == old(pol.pool) && pol.lru.Keys() == keys
        invariant st.cmap.View() == old(st.cmap.View()) && st.dev.tick == old(st.dev.tick)
        invariant OnlyDeadReset(zs, st.zsm.View(), keys)
        invariant |Dead(st.zsm.View(), keys)| + free == |Dead(zs, keys)| + |zs.free|
        invariant AllDead(st.zsm.View(), keys) <==> AllDead(zs, keys)
        decreases lim.lowZones - free
      {
        ghost var before := st.zsm.View();
        var round := GcRound();
        match round
        case NoneLeft =>
          NoFullNoDead(before, keys);
          return HeapEmpty;
        case FoundLive =>
          return Migrates;
        case Emptied(z) =>
          ResetDead(zs, before, z, keys);
          free := |st.zsm.free|;
      }
      return Enough;
    }

    /** The list is never longer than the number of chunks on disk. */
    lemma ListedFits()
      requires pol.Valid() && Sized()
      ensures |pol.lru.Keys()| <= lim.total
    {
      ListFits(pol.pool, pol.lru.Keys(), pol.maxChunks);
    }

    /**
     * `zn_policy_chunk_evict`: nothing while the list is empty or more chunks are free than
     * the high threshold; otherwise exactly the least recently used chunks are invalidated
     * that bring the free chunks to the low threshold, and a collection follows. With a low
     * threshold above the number of chunks the loop empties the list and pops once more.
     */
    method Evict() returns (r: EvictEnd)
      requires Consistent()
      modifies st.Parts(), pol.Repr()
      ensures pol.SameHeap() && st.dev.tick == old(st.dev.tick)
      ensures r == lim.EvictFate(old(st.zsm.View()), old(pol.lru.Keys()))
      ensures r.NotNeeded? ==> Consistent() && st.zsm.View() == old(st.zsm.View())
      ensures r.NotNeeded? ==> st.cmap.View() == old(st.cmap.View()) && pol.lru.Keys() == old(pol.lru.Keys())
      ensures !r.NotNeeded? ==>
        var q := old(pol.lru.Keys());
        var k := if r.PopsEmpty? then |q| else lim.Quota(|q|);
        && k <= |q| && pol.lru.Keys() == q[k..] && st.cmap.View() == Left(old(st.cmap.View()), q, k)
        && (r.Collected? ==> lim.total - |pol.lru.Keys()| == lim.lowChunks)
      ensures r.Collected? && !r.end.Migrates? ==>
        Consistent() && OnlyDeadReset(old(st.zsm.View()), st.zsm.View(), pol.lru.Keys())
      ensures r.Collected? && r.end.Enough? ==>
        |st.zsm.free| == if |old(st.zsm.free)| > lim.highZones then |old(st.zsm.free)| else lim.lowZones
      ensures r.Collected? && r.end.HeapEmpty? ==> FullZones(st.zsm.View()) == {}
    {
      ListedFits();
      var listed := |pol.lru.queue|;
      var free := Sub32(lim.total, listed);
      EvictPlan(lim, listed);
      if listed == 0 || free > lim.highChunks {
        return NotNeeded;
      }
      var quota := Sub32(lim.lowChunks, free);
      if quota > listed {
        Invalidate(listed);
        return PopsEmpty;
      }
      var end := EvictAndCollect(quota);
      return Collected(end);
    }

    /** An eviction that has chunks to invalidate, and as many on the list. */
    method EvictAndCollect(quota: nat) returns (end: GcEnd)
      requires Consistent() && quota <= |pol.lru.Keys()|
      modifies st.Parts(), pol.Repr()
      ensures pol.SameHeap() && st.dev.tick == old(st.dev.tick)
      ensures pol.lru.Keys() == old(pol.lru.Keys())[quota..]
      ensures st.cmap.View() == Left(old(st.cmap.View()), old(pol.lru.Keys()), quota)
      ensures end == lim.Verdict(old(st.zsm.View()), pol.lru.Keys())
      ensures !end.Migrates? ==> Consistent() && OnlyDeadReset(old(st.zsm.View()), st.zsm.View(), pol.lru.Keys())
      ensures end.Enough? ==>
        |st.zsm.free| == if |old(st.zsm.free)| > lim.highZones then |old(st.zsm.free)| else lim.lowZones
      ensures end.HeapEmpty? ==> FullZones(st.zsm.View()) == {}
    {
      Invalidate(quota);
      end := Gc();
    }

    // ---------- zn_cache_get ----------

    /** A get of `id` that owns the write and has no slot. */
    ghost predicate Seeking(id: Id)
      reads Parts()
    {
      Consistent() && st.Serving(id) && st.zsm.writes == 0
    }

    /** A get of `id` that has been granted slot `l`. */
    ghost predicate Holding(id: Id, l: Loc)
      reads Parts()
    {
      Consistent() && st.Serving(id) && st.zsm.writes == 1 && Z.InFlight(st.zsm.View(), l)
    }

    method TakeSlot(ghost id: Id) returns (r: Z.Grant)
      requires Seeking(id)
      modifies st.zsm, st.zsm.zone
      ensures r == Z.GetActive(old(st.zsm.View())).1 && !r.Retry?
      ensures r.Granted? ==> Holding(id, r.loc) && Now() == old(Now()).(zs := Z.GetActive(old(st.zsm.View())).0)
      ensures !r.Granted? ==> Seeking(id) && Now() == old(Now())
    {
      LoneRequest(st.zsm.View());
      r := RequestSlot();
    }

    method WriteSlot(id: Id, l: Loc, random: Bytes) returns (data: Bytes, ret: int)
      requires Holding(id, l) && random == st.src
      modifies st.dev
      ensures Holding(id, l) && data == Payload.Gen(st.src, id)
      ensures ret == 0 ==> SlotHolds(st.g, st.src, st.dev.bytes, l, id)
      ensures ret == 0 <==> st.Writable(old(st.dev.tick))
    {
      data, ret := StoreWrite(id, l, random);
    }

    /** After a good write: return the zone, tell the policy, publish. */
    method Commit(id: Id, l: Loc)
      requires Holding(id, l) && SlotHolds(st.g, st.src, st.dev.bytes, l, id)
      modifies Parts()
      ensures Valid() && pol.Grew()
      ensures st.cmap.View() == M.Insert(old(st.cmap.View()), id, l) && st.zsm.View() == Z.Return(old(st.zsm.View()), l)
      ensures pol.lru.Keys() == old(pol.lru.Keys()) + [l]
    {
      ghost var m, keys := st.cmap.View(), pol.lru.Keys();
      QuietAfterInsert(st.zsm.View(), m, id, l);
      InsertAgrees(m, keys, id, l);
      ReturnAndTell(l);
      StorePublish(id, l);
    }

    /** The zone goes back to the manager, and the policy takes the chunk in. */
    method ReturnAndTell(l: Loc)
      requires Consistent() && Z.InFlight(st.zsm.View(), l)
      modifies st.zsm, st.zsm.zone, pol.Repr()
      ensures st.Sound() && pol.Valid() && Apart() && Sized() && HeapIsFull() && pol.Grew()
      ensures st.zsm.View() == Z.Return(old(st.zsm.View()), l) && pol.lru.Keys() == old(pol.lru.Keys()) + [l]
      ensures !M.Occupied(st.cmap.View(), l) && l.zone < st.zsm.zone.Length && l.chunk < Z.Filled(st.zsm.View(), l.zone)
    {
      InFlightFacts(st.zsm.View(), st.cmap.View(), pol.pool, pol.lru.Keys(), pol.maxChunks, l);
      StoreReturn(l);
      PolicyWrite(l);
    }

    /** After a failed write: the slot goes back to its zone and the id's entry is emptied. */
    method Rollback(id: Id, l: Loc)
      requires Holding(id, l)
      modifies st.Parts()
      ensures Valid() && pol.SameHeap()
      ensures st.cmap.View() == M.FailWrite(old(st.cmap.View()), id) && st.zsm.View() == Z.Fail(old(st.zsm.View()), l)
    {
      QuietAfterFail(st.zsm.View(), st.cmap.View(), id, l);
      FullAfterReturn(st.zsm.View(), l);
      FailAgrees(st.cmap.View(), pol.lru.Keys(), id);
      StoreUndo(id, l);
    }

    /** The hit path: read the pinned slot, tell the policy, unpin. */
    method Hit(id: Id, l: Loc, ghost m: M.MapState) returns (data: Option<Bytes>)
      requires Consistent() && Quiet(st.zsm.View(), m) && M.TwoWay(m) && M.Maps(m, id, l)
      requires st.cmap.View() == M.Find(m, id).0
      modifies st.dev`tick, pol.lru, st.activeReaders
      ensures Valid() && st.cmap.View() == m
      ensures pol.lru.Keys() == Touch(old(pol.lru.Keys()), l)
      ensures data.Some? ==> data.value == Payload.Gen(st.src, id)
      ensures data.Some? <==> st.Readable(l, old(st.dev.tick))
    {
      PinUnpin(m, id, l);
      data := ReadAndTell(id, l);
      ReleaseZone(l.zone, m);
    }

    method ReadAndTell(ghost id: Id, l: Loc) returns (data: Option<Bytes>)
      requires Consistent() && M.Maps(st.cmap.View(), id, l)
      modifies st.dev`tick, pol.lru
      ensures Consistent() && (data.Some? ==> data.value == Payload.Gen(st.src, id))
      ensures data.Some? <==> st.Readable(l, old(st.dev.tick))
      ensures pol.lru.Keys() == Touch(old(pol.lru.Keys()), l)
    {
      data := ReadPinned(id, l);
      TellRead(l);
    }

    method ReadPinned(ghost id: Id, l: Loc) returns (data: Option<Bytes>)
      requires Consistent() && M.Maps(st.cmap.View(), id, l)
      modifies st.dev`tick
      ensures Consistent() && (data.Some? ==> data.value == Payload.Gen(st.src, id))
      ensures data.Some? <==> st.Readable(l, old(st.dev.tick))
    {
      data := st.ReadSlot(id, l);
    }

    method TellRead(l: Loc)
      requires Consistent()
      modifies pol.lru
      ensures Consistent() && pol.lru.Keys() == Touch(old(pol.lru.Keys()), l)
    {
      TouchAgrees(st.cmap.View(), pol.lru.Keys(), l);
      PolicyRead(l);
    }

    /** The end of a read that found the map as `m`. */
    method ReleaseZone(z: nat, ghost m: M.MapState)
      requires Consistent() && z < st.activeReaders.Length
      requires m == M.Unpin(st.cmap.View(), z) && Quiet(st.zsm.View(), m)
      modifies st.activeReaders
      ensures Valid() && st.cmap.View() == m
    {
      assert Slots(M.Unpin(st.cmap.View(), z)) == Slots(st.cmap.View());
      StoreUnpin(z);
    }

    method LookUp(id: Id) returns (r: M.Found)
      requires Valid()
      modifies st.cmap, st.activeReaders
      ensures Consistent() && !r.Blocked?
      ensures (st.cmap.View(), r) == M.Find(old(st.cmap.View()), id)
      ensures r.Owner? ==> Seeking(id)
    {
      FindAgrees(st.cmap.View(), pol.lru.Keys(), id);
      r := StoreFind(id);
    }

    /** The foreground eviction of a get that has found every zone full. */
    method EvictForSlot(ghost id: Id) returns (end: Ending)
      requires Seeking(id) && Z.GetActive(st.zsm.View()).1.Evict?
      modifies st.Parts(), pol.Repr()
      ensures pol.SameHeap()
      ensures end == lim.SlotFate(old(st.zsm.View()), old(pol.lru.Keys()))
      ensures end.Spins? ==> Seeking(id) && Now() == old(Now())
      ensures end.Returns? ==>
        Seeking(id) && Searched(lim, old(Now()), Now()) && Z.GetActive(st.zsm.View()).1.Granted?
    {
      ghost var zs, m, q := st.zsm.View(), st.cmap.View(), pol.lru.Keys();
      var r := Evict();
      match r
      case NotNeeded =>
        end := Spins;
      case PopsEmpty =>
        end := Fault;
      case Collected(e) =>
        end := if e.Migrates? then Migration else Returns;
        if end.Returns? {
          LeftServes(m, q, lim.Quota(|q|), id);
          ReclaimedServes(lim, zs, q, st.zsm.View());
        }
    }

    /**
     * The loop around `zsm_get_active_zone`. Two passes decide it: either the second grants
     * a slot, or the first already found what `SlotFate` says. Where that is `Spins`, the
     * pass leaves everything as it was, and comes round for ever.
     */
    method AcquireSlot(ghost id: Id) returns (r: Slot, ghost mid: Z.Zones)
      requires Seeking(id)
      modifies st.Parts(), pol.Repr()
      ensures pol.SameHeap()
      ensures r.Got? <==> lim.SlotFate(old(st.zsm.View()), old(pol.lru.Keys())).Returns?
      ensures r.NoSlot? ==> r.why == lim.SlotFate(old(st.zsm.View()), old(pol.lru.Keys()))
      ensures r.NoSlot? && r.why.Spins? ==> Seeking(id) && Now() == old(Now())
      ensures r.Got? ==> Holding(id, r.loc) && SlotTaken(lim, old(Now()), mid, r.loc, Now())
    {
      ghost var s := Now();
      SearchedAtOnce(lim, s);
      var evicted := false;
      while true
        invariant Seeking(id) && pol.SameHeap()
        invariant !evicted ==> Now() == s
        invariant evicted ==>
          lim.SlotFate(s.zs, s.keys).Returns? && Searched(lim, s, Now()) && Z.GetActive(st.zsm.View()).1.Granted?
        decreases !evicted
      {
        mid := st.zsm.View();
        var g := TakeSlot(id);
        if g.Granted? {
          r := Got(g.loc);
          return;
        }
        var end := EvictForSlot(id);
        if end != Returns {
          r := NoSlot(end);
          return;
        }
        evicted := true;
      }
    }

    /** The miss path once a slot is granted. */
    method WriteBack(id: Id, l: Loc, random: Bytes) returns (data: Option<Bytes>)
      requires Holding(id, l) && random == st.src
      modifies Parts()
      ensures Valid() && pol.Grew()
      ensures data.Some? <==> st.Writable(old(st.dev.tick))
      ensures data.Some? ==> data.value == Payload.Gen(st.src, id)
      ensures WriteEnded(old(Now()), id, l, data.Some?, Now())
    {
      var buffer, ret := WriteSlot(id, l, random);
      EndWrite(id, l, ret == 0);
      return if ret == 0 then Some(buffer) else None;
    }

    /** What follows the write, according to how it went. */
    method EndWrite(id: Id, l: Loc, ok: bool)
      requires Holding(id, l) && (ok ==> SlotHolds(st.g, st.src, st.dev.bytes, l, id))
      modifies Parts()
      ensures Valid() && pol.Grew() && WriteEnded(old(Now()), id, l, ok, Now())
    {
      if ok {
        Commit(id, l);
      } else {
        Rollback(id, l);
      }
    }

    /** Zones, map, list and transfers at this moment. */
    ghost function Now(): Snap
      requires st.cmap.activeReaders == st.activeReaders
      reads Parts()
    {
      Moment(st.zsm.View(), st.cmap.View(), pol.lru.Keys(), st.dev.tick)
    }

    /** The miss path of a get that began in state `s`. */
    method Miss(id: Id, random: Bytes, ghost s: Snap) returns (r: Outcome, ghost mid: Z.Zones)
      requires Seeking(id) && random == st.src && Z.Inv(s.zs) && M.TwoWay(s.m) && !M.Cached(s.m, id)
      requires Now() == s.(m := M.Find(s.m, id).0)
      modifies Parts()
      ensures pol.Grew()
      ensures r.Served? <==> lim.SlotFate(s.zs, s.keys).Returns?
      ensures r.Stopped? ==> r.why == lim.SlotFate(s.zs, s.keys)
      ensures r == Stopped(Spins) ==> Seeking(id) && Now() == old(Now())
      ensures r.Served? ==>
        && Valid() && (r.data.Some? <==> st.Writable(s.tick)) && Missed(lim, s, id, r.data.Some?, Now(), mid)
        && (r.data.Some? ==> r.data.value == Payload.Gen(st.src, id))
    {
      var slot;
      slot, mid := AcquireSlot(id);
      if slot.NoSlot? {
        return Stopped(slot.why), mid;
      }
      ghost var taken := Now();
      var data := WriteBack(id, slot.loc, random);
      MissedBy(lim, s, id, mid, slot.loc, taken, data.Some?, Now());
      r := Served(data);
    }

    /** How an operation ends, decided by what it starts from. */
    ghost function EndingOf(s: Snap, op: Op): Ending
      requires Z.Inv(s.zs)
    {
      match op
      case Get(id) => if M.Cached(s.m, id) then Returns else lim.SlotFate(s.zs, s.keys)
      case Evict => lim.EvictEnding(s.zs, s.keys)
    }

    /**
     * What an operation that returns does. A hit returns data exactly when the slot can be
     * read and changes only the LRU order; a miss returns data and maps its id to the slot
     * granted exactly when that can be written, forgetting just what the search for a slot
     * evicted; an eviction forgets the oldest chunks and resets dead zones.
     */
    ghost predicate Did(s: Snap, op: Op, data: Option<Bytes>, s': Snap)
      requires st.g.Valid()
    {
      && Z.Inv(s.zs) && EndingOf(s, op).Returns?
      && match op
         case Get(id) =>
           if M.Cached(s.m, id) then
             var l := s.m.entry[id].loc;
             (data.Some? <==> st.Readable(l, s.tick)) && s'.zs == s.zs && s'.m == s.m && s'.keys == Touch(s.keys, l)
           else
             (data.Some? <==> st.Writable(s.tick)) && exists mid :: Missed(lim, s, id, data.Some?, s', mid)
         case Evict =>
           data.None? && EvictedTo(lim, s, s')
    }

    /** What an operation returned, if anything, is the source's data for its id. */
    ghost predicate Faithful(op: Op, data: Option<Bytes>) {
      op.Get? && data.Some? ==> |st.src| >= 4 && data.value == Payload.Gen(st.src, op.id)
    }

    /** A get of `id` goes round its loop for ever: every zone is full, and no eviction is called for. */
    ghost predicate Spinning(id: Id)
      reads Parts()
    {
      Seeking(id) && Z.GetActive(st.zsm.View()).1.Evict? && !lim.Needed(|pol.lru.Keys()|)
    }

    /**
     * `zn_cache_get`. Transparency holds here too: a returned buffer is the source's data
     * for the id. The get returns exactly when it hits, when some zone is not full, or when
     * an eviction is called for and leaves enough dead zones. A get that never returns,
     * because no eviction is called for, leaves all but its own entry as it was.
     */
    method Get(id: Id, random: Bytes) returns (r: Outcome)
      requires Valid() && random == st.src
      modifies Parts()
      ensures pol.Grew()
      ensures r.Served? <==> EndingOf(old(Now()), Op.Get(id)).Returns?
      ensures r.Stopped? ==> r.why == EndingOf(old(Now()), Op.Get(id))
      ensures r == Stopped(Migration) ==> OldIsLive(old(Now()))
      ensures r.Served? ==> Valid() && Faithful(Op.Get(id), r.data) && Did(old(Now()), Op.Get(id), r.data, Now())
      ensures r == Stopped(Spins) ==>
        Spinning(id) && M.TwoWay(old(Now()).m) && Now() == old(Now()).(m := M.Find(old(Now()).m, id).0)
    {
      ghost var s := Now();
      var hit, data := TryHit(id);
      if hit {
        return Served(data);
      }
      ListedFits();
      MigrationMeaning(lim, s.zs, s.keys);
      ghost var mid;
      r, mid := Miss(id, random, s);
    }

    /** Some FULL zone has a chunk on the list that an eviction would not invalidate. */
    ghost predicate OldIsLive(s: Snap) {
      LiveFrom(s.zs, s.keys, lim.lowChunks - (lim.total - |s.keys|))
    }

    /** The lookup and, on a hit, the whole hit path. */
    method TryHit(id: Id) returns (hit: bool, data: Option<Bytes>)
      requires Valid()
      modifies st.cmap, st.activeReaders, st.dev`tick, pol.lru
      ensures hit <==> M.Cached(old(st.cmap.View()), id)
      ensures hit ==> Valid() && st.cmap.View() == old(st.cmap.View())
      ensures hit ==> pol.lru.Keys() == Touch(old(pol.lru.Keys()), old(st.cmap.View()).entry[id].loc)
      ensures hit ==> (data.Some? <==> st.Readable(old(st.cmap.View()).entry[id].loc, old(st.dev.tick)))
      ensures hit && data.Some? ==> data.value == Payload.Gen(st.src, id)
      ensures !hit ==>
        Seeking(id) && M.TwoWay(old(Now()).m) && Now() == old(Now()).(m := M.Find(old(Now()).m, id).0)
    {
      ghost var m := st.cmap.View();
      var found := LookUp(id);
      hit, data := found.Hit?, None;
      if hit {
        data := Hit(id, found.loc, m);
      }
    }

    // ---------- whole runs ----------

    /**
     * Agreement at every operation boundary: a chunk is in use exactly when it is on the
     * list and exactly when some id is mapped to it; the zone's counter is the number of
     * its chunks in use; and a zone is in the heap exactly when it is full, under an entry
     * whose priority is that counter.
     */
    lemma Agreement(l: Loc, z: nat)
      requires Consistent() && z < st.g.numZones
      ensures NoDup(pol.lru.Keys())
      ensures InUse(pol.pool, l) <==> l in pol.lru.Keys()
      ensures InUse(pol.pool, l) <==> exists id :: M.Maps(st.cmap.View(), id, l)
      ensures z < |pol.pool.live| && pol.pool.live[z] == |set c | 0 <= c < |pol.pool.inUse[z]| && pol.pool.inUse[z][c]|
      ensures z < |pol.entry| && (z in pol.HeapZones() <==> st.zsm.zone[z].cond == Z.Full)
      ensures z in pol.HeapZones() ==> pol.entry[z].priority == pol.pool.live[z]
    {
      var m := st.cmap.View();
      SlotOccupied(m, l);
      assert l in Members(pol.lru.Keys()) <==> l in pol.lru.Keys();
      if M.Occupied(m, l) {
        assert M.Maps(m, m.inverse[l.zone][l.chunk], Loc(l.zone, l.chunk));
      }
      CountIsSize(pol.pool.inUse[z]);
      assert z in FullZones(st.zsm.View()) <==> st.zsm.zone[z].cond == Z.Full;
    }

    /** Agreement in a snapshot. */
    lemma NowAgrees()
      requires Consistent()
      ensures Agreed(Now())
    {
    }

    /** An eviction between gets. */
    method EvictAtRest() returns (r: EvictEnd)
      requires Valid()
      modifies Parts()
      ensures pol.Grew() && r == lim.EvictFate(old(st.zsm.View()), old(pol.lru.Keys()))
      ensures r.NotNeeded? || (r.Collected? && !r.end.Migrates?) ==> Valid() && EvictedTo(lim, old(Now()), Now())
    {
      ghost var zs, m, q := st.zsm.View(), st.cmap.View(), pol.lru.Keys();
      r := Evict();
      if r.Collected? {
        LeftQuiet(zs, m, q, lim.Quota(|q|));
      }
    }

    /** One operation. */
    method Perform(op: Op, random: Bytes) returns (r: Outcome)
      requires Valid() && random == st.src
      modifies Parts()
      ensures pol.Grew()
      ensures r.Served? <==> EndingOf(old(Now()), op).Returns?
      ensures r.Stopped? ==> r.why == EndingOf(old(Now()), op)
      ensures r == Stopped(Migration) ==> OldIsLive(old(Now()))
      ensures r.Served? ==> Valid() && Faithful(op, r.data) && Did(old(Now()), op, r.data, Now())
      ensures r == Stopped(Spins) ==> op.Get? && Spinning(op.id)
    {
      match op
      case Get(id) =>
        r := Get(id, random);
      case Evict =>
        ListedFits();
        MigrationMeaning(lim, st.zsm.View(), pol.lru.Keys());
        var e := EvictAtRest();
        r := match e
          case NotNeeded => Served(None)
          case PopsEmpty => Stopped(Fault)
          case Collected(end) => if end.Migrates? then Stopped(Migration) else Served(None);
    }

    /** The operation did what it does, returned the source's data if any, and left the parts in agreement. */
    ghost function Sound(): (Snap, Op, Option<Bytes>, Snap) -> bool
      requires st.g.Valid()
    {
      (s: Snap, op: Op, data: Option<Bytes>, s': Snap) => Did(s, op, data, s') && Faithful(op, data) && Agreed(s')
    }

    /**
     * Any sequence of gets and evictions, through the states of `trace`: every buffer
     * returned is the source's data for its id, and the parts agree after every operation.
     * The run is cut short exactly at an operation that does not return, for the reason
     * that can be read off the state before it.
     */
    method Run(ops: seq<Op>, random: Bytes)
        returns (out: seq<Option<Bytes>>, stop: Ending, ghost trace: seq<Snap>)
      requires Valid() && random == st.src
      modifies Parts()
      ensures pol.Grew() && st.g.Valid() && Chain(Sound(), ops, out, trace) && trace[0] == old(Now())
      ensures |out| == |ops| ==> stop == Returns && Valid() && trace[|out|] == Now()
      ensures |out| < |ops| ==> Z.Inv(trace[|out|].zs) && stop == EndingOf(trace[|out|], ops[|out|]) != Returns
      ensures stop == Spins ==> |out| < |ops| && ops[|out|].Get? && Spinning(ops[|out|].id)
      ensures stop == Migration ==> OldIsLive(trace[|out|])
    {
      out, trace := [], [Now()];
      for i := 0 to |ops|
        invariant Valid() && pol.Grew() && |out| == i && Chain(Sound(), ops, out, trace)
        invariant trace[0] == old(Now()) && trace[i] == Now()
      {
        var r := Perform(ops[i], random);
        if r.Stopped? {
          stop := r.why;
          return;
        }
        NowAgrees();
        ChainSnoc(Sound(), ops, out, trace, r.data, Now());
        out, trace := out + [r.data], trace + [Now()];
      }
      stop := Returns;
    }

    // ---------- framing ----------
    //
    // Each method below only calls one operation of the store or of the policy, and says
    // what that leaves of the other one: the two share no object.

    /** The map's part of a round, which the policy does not see. */
    method ForgetSlot(l: Loc)
      requires pol.Valid() && Apart() && st.cmap.Valid() && M.Occupied(st.cmap.View(), l)
      modifies st.cmap, st.cmap.dataMap
      ensures pol.Valid() && st.cmap.View() == M.ClearChunk(old(st.cmap.View()), l)
    {
      st.cmap.ClearChunk(l);
    }

    /** The heap's part of a collection round. */
    method PopZone() returns (z: int)
      requires Consistent()
      modifies pol.Repr()
      ensures pol.Valid() && st.Sound() && Sized() && Apart() && pol.SameHeap()
      ensures pol.pool == old(pol.pool) && pol.lru.Keys() == old(pol.lru.Keys())
      ensures z == -1 ==> FullZones(st.zsm.View()) == {} && pol.HeapZones() == {}
      ensures z != -1 ==> 0 <= z < |pol.pool.live| && z in FullZones(st.zsm.View())
      ensures z != -1 ==> pol.HeapZones() == FullZones(st.zsm.View()) - {z}
      ensures z != -1 ==>
        forall y :: y in FullZones(st.zsm.View()) ==> 0 <= y < |pol.pool.live| && pol.pool.live[z] <= pol.pool.live[y]
    {
      z := pol.PopFewest();
    }

    /** The store's part: clear the zone from the map and reset it. */
    method EmptyZone(z: nat)
      requires st.Sound() && pol.Valid() && Apart()
      requires z < st.zsm.zone.Length && st.zsm.zone[z].cond == Z.Full && st.cmap.dataMap[z] == map[]
      modifies st.Parts()
      ensures st.Sound() && pol.Valid() && st.dev.tick == old(st.dev.tick)
      ensures st.zsm.View() == Z.Reset(old(st.zsm.View()), z) && st.cmap.View() == old(st.cmap.View())
    {
      st.DropZone(z);
    }

    method RequestSlot() returns (r: Z.Grant)
      requires st.Sound() && pol.Valid() && Apart()
      modifies st.zsm, st.zsm.zone
      ensures st.Sound() && pol.Valid() && (st.zsm.View(), r) == Z.GetActive(old(st.zsm.View()))
    {
      r := st.RequestSlot();
    }

    method StoreWrite(id: Id, l: Loc, random: Bytes) returns (data: Bytes, ret: int)
      requires st.Sound() && pol.Valid() && Apart() && random == st.src && Z.InFlight(st.zsm.View(), l)
      modifies st.dev
      ensures st.Sound() && pol.Valid() && data == Payload.Gen(st.src, id)
      ensures ret == 0 ==> SlotHolds(st.g, st.src, st.dev.bytes, l, id)
      ensures ret == 0 <==> st.Writable(old(st.dev.tick))
    {
      data, ret := st.WriteSlot(id, l, random);
    }

    method StoreReturn(l: Loc)
      requires st.Sound() && pol.Valid() && Apart() && Z.InFlight(st.zsm.View(), l)
      modifies st.zsm, st.zsm.zone
      ensures st.Sound() && pol.Valid() && st.zsm.View() == Z.Return(old(st.zsm.View()), l)
    {
      st.ReturnSlot(l);
    }

    method PolicyWrite(l: Loc)
      requires st.Sound() && pol.Valid() && Apart() && Sized()
      requires l.zone < st.g.numZones && l.chunk < st.g.maxChunks && !InUse(pol.pool, l) && l.zone !in pol.HeapZones()
      modifies pol.Repr()
      ensures st.Sound() && pol.Valid() && Apart() && Sized() && pol.Grew()
      ensures pol.lru.Keys() == old(pol.lru.Keys()) + [l]
      ensures pol.HeapZones() == old(pol.HeapZones()) + (if l.chunk + 1 == st.g.maxChunks then {l.zone} else {})
    {
      pol.Write(l);
    }

    method StorePublish(id: Id, l: Loc)
      requires st.Sound() && pol.Valid() && Apart() && M.IsCond(st.cmap.View(), id) && !M.Occupied(st.cmap.View(), l)
      requires l.zone < st.zsm.zone.Length && l.chunk < Z.Filled(st.zsm.View(), l.zone)
      requires SlotHolds(st.g, st.src, st.dev.bytes, l, id)
      modifies st.cmap, st.cmap.dataMap
      ensures st.Sound() && pol.Valid() && st.cmap.View() == M.Insert(old(st.cmap.View()), id, l)
    {
      st.Publish(id, l);
    }

    method StoreUndo(id: Id, l: Loc)
      requires st.Sound() && pol.Valid() && Apart() && M.IsCond(st.cmap.View(), id) && Z.InFlight(st.zsm.View(), l)
      modifies st.Parts()
      ensures st.Sound() && pol.Valid()
      ensures st.zsm.View() == Z.Fail(old(st.zsm.View()), l) && st.cmap.View() == M.FailWrite(old(st.cmap.View()), id)
    {
      st.Undo(id, l);
    }

    method PolicyRead(l: Loc)
      requires st.Sound() && pol.Valid() && Apart()
      modifies pol.lru
      ensures st.Sound() && pol.Valid() && pol.lru.Keys() == Touch(old(pol.lru.Keys()), l)
    {
      pol.Read(l);
    }

    method StoreUnpin(z: nat)
      requires st.Sound() && pol.Valid() && Apart() && z < st.activeReaders.Length
      modifies st.activeReaders
      ensures st.Sound() && pol.Valid() && st.cmap.View() == M.Unpin(old(st.cmap.View()), z)
    {
      st.Unpin(z);
    }

    method StoreFind(id: Id) returns (r: M.Found)
      requires st.Sound() && st.AtRest() && pol.Valid() && Apart()
      modifies st.cmap, st.activeReaders
      ensures st.Sound() && pol.Valid() && !r.Blocked?
      ensures (st.cmap.View(), r) == M.Find(old(st.cmap.View()), id)
      ensures r.Owner? ==> st.Serving(id)
    {
      r := st.Find(id);
    }
  }
}
