/** The parts of the cache that do not depend on the eviction policy. */
module Store {
  import opened Types
  import opened Transfer
  import opened CacheSpec
  import Payload
  import Z = ZoneSpec
  import M = MapSpec
  import ZoneManager
  import CacheMap

  class Store {
    const g: Geometry
    ghost const src: Bytes            // the remote data every get is given
    const zsm: ZoneManager.Manager
    const cmap: CacheMap.Map
    const dev: Device
    const activeReaders: array<int>

    ghost function Parts(): set<object> {
      {zsm, zsm.zone, cmap, cmap.dataMap, activeReaders, dev}
    }

    ghost predicate Sound()
      reads Parts()
    {
      cmap.activeReaders == activeReaders && Core(g, src, zsm.View(), cmap.View(), dev.bytes)
    }

    ghost predicate AtRest()
      reads Parts()
    {
      cmap.activeReaders == activeReaders && Quiet(zsm.View(), cmap.View())
    }

    /** Only `id` is being written, and no reader is inside. */
    ghost predicate Serving(id: Id)
      reads Parts()
    {
      cmap.activeReaders == activeReaders && Serves(cmap.View(), id)
    }

    /** A read of the slot starting at this transfer succeeds: sizes and address fit, every piece comes through. */
    ghost predicate Readable(l: Loc, tick: nat)
      requires g.Valid()
    {
      Aligned(g, l) && Moved(dev.outcome, tick, g.chunkSize, g.ioSize, READ_TRIES).Some?
    }

    /** A write of a slot starting at this transfer succeeds. */
    ghost predicate Writable(tick: nat)
      requires g.Valid()
    {
      Moved(dev.outcome, tick, g.chunkSize, g.ioSize, WRITE_TRIES).Some?
    }

    /**
     * What that means: the chunk and I/O sizes and the slot's address are multiples of 4096,
     * and each piece goes through among five attempts.
     */
    lemma ReadableMeaning(l: Loc, tick: nat)
      requires g.Valid() && g.Has(l)
      ensures Readable(l, tick) <==>
        && g.chunkSize % 4096 == g.ioSize % 4096 == 0 && (l.zone * g.zoneSize + l.chunk * g.chunkSize) % 4096 == 0
        && exists at :: AllMoved(dev.outcome, tick, g.chunkSize, g.ioSize, 5, at)
    {
      PointerExact(g, l);
      MovedMeaning(dev.outcome, tick, g.chunkSize, g.ioSize, READ_TRIES);
    }

    /** Each piece goes through among eight attempts. */
    lemma WritableMeaning(tick: nat)
      requires g.Valid()
      ensures Writable(tick) <==> exists at :: AllMoved(dev.outcome, tick, g.chunkSize, g.ioSize, 8, at)
    {
      MovedMeaning(dev.outcome, tick, g.chunkSize, g.ioSize, WRITE_TRIES);
    }

    constructor (g: Geometry, maxActive: nat, ghost src: Bytes, dev: Device)
      requires g.Valid() && 1 <= maxActive && 1 <= g.maxChunks && |src| == g.chunkSize
      requires |dev.bytes| == g.zoneSize * g.numZones
      ensures Sound() && AtRest() && fresh(Parts() - {dev})
      ensures this.g == g && this.src == src && this.dev == dev
      ensures zsm.View() == Z.Initial(g.numZones, maxActive, g.maxChunks) && cmap.View() == M.Initial(g.numZones)
    {
      this.g, this.src, this.dev := g, src, dev;
      zsm := new ZoneManager.Manager(g.numZones, maxActive, g.maxChunks);
      var readers := new int[g.numZones](_ => 0);
      activeReaders := readers;
      cmap := new CacheMap.Map(g.numZones, readers);
    }

    /** `zn_cachemap_find` by a lone thread, which never finds its id being written. */
    method Find(id: Id) returns (r: M.Found)
      requires Sound() && AtRest()
      modifies cmap, activeReaders
      ensures Sound() && !r.Blocked?
      ensures (cmap.View(), r) == M.Find(old(cmap.View()), id)
      ensures r.Owner? ==> Serving(id)
    {
      FindKeeps(g, src, zsm.View(), cmap.View(), dev.bytes, id);
      r := cmap.Find(id);
    }

    /** The hit path: read the slot, then let the caller tell the policy and unpin. */
    method ReadSlot(ghost id: Id, l: Loc) returns (data: Option<Bytes>)
      requires Sound() && M.Maps(cmap.View(), id, l)
      modifies dev`tick
      ensures data.Some? ==> data.value == Payload.Gen(src, id)
      ensures data.Some? <==> Readable(l, old(dev.tick))
    {
      assert M.Occupied(cmap.View(), l) && SlotHolds(g, src, dev.bytes, l, id);
      MappedHas(g, zsm.View(), cmap.View(), l);
      data := ReadFromDisk(dev, g, l);
    }

    method Unpin(z: nat)
      requires Sound() && z < activeReaders.Length
      modifies activeReaders
      ensures Sound() && cmap.View() == M.Unpin(old(cmap.View()), z)
    {
      UnpinKeeps(g, src, zsm.View(), cmap.View(), dev.bytes, z);
      activeReaders[z] := activeReaders[z] - 1;
      assert cmap.View() == M.Unpin(old(cmap.View()), z);
    }

    /** Resets a full zone the map has been cleared of; its bytes become arbitrary. */
    method ResetZone(z: nat)
      requires Sound() && z < zsm.zone.Length && zsm.zone[z].cond == Z.Full && cmap.dataMap[z] == map[]
      modifies Parts()
      ensures Sound() && zsm.View() == Z.Reset(old(zsm.View()), z)
      ensures cmap.View() == old(cmap.View()) && dev.tick == old(dev.tick)
    {
      ghost var zs, m, b := zsm.View(), cmap.View(), dev.bytes;
      ZoneInDevice(g, z);
      dev.Scramble(g.zoneSize * z, g.zoneSize);
      ResetKeepsBacked(g, src, zs, m, b, dev.bytes, z);
      Z.ResetKeepsInv(zs, z);
      ZonesKeepCore(g, src, zs, m, dev.bytes, Z.Reset(zs, z));
      zsm.EvictZone(z);
    }

    /** Clears and resets a full zone that has nothing in the map, as garbage collection does. */
    method DropZone(z: nat)
      requires Sound() && z < zsm.zone.Length && zsm.zone[z].cond == Z.Full && cmap.dataMap[z] == map[]
      modifies Parts()
      ensures Sound() && zsm.View() == Z.Reset(old(zsm.View()), z)
      ensures cmap.View() == old(cmap.View()) && dev.tick == old(dev.tick)
    {
      M.ClearEmptyZone(cmap.View(), z);
      cmap.ClearZone(z);
      ResetZone(z);
    }

    /** Writes the generated data to a granted slot; returns what `zn_write_out` returns. */
    method WriteSlot(id: Id, l: Loc, random: Bytes) returns (data: Bytes, ret: int)
      requires Sound() && random == src && Z.InFlight(zsm.View(), l)
      modifies dev
      ensures Sound() && data == Payload.Gen(src, id)
      ensures ret == 0 ==> SlotHolds(g, src, dev.bytes, l, id)
      ensures ret == 0 <==> Writable(old(dev.tick))
    {
      assert g.Has(l) && !M.Occupied(cmap.View(), l);
      SlotInZone(g, l);
      PointerExact(g, l);
      data := Payload.Gen(random, id);
      ret := WriteOut(dev, g.chunkSize, data, g.ioSize, ChunkPointer(g, l));
      WriteKeepsBacked(g, src, zsm.View(), cmap.View(), old(dev.bytes), dev.bytes, l);
      assert data[..g.chunkSize] == data;
    }

    /** Publishes a written and returned slot. */
    method Publish(id: Id, l: Loc)
      requires Sound() && M.IsCond(cmap.View(), id) && !M.Occupied(cmap.View(), l)
      requires l.zone < zsm.zone.Length && l.chunk < Z.Filled(zsm.View(), l.zone)
      requires SlotHolds(g, src, dev.bytes, l, id)
      modifies cmap, cmap.dataMap
      ensures Sound() && cmap.View() == M.Insert(old(cmap.View()), id, l)
    {
      InsertKeepsCore(g, src, zsm.View(), cmap.View(), dev.bytes, id, l);
      cmap.Insert(id, l);
    }

    /** Gives a granted slot back after a failed write, and the id's entry with it. */
    method Undo(id: Id, l: Loc)
      requires Sound() && M.IsCond(cmap.View(), id) && Z.InFlight(zsm.View(), l)
      modifies Parts()
      ensures Sound() && dev.bytes == old(dev.bytes)
      ensures zsm.View() == Z.Fail(old(zsm.View()), l) && cmap.View() == M.FailWrite(old(cmap.View()), id)
    {
      ghost var zs, m := zsm.View(), cmap.View();
      Z.FailKeepsInv(zs, l);
      ZonesKeepCore(g, src, zs, m, dev.bytes, Z.Fail(zs, l));
      M.FailKeeps(m, id);
      FewerKeepsCore(g, src, Z.Fail(zs, l), m, dev.bytes, M.FailWrite(m, id));
      zsm.FailedToWrite(l);
      cmap.Fail(id);
    }

    method ReturnSlot(l: Loc)
      requires Sound() && Z.InFlight(zsm.View(), l)
      modifies zsm, zsm.zone
      ensures Sound() && zsm.View() == Z.Return(old(zsm.View()), l)
    {
      ghost var zs := zsm.View();
      Z.ReturnKeepsInv(zs, l);
      ZonesKeepCore(g, src, zs, cmap.View(), dev.bytes, Z.Return(zs, l));
      zsm.ReturnActiveZone(l);
    }

    method RequestSlot() returns (r: Z.Grant)
      requires Sound()
      modifies zsm, zsm.zone
      ensures Sound() && (zsm.View(), r) == Z.GetActive(old(zsm.View()))
    {
      ghost var zs := zsm.View();
      Z.GetActiveKeepsInv(zs);
      ZonesKeepCore(g, src, zs, cmap.View(), dev.bytes, Z.GetActive(zs).0);
      r := zsm.GetActiveZone();
    }
  }
}
