/**
 * The cache map: where each id lives on disk, the per-zone inverse, and the count of
 * readers pinning each zone. Every function is one critical section of `cache_map_mutex`.
 */
module MapSpec {
  import opened Types

  /** What the map holds for an id: being written, at a slot, or known and absent. */
  datatype Entry = Cond | At(loc: Loc) | Empty

  datatype MapState = MapState(entry: map<Id, Entry>, inverse: seq<map<nat, Id>>, readers: seq<int>)

  /** The outcome of one pass of the loop in `zn_cachemap_find`. */
  datatype Found = Hit(loc: Loc) | Owner | Blocked

  predicate Maps(m: MapState, id: Id, l: Loc) {
    id in m.entry && m.entry[id] == At(l)
  }

  predicate Cached(m: MapState, id: Id) {
    id in m.entry && m.entry[id].At?
  }

  predicate IsCond(m: MapState, id: Id) {
    id in m.entry && m.entry[id] == Cond
  }

  predicate Occupied(m: MapState, l: Loc) {
    l.zone < |m.inverse| && l.chunk in m.inverse[l.zone]
  }

  /** The forward and inverse maps are each other's inverse. */
  ghost predicate TwoWay(m: MapState) {
    && |m.readers| == |m.inverse|
    && (forall id :: id in m.entry && m.entry[id].At? ==>
          var l := m.entry[id].loc;
          l.zone < |m.inverse| && l.chunk in m.inverse[l.zone] && m.inverse[l.zone][l.chunk] == id)
    && (forall z, c :: 0 <= z < |m.inverse| && c in m.inverse[z] ==>
          Maps(m, m.inverse[z][c], Loc(z, c)))
  }

  function Initial(n: nat): MapState {
    MapState(map[], seq(n, _ => map[]), seq(n, _ => 0))
  }

  function Find(m: MapState, id: Id): (MapState, Found)
    requires TwoWay(m)
  {
    if id !in m.entry || m.entry[id].Empty? then
      (m.(entry := m.entry[id := Cond]), Owner)
    else if m.entry[id].Cond? then
      (m, Blocked)
    else
      var l := m.entry[id].loc;
      (m.(readers := m.readers[l.zone := m.readers[l.zone] + 1]), Hit(l))
  }

  function Insert(m: MapState, id: Id, l: Loc): MapState
    requires l.zone < |m.inverse|
  {
    var table: map<nat, Id> := m.inverse[l.zone][l.chunk := id];
    m.(entry := m.entry[id := At(l)], inverse := m.inverse[l.zone := table])
  }

  function FailWrite(m: MapState, id: Id): MapState {
    m.(entry := m.entry[id := Empty])
  }

  /** Forgets the id stored in an occupied slot. */
  function ClearChunk(m: MapState, l: Loc): MapState
    requires Occupied(m, l)
  {
    m.(entry := m.entry[m.inverse[l.zone][l.chunk] := Empty],
       inverse := m.inverse[l.zone := m.inverse[l.zone] - {l.chunk}])
  }

  function InZone(e: Entry, z: nat): bool {
    e.At? && e.loc.zone == z
  }

  /** Empties exactly the ids stored in zone `z`. */
  function ClearZone(m: MapState, z: nat): MapState
    requires z < |m.inverse|
  {
    m.(entry := map id | id in m.entry :: if InZone(m.entry[id], z) then Empty else m.entry[id],
       inverse := m.inverse[z := map[]])
  }

  function Unpin(m: MapState, z: nat): MapState
    requires z < |m.readers|
  {
    m.(readers := m.readers[z := m.readers[z] - 1])
  }

  /** No two ids share a slot. */
  lemma NoSharedSlot(m: MapState, a: Id, b: Id, l: Loc)
    requires TwoWay(m) && Maps(m, a, l) && Maps(m, b, l)
    ensures a == b
  {
    assert m.entry[a].loc == l && m.entry[b].loc == l;
  }

  lemma FindKeeps(m: MapState, id: Id)
    requires TwoWay(m)
    ensures TwoWay(Find(m, id).0)
    ensures forall j, l :: Maps(Find(m, id).0, j, l) <==> Maps(m, j, l)
  {
    var m' := Find(m, id).0;
    assert m'.inverse == m.inverse;
    forall z, c | 0 <= z < |m.inverse| && c in m.inverse[z]
      ensures Maps(m', m.inverse[z][c], Loc(z, c))
    {
      assert Maps(m, m.inverse[z][c], Loc(z, c));
    }
  }

  /**
   * What a lookup comes to: a hit at the slot of the id, whose zone has one more reader; a
   * wait while the id is being written; or else the write of the id, which is marked so.
   */
  lemma FindMeaning(m: MapState, id: Id)
    requires TwoWay(m)
    ensures var (m', r) := Find(m, id);
      && (forall l :: r == Hit(l) <==> Maps(m, id, l))
      && (r == Blocked <==> IsCond(m, id))
      && (r == Owner <==> !Cached(m, id) && !IsCond(m, id))
      && |m'.readers| == |m.readers|
      && (forall z :: 0 <= z < |m.readers| ==>
            m'.readers[z] == m.readers[z] + if r.Hit? && z == r.loc.zone then 1 else 0)
      && (forall j :: IsCond(m', j) <==> IsCond(m, j) || (j == id && r == Owner))
      && m'.inverse == m.inverse
  {
  }

  /** Publishing maps the id to the slot; a failed write maps it to none; no other id is touched. */
  lemma EndMeaning(m: MapState, id: Id, l: Loc, j: Id, k: Loc)
    requires l.zone < |m.inverse|
    ensures Maps(Insert(m, id, l), j, k) <==> if j == id then k == l else Maps(m, j, k)
    ensures Maps(FailWrite(m, id), j, k) <==> j != id && Maps(m, j, k)
    ensures IsCond(Insert(m, id, l), j) == IsCond(FailWrite(m, id), j) == (j != id && IsCond(m, j))
    ensures Insert(m, id, l).readers == FailWrite(m, id).readers == m.readers
  {
  }

  /** Publishing an id keeps the two maps inverse exactly when its slot was unoccupied. */
  lemma InsertKeepsIff(m: MapState, id: Id, l: Loc)
    requires TwoWay(m) && IsCond(m, id) && l.zone < |m.inverse|
    ensures TwoWay(Insert(m, id, l)) <==> !Occupied(m, l)
  {
    var m' := Insert(m, id, l);
    if Occupied(m, l) {
      var other := m.inverse[l.zone][l.chunk];
      assert Maps(m, other, l);
      assert m'.entry[other].loc == l && m'.inverse[l.zone][l.chunk] == id;
    } else {
      forall z, c | 0 <= z < |m'.inverse| && c in m'.inverse[z]
        ensures Maps(m', m'.inverse[z][c], Loc(z, c))
      {
        if Loc(z, c) != l {
          assert m'.inverse[z][c] == m.inverse[z][c];
          assert Maps(m, m.inverse[z][c], Loc(z, c));
        }
      }
    }
  }

  lemma FailKeeps(m: MapState, id: Id)
    requires TwoWay(m) && IsCond(m, id)
    ensures TwoWay(FailWrite(m, id))
  {
    var m' := FailWrite(m, id);
    forall z, c | 0 <= z < |m.inverse| && c in m.inverse[z]
      ensures Maps(m', m.inverse[z][c], Loc(z, c))
    {
      assert Maps(m, m.inverse[z][c], Loc(z, c));
    }
  }

  lemma ClearChunkKeeps(m: MapState, l: Loc)
    requires TwoWay(m) && Occupied(m, l)
    ensures TwoWay(ClearChunk(m, l)) && !Occupied(ClearChunk(m, l), l)
    ensures forall k: Loc :: k != l ==> (Occupied(ClearChunk(m, l), k) <==> Occupied(m, k))
    ensures forall j, k :: Maps(ClearChunk(m, l), j, k) <==> Maps(m, j, k) && k != l
  {
    var m' := ClearChunk(m, l);
    var id := m.inverse[l.zone][l.chunk];
    assert Maps(m, id, l);
    forall z, c | 0 <= z < |m'.inverse| && c in m'.inverse[z]
      ensures Maps(m', m'.inverse[z][c], Loc(z, c))
    {
      assert Maps(m, m.inverse[z][c], Loc(z, c));
    }
  }

  lemma ClearZoneKeeps(m: MapState, z: nat)
    requires TwoWay(m) && z < |m.inverse|
    ensures TwoWay(ClearZone(m, z))
    ensures forall c :: !Occupied(ClearZone(m, z), Loc(z, c))
    ensures forall j, k :: Maps(ClearZone(m, z), j, k) <==> Maps(m, j, k) && k.zone != z
  {
    var m' := ClearZone(m, z);
    forall y, c | 0 <= y < |m'.inverse| && c in m'.inverse[y]
      ensures Maps(m', m'.inverse[y][c], Loc(y, c))
    {
      assert Maps(m, m.inverse[y][c], Loc(y, c));
    }
  }

  /** Clearing a zone with nothing in the map changes nothing. */
  lemma ClearEmptyZone(m: MapState, z: nat)
    requires TwoWay(m) && z < |m.inverse| && m.inverse[z] == map[]
    ensures ClearZone(m, z) == m
  {
    assert ClearZone(m, z).entry == m.entry;
    assert ClearZone(m, z).inverse == m.inverse;
  }

  /** The forward map with the ids of zone `z` emptied, except those whose chunks are in `rest`. */
  ghost predicate Emptied(m: MapState, z: nat, rest: map<nat, Id>, entry: map<Id, Entry>)
    requires z < |m.inverse|
  {
    && rest.Keys <= m.inverse[z].Keys && (forall c :: c in rest ==> rest[c] == m.inverse[z][c])
    && entry.Keys == m.entry.Keys
    && forall id :: id in m.entry ==>
         entry[id] == if InZone(m.entry[id], z) && m.entry[id].loc.chunk !in rest then Empty else m.entry[id]
  }

  lemma EmptyNext(m: MapState, z: nat, rest: map<nat, Id>, entry: map<Id, Entry>, c: nat)
    requires TwoWay(m) && z < |m.inverse| && Emptied(m, z, rest, entry) && c in rest
    ensures Emptied(m, z, rest - {c}, entry[rest[c] := Empty])
  {
    assert Maps(m, m.inverse[z][c], Loc(z, c));
  }

  lemma EmptyStart(m: MapState, z: nat)
    requires TwoWay(m) && z < |m.inverse|
    ensures Emptied(m, z, m.inverse[z], m.entry)
  {
  }

  lemma EmptyDone(m: MapState, z: nat, rest: map<nat, Id>, entry: map<Id, Entry>)
    requires z < |m.inverse| && Emptied(m, z, rest, entry) && rest.Keys == {}
    ensures entry == ClearZone(m, z).entry
  {
  }

  lemma UnpinKeeps(m: MapState, z: nat)
    requires TwoWay(m) && z < |m.readers|
    ensures TwoWay(Unpin(m, z))
  {
    var m' := Unpin(m, z);
    forall y, c | 0 <= y < |m'.inverse| && c in m'.inverse[y]
      ensures Maps(m', m'.inverse[y][c], Loc(y, c))
    {
      assert Maps(m, m.inverse[y][c], Loc(y, c));
    }
  }
}

/** The map as the program keeps it: hash tables changed in place. */
module CacheMap {
  import opened Types
  import opened MapSpec

  class Map {
    var zoneMap: map<Id, Entry>
    const dataMap: array<map<nat, Id>>
    const activeReaders: array<int>   // shared with the cache

    ghost function View(): MapState
      reads this, dataMap, activeReaders
    {
      MapState(zoneMap, dataMap[..], activeReaders[..])
    }

    ghost predicate Valid()
      reads this, dataMap, activeReaders
    {
      TwoWay(View())
    }

    constructor (numZones: nat, activeReaders: array<int>)
      requires activeReaders.Length == numZones
      requires forall z :: 0 <= z < numZones ==> activeReaders[z] == 0
      ensures Valid() && fresh(dataMap) && this.activeReaders == activeReaders
      ensures View() == Initial(numZones)
    {
      zoneMap := map[];
      dataMap := new map<nat, Id>[numZones](_ => map[]);
      this.activeReaders := activeReaders;
      new;
      assert dataMap[..] == Initial(numZones).inverse;
      assert activeReaders[..] == Initial(numZones).readers;
    }

    /**
     * `zn_cachemap_find`, up to its first wait: `Blocked` is the point where the caller
     * sleeps on the condition variable of an id that another thread is writing.
     */
    method Find(id: Id) returns (r: Found)
      requires Valid()
      modifies this, activeReaders
      ensures Valid()
      ensures (View(), r) == MapSpec.Find(old(View()), id)
    {
      FindKeeps(View(), id);
      if id in zoneMap {
        match zoneMap[id]
        case At(l) =>
          activeReaders[l.zone] := activeReaders[l.zone] + 1;
          r := Hit(l);
        case Cond =>
          r := Blocked;
        case Empty =>
          zoneMap := zoneMap[id := Cond];
          r := Owner;
      } else {
        zoneMap := zoneMap[id := Cond];
        r := Owner;
      }
      assert (View(), r) == MapSpec.Find(old(View()), id);
    }

    /** `zn_cachemap_insert`: publishing into an occupied slot is not refused, and breaks the inverse. */
    method Insert(id: Id, l: Loc)
      requires Valid() && IsCond(View(), id) && l.zone < dataMap.Length
      modifies this, dataMap
      ensures Valid() <==> !Occupied(old(View()), l)
      ensures View() == MapSpec.Insert(old(View()), id, l)
    {
      InsertKeepsIff(View(), id, l);
      zoneMap := zoneMap[id := At(l)];
      dataMap[l.zone] := dataMap[l.zone][l.chunk := id];
      assert View() == MapSpec.Insert(old(View()), id, l);
    }

    /** `zn_cachemap_fail` */
    method Fail(id: Id)
      requires Valid() && IsCond(View(), id)
      modifies this
      ensures Valid()
      ensures View() == FailWrite(old(View()), id)
    {
      FailKeeps(View(), id);
      zoneMap := zoneMap[id := Empty];
    }

    /** `zn_cachemap_clear_chunk` */
    method ClearChunk(l: Loc)
      requires Valid() && Occupied(View(), l)
      modifies this, dataMap
      ensures Valid()
      ensures View() == MapSpec.ClearChunk(old(View()), l)
    {
      ClearChunkKeeps(View(), l);
      var id := dataMap[l.zone][l.chunk];
      assert Maps(View(), id, l);
      zoneMap := zoneMap[id := Empty];
      dataMap[l.zone] := dataMap[l.zone] - {l.chunk};
      assert View() == MapSpec.ClearChunk(old(View()), l);
    }

    /** `zn_cachemap_clear_zone`: walks the zone's inverse table, emptying one id at a time. */
    method ClearZone(z: nat)
      requires Valid() && z < dataMap.Length
      modifies this, dataMap
      ensures Valid()
      ensures View() == MapSpec.ClearZone(old(View()), z)
    {
      ClearZoneKeeps(View(), z);
      ghost var m := View();
      var rest := dataMap[z];
      EmptyStart(m, z);
      while rest.Keys != {}
        invariant Emptied(m, z, rest, zoneMap) && dataMap[..] == m.inverse
        decreases rest.Keys
      {
        var c :| c in rest.Keys;
        EmptyNext(m, z, rest, zoneMap, c);
        zoneMap := zoneMap[rest[c] := Empty];
        rest := rest - {c};
      }
      EmptyDone(m, z, rest, zoneMap);
      dataMap[z] := map[];
      assert View() == MapSpec.ClearZone(m, z);
    }
  }
}
