/** What the chunk policy's operations do to the map, as values. */
module ChunkSpec {
  import opened Types
  import opened Counting
  import opened LruSpec
  import opened ChunkPool
  import opened Transfer
  import opened CacheSpec
  import Z = ZoneSpec
  import M = MapSpec

  /** A slot is in the map exactly when its chunk is on the LRU list. */
  ghost predicate Agrees(m: M.MapState, keys: seq<Loc>) {
    Slots(m) == Members(keys)
  }

  ghost function Members(keys: seq<Loc>): set<Loc> {
    set l | l in keys
  }

  ghost function Slots(m: M.MapState): set<Loc> {
    set z, c | 0 <= z < |m.inverse| && c in m.inverse[z] :: Loc(z, c)
  }

  lemma SlotOccupied(m: M.MapState, l: Loc)
    ensures l in Slots(m) <==> M.Occupied(m, l)
  {
    if M.Occupied(m, l) {
      assert Loc(l.zone, l.chunk) in Slots(m);
    }
  }

  ghost function FullZones(zs: Z.Zones): set<nat> {
    set z | 0 <= z < |zs.zone| && zs.zone[z].cond == Z.Full
  }

  /** The map with these slots forgotten. */
  ghost function ChunksCleared(m: M.MapState, ls: seq<Loc>): M.MapState {
    m.(entry := map id | id in m.entry :: if m.entry[id].At? && m.entry[id].loc in ls then M.Empty else m.entry[id],
       inverse := seq(|m.inverse|, z requires 0 <= z < |m.inverse| =>
         map c | c in m.inverse[z] && Loc(z, c) !in ls :: m.inverse[z][c]))
  }

  lemma NothingCleared(m: M.MapState)
    ensures ChunksCleared(m, []) == m
  {
    var c := ChunksCleared(m, []);
    assert c.entry == m.entry;
    forall z | 0 <= z < |m.inverse| ensures c.inverse[z] == m.inverse[z] {
    }
    assert c.inverse == m.inverse;
  }

  lemma ClearedSlot(m: M.MapState, ls: seq<Loc>, l: Loc)
    ensures M.Occupied(ChunksCleared(m, ls), l) <==> M.Occupied(m, l) && l !in ls
  {
  }

  /** The next slot of the list is still in the map. */
  lemma NextIsMapped(m: M.MapState, q: seq<Loc>, i: nat)
    requires Agrees(m, q) && NoDup(q) && i < |q|
    ensures M.Occupied(ChunksCleared(m, q[..i]), q[i])
  {
    assert q[i] in Members(q);
    SlotOccupied(m, q[i]);
    ClearedSlot(m, q[..i], q[i]);
  }

  /** Forgetting the oldest slots keeps map and list in agreement. */
  lemma ClearedAgrees(m: M.MapState, q: seq<Loc>, k: nat)
    requires Agrees(m, q) && NoDup(q) && k <= |q|
    ensures Agrees(ChunksCleared(m, q[..k]), q[k..])
  {
    assert q == q[..k] + q[k..];
    forall l: Loc ensures l in Slots(ChunksCleared(m, q[..k])) <==> l in Members(q[k..]) {
      SlotOccupied(m, l);
      SlotOccupied(ChunksCleared(m, q[..k]), l);
      ClearedSlot(m, q[..k], l);
      assert l in Members(q) <==> l in q[..k] || l in q[k..];
      if l in q[k..] {
        var j :| k <= j < |q| && q[j] == l;
        assert forall i :: 0 <= i < k ==> q[..k][i] != l;
      }
    }
  }

  /** Forgetting slots keeps the two maps inverse, and forgets exactly those ids. */
  lemma ClearedMaps(m: M.MapState, ls: seq<Loc>)
    requires M.TwoWay(m)
    ensures M.TwoWay(ChunksCleared(m, ls))
    ensures forall id, l :: M.Maps(ChunksCleared(m, ls), id, l) <==> M.Maps(m, id, l) && l !in ls
  {
    var c := ChunksCleared(m, ls);
    forall z, k | 0 <= z < |c.inverse| && k in c.inverse[z] ensures M.Maps(c, c.inverse[z][k], Loc(z, k)) {
      assert M.Maps(m, m.inverse[z][k], Loc(z, k));
    }
  }

  lemma ClearOneMoreInverse(m: M.MapState, ls: seq<Loc>, l: Loc)
    requires l.zone < |m.inverse| && M.Occupied(ChunksCleared(m, ls), l)
    ensures M.ClearChunk(ChunksCleared(m, ls), l).inverse == ChunksCleared(m, ls + [l]).inverse
  {
    var a, b := M.ClearChunk(ChunksCleared(m, ls), l).inverse, ChunksCleared(m, ls + [l]).inverse;
    forall z | 0 <= z < |a| ensures a[z] == b[z] {
      assert forall c :: c in b[z] <==> c in a[z];
    }
  }

  /** Only the id the inverse map names is stored in a slot. */
  lemma WhoIsThere(m: M.MapState, l: Loc, id: Id)
    requires M.TwoWay(m) && M.Occupied(m, l)
    ensures m.inverse[l.zone][l.chunk] in m.entry
    ensures M.Maps(m, id, l) <==> id == m.inverse[l.zone][l.chunk]
  {
    assert M.Maps(m, m.inverse[l.zone][l.chunk], Loc(l.zone, l.chunk));
  }

  lemma ClearOneMoreId(m: M.MapState, ls: seq<Loc>, l: Loc, id: Id)
    requires M.TwoWay(m) && M.Occupied(m, l) && M.Occupied(ChunksCleared(m, ls), l) && id in m.entry
    ensures id in M.ClearChunk(ChunksCleared(m, ls), l).entry && id in ChunksCleared(m, ls + [l]).entry
    ensures M.ClearChunk(ChunksCleared(m, ls), l).entry[id] == ChunksCleared(m, ls + [l]).entry[id]
  {
    WhoIsThere(m, l, id);
    assert ChunksCleared(m, ls).inverse[l.zone][l.chunk] == m.inverse[l.zone][l.chunk];
  }

  lemma ClearOneMoreKeys(m: M.MapState, ls: seq<Loc>, l: Loc)
    requires M.TwoWay(m) && M.Occupied(m, l) && M.Occupied(ChunksCleared(m, ls), l)
    ensures M.ClearChunk(ChunksCleared(m, ls), l).entry.Keys == m.entry.Keys == ChunksCleared(m, ls + [l]).entry.Keys
  {
    WhoIsThere(m, l, 0);
    assert ChunksCleared(m, ls).inverse[l.zone][l.chunk] == m.inverse[l.zone][l.chunk];
  }

  lemma SameEntries(a: map<Id, M.Entry>, b: map<Id, M.Entry>)
    requires a.Keys == b.Keys && forall id :: id in a.Keys ==> a[id] == b[id]
    ensures a == b
  {
  }

  lemma ClearOneMoreEntry(m: M.MapState, ls: seq<Loc>, l: Loc)
    requires M.TwoWay(m) && M.Occupied(m, l) && M.Occupied(ChunksCleared(m, ls), l)
    ensures M.ClearChunk(ChunksCleared(m, ls), l).entry == ChunksCleared(m, ls + [l]).entry
  {
    ClearOneMoreKeys(m, ls, l);
    forall id | id in m.entry.Keys
      ensures M.ClearChunk(ChunksCleared(m, ls), l).entry[id] == ChunksCleared(m, ls + [l]).entry[id]
    {
      ClearOneMoreId(m, ls, l, id);
    }
    SameEntries(M.ClearChunk(ChunksCleared(m, ls), l).entry, ChunksCleared(m, ls + [l]).entry);
  }

  lemma ClearOneMore(m: M.MapState, ls: seq<Loc>, l: Loc)
    requires M.TwoWay(m) && M.Occupied(ChunksCleared(m, ls), l)
    ensures M.ClearChunk(ChunksCleared(m, ls), l) == ChunksCleared(m, ls + [l])
  {
    ClearedSlot(m, ls, l);
    ClearOneMoreInverse(m, ls, l);
    ClearOneMoreEntry(m, ls, l);
  }

  /** Publishing a slot and listing its chunk go together. */
  lemma InsertAgrees(m: M.MapState, keys: seq<Loc>, id: Id, l: Loc)
    requires Agrees(m, keys) && l.zone < |m.inverse|
    ensures Agrees(M.Insert(m, id, l), keys + [l])
  {
    forall k: Loc ensures k in Slots(M.Insert(m, id, l)) <==> k in Members(keys + [l]) {
      SlotOccupied(m, k);
      SlotOccupied(M.Insert(m, id, l), k);
      assert k in Members(keys) <==> k in keys;
    }
  }

  /** An unmapped slot's chunk is not in use. */
  lemma UnmappedUnused(m: M.MapState, p: Pool, keys: seq<Loc>, maxChunks: nat, l: Loc)
    requires Agrees(m, keys) && Tracked(p, keys, maxChunks) && !M.Occupied(m, l)
    ensures !InUse(p, l)
  {
    SlotOccupied(m, l);
    assert l in Members(keys) <==> l in keys;
  }

  lemma FullAfterReturn(zs: Z.Zones, l: Loc)
    requires Z.Inv(zs) && Z.InFlight(zs, l)
    ensures l.zone !in FullZones(zs)
    ensures FullZones(Z.Return(zs, l)) == FullZones(zs) + (if l.chunk + 1 == zs.maxChunks then {l.zone} else {})
    ensures FullZones(Z.Fail(zs, l)) == FullZones(zs)
  {
  }

  /** What holds of a slot in flight, as its write completes. */
  lemma InFlightFacts(zs: Z.Zones, m: M.MapState, p: Pool, keys: seq<Loc>, maxChunks: nat, l: Loc)
    requires Z.Inv(zs) && Z.InFlight(zs, l) && Settled(zs, m) && Agrees(m, keys) && Tracked(p, keys, maxChunks)
    ensures !M.Occupied(m, l) && !InUse(p, l) && l.zone !in FullZones(zs) && l.chunk < zs.maxChunks
    ensures l.zone < |Z.Return(zs, l).zone| && l.chunk < Z.Filled(Z.Return(zs, l), l.zone)
    ensures FullZones(Z.Return(zs, l)) == FullZones(zs) + (if l.chunk + 1 == zs.maxChunks then {l.zone} else {})
  {
    assert !M.Occupied(m, l);
    UnmappedUnused(m, p, keys, maxChunks, l);
    Z.ReturnKeepsInv(zs, l);
    FullAfterReturn(zs, l);
  }

  lemma InitialAgrees(n: nat, maxActive: nat, maxChunks: nat)
    ensures Agrees(M.Initial(n), []) && FullZones(Z.Initial(n, maxActive, maxChunks)) == {}
  {
    assert Slots(M.Initial(n)) == {} == Members([]);
  }

  /** What a lone request comes to. */
  lemma LoneRequest(zs: Z.Zones)
    requires Z.Inv(zs) && zs.writes == 0
    ensures var (zs', g) := Z.GetActive(zs);
      && !g.Retry? && FullZones(zs') == FullZones(zs)
      && (g.Granted? ==> Z.InFlight(zs', g.loc) && zs'.writes == 1)
      && (!g.Granted? ==> zs' == zs)
  {
    Z.GetActiveKeepsInv(zs);
  }

  lemma FindAgrees(m: M.MapState, keys: seq<Loc>, id: Id)
    requires M.TwoWay(m) && Agrees(m, keys)
    ensures Agrees(M.Find(m, id).0, keys)
  {
    assert Slots(M.Find(m, id).0) == Slots(m);
  }

  lemma FailAgrees(m: M.MapState, keys: seq<Loc>, id: Id)
    requires Agrees(m, keys)
    ensures Agrees(M.FailWrite(m, id), keys)
  {
    assert Slots(M.FailWrite(m, id)) == Slots(m);
  }

  lemma TouchAgrees(m: M.MapState, keys: seq<Loc>, l: Loc)
    requires Agrees(m, keys) && NoDup(keys)
    ensures Agrees(m, Touch(keys, l))
  {
    TouchKeeps(keys, l);
    assert Members(Touch(keys, l)) == Members(keys);
  }

  /** The map and the list agree, as they do before an eviction. */
  ghost predicate Evictable(m: M.MapState, q: seq<Loc>) {
    Agrees(m, q) && NoDup(q) && M.TwoWay(m)
  }

  /** The map after the `i` oldest slots of the list have been forgotten. */
  ghost function Left(m: M.MapState, q: seq<Loc>, i: nat): M.MapState
    requires i <= |q|
  {
    ChunksCleared(m, q[..i])
  }

  lemma LeftMapped(m: M.MapState, q: seq<Loc>, i: nat)
    requires Evictable(m, q) && i < |q|
    ensures M.TwoWay(Left(m, q, i)) && M.Occupied(Left(m, q, i), q[i])
  {
    NextIsMapped(m, q, i);
    ClearedMaps(m, q[..i]);
  }

  lemma LeftStep(m: M.MapState, q: seq<Loc>, i: nat)
    requires M.TwoWay(m) && i < |q| && M.Occupied(Left(m, q, i), q[i])
    ensures M.ClearChunk(Left(m, q, i), q[i]) == Left(m, q, i + 1)
  {
    ClearOneMore(m, q[..i], q[i]);
    assert q[..i + 1] == q[..i] + [q[i]];
  }

  lemma SuffixStep(q: seq<Loc>, i: nat)
    requires i < |q|
    ensures q[i..] != [] && q[i..][0] == q[i] && q[i..][1..] == q[i + 1..]
  {
  }

  /** Forgetting slots touches neither the id being written nor the readers, and maps nothing new. */
  lemma LeftServes(m: M.MapState, q: seq<Loc>, k: nat, id: Id)
    requires Serves(m, id) && k <= |q|
    ensures Serves(Left(m, q, k), id)
    ensures forall j, l :: M.Maps(Left(m, q, k), j, l) ==> M.Maps(m, j, l)
  {
  }

  lemma LeftQuiet(zs: Z.Zones, m: M.MapState, q: seq<Loc>, k: nat)
    requires Quiet(zs, m) && k <= |q|
    ensures Quiet(zs, Left(m, q, k))
  {
  }

  lemma LeftZero(m: M.MapState, q: seq<Loc>)
    ensures Left(m, q, 0) == m && q[0..] == q
  {
    NothingCleared(m);
    assert q[..0] == [];
  }

  /** After the loop store and list still agree. */
  lemma LeftKeeps(g: Geometry, src: Bytes, zs: Z.Zones, m: M.MapState, b: Bytes, q: seq<Loc>, k: nat)
    requires Core(g, src, zs, m, b) && Evictable(m, q) && k <= |q|
    ensures Core(g, src, zs, Left(m, q, k), b) && Agrees(Left(m, q, k), q[k..])
  {
    ClearedAgrees(m, q, k);
    ClearedMaps(m, q[..k]);
    FewerKeepsCore(g, src, zs, m, b, Left(m, q, k));
  }

  lemma FullAfterReset(zs: Z.Zones, z: nat)
    requires Z.Inv(zs) && z in FullZones(zs)
    ensures FullZones(Z.Reset(zs, z)) == FullZones(zs) - {z}
  {
  }

  lemma {:induction false} CountIsSize(s: seq<bool>)
    ensures Count(s, IsTrue) == |set c | 0 <= c < |s| && s[c]|
  {
    if s != [] {
      var n := |s| - 1;
      CountIsSize(s[..n]);
      var before, now := set c | 0 <= c < n && s[..n][c], set c | 0 <= c < |s| && s[c];
      assert now == before + (if s[n] then {n} else {});
    }
  }

  /** A zone with no live chunk has nothing in the map. */
  lemma DeadUnmapped(m: M.MapState, p: Pool, keys: seq<Loc>, maxChunks: nat, z: nat)
    requires Tracked(p, keys, maxChunks) && Agrees(m, keys) && z < |p.inUse| && z < |m.inverse| && p.live[z] == 0
    ensures m.inverse[z] == map[]
  {
    DeadZone(p, keys, maxChunks, z);
    forall c: nat ensures c !in m.inverse[z] {
      SlotOccupied(m, Loc(z, c));
      assert Loc(z, c) in Members(keys) <==> InUse(p, Loc(z, c));
    }
  }

  /** No chunk of the zone is on the list. */
  ghost predicate NoneOf(keys: seq<Loc>, z: nat) {
    forall l: Loc :: l in keys ==> l.zone != z
  }

  /** A zone's counter is zero exactly when none of its chunks is on the list. */
  lemma LiveMeans(p: Pool, keys: seq<Loc>, maxChunks: nat, z: nat)
    requires Tracked(p, keys, maxChunks) && z < |p.inUse|
    ensures p.live[z] == 0 <==> NoneOf(keys, z)
  {
    DeadZone(p, keys, maxChunks, z);
    forall c | 0 <= c < maxChunks ensures p.inUse[z][c] <==> Loc(z, c) in keys {
      assert InUse(p, Loc(z, c)) <==> p.inUse[z][c];
    }
    forall l: Loc | l in keys && l.zone == z ensures l == Loc(z, l.chunk) && l.chunk < maxChunks {
      assert InUse(p, l);
    }
  }

  /** The full zones with no live chunk. */
  ghost function Dead(zs: Z.Zones, keys: seq<Loc>): set<nat> {
    set z | 0 <= z < |zs.zone| && zs.zone[z].cond == Z.Full && NoneOf(keys, z)
  }

  ghost predicate AllDead(zs: Z.Zones, keys: seq<Loc>) {
    forall z :: 0 <= z < |zs.zone| && zs.zone[z].cond == Z.Full ==> NoneOf(keys, z)
  }

  lemma NoFullNoDead(zs: Z.Zones, keys: seq<Loc>)
    requires FullZones(zs) == {}
    ensures Dead(zs, keys) == {} && AllDead(zs, keys)
  {
    assert Dead(zs, keys) <= FullZones(zs);
    forall z | 0 <= z < |zs.zone| ensures zs.zone[z].cond != Z.Full {
      assert z !in FullZones(zs);
    }
  }

  /** If the full zone with the fewest live chunks has some, no full zone is dead. */
  lemma FewestIsLive(zs: Z.Zones, p: Pool, keys: seq<Loc>, maxChunks: nat, z: nat)
    requires Tracked(p, keys, maxChunks) && |zs.zone| == |p.inUse| && z in FullZones(zs) && p.live[z] > 0
    requires forall y :: y in FullZones(zs) ==> 0 <= y < |p.live| && p.live[z] <= p.live[y]
    ensures Dead(zs, keys) == {} && !AllDead(zs, keys)
  {
    forall y | y in FullZones(zs) ensures !NoneOf(keys, y) {
      LiveMeans(p, keys, maxChunks, y);
    }
    assert Dead(zs, keys) <= FullZones(zs);
    assert zs.zone[z].cond == Z.Full;
  }

  /**
   * The arithmetic of `zn_policy_chunk_evict`, in 32-bit unsigned numbers: with no more
   * chunks listed than exist and the high threshold reached, neither subtraction wraps,
   * and the pops stay within the list exactly when the low threshold is at most the total.
   */
  lemma EvictArithmetic(total: nat, listed: nat, high: nat, low: nat)
    requires listed <= total < TWO32 && high < low < TWO32 && Sub32(total, listed) <= high
    ensures Sub32(total, listed) == total - listed
    ensures Sub32(low, Sub32(total, listed)) == low - (total - listed)
    ensures Sub32(low, Sub32(total, listed)) <= listed <==> low <= total
    ensures listed - Sub32(low, Sub32(total, listed)) == total - low
  {
    Sub32Meaning(total, listed);
    Sub32Meaning(low, total - listed);
  }

  /** The second state differs from the first only in that some dead zones were reset. */
  ghost predicate OnlyDeadReset(zs: Z.Zones, zs': Z.Zones, keys: seq<Loc>) {
    && |zs'.zone| == |zs.zone| && zs' == zs.(zone := zs'.zone, free := zs'.free)
    && forall z :: 0 <= z < |zs.zone| ==>
         zs'.zone[z] == zs.zone[z] || (z in Dead(zs, keys) && zs'.zone[z] == Z.Zone(Z.Free, 0))
  }

  lemma ResetDead(zs0: Z.Zones, zs: Z.Zones, z: nat, keys: seq<Loc>)
    requires Z.Inv(zs) && OnlyDeadReset(zs0, zs, keys) && z in Dead(zs, keys)
    ensures OnlyDeadReset(zs0, Z.Reset(zs, z), keys)
    ensures Dead(Z.Reset(zs, z), keys) == Dead(zs, keys) - {z}
    ensures |Dead(Z.Reset(zs, z), keys)| == |Dead(zs, keys)| - 1
    ensures AllDead(Z.Reset(zs, z), keys) <==> AllDead(zs, keys)
  {
    var zs' := Z.Reset(zs, z);
    assert Dead(zs', keys) == Dead(zs, keys) - {z};
    assert AllDead(zs', keys) ==> AllDead(zs, keys);
  }

  // ---------- what an eviction and a get come to, decided by the state they start from ----------

  /** How a garbage collection ends: enough zones, none left, or live chunks to migrate. */
  datatype GcEnd = Enough | HeapEmpty | Migrates

  /** How an eviction ends: nothing to do, a pop from the empty list, or a collection. */
  datatype EvictEnd = NotNeeded | PopsEmpty | Collected(end: GcEnd)

  /**
   * How an operation ends: it returns, goes round its loop for ever, reaches the migration
   * of live chunks, or dereferences what it popped from an empty list.
   */
  datatype Ending = Returns | Spins | Migration | Fault

  /** `total_chunks` and the four thresholds. */
  datatype Limits = Limits(total: nat, highZones: nat, lowZones: nat, highChunks: nat, lowChunks: nat)
  {
    predicate Valid() {
      total < TWO32 && highZones < lowZones < TWO32 && highChunks < lowChunks < TWO32
    }

    /** An eviction has something to do. */
    predicate Needed(listed: nat) {
      listed > 0 && total - listed <= highChunks
    }

    /** How many chunks an eviction invalidates. */
    function Quota(listed: nat): nat {
      if total - listed <= lowChunks then lowChunks - (total - listed) else 0
    }

    /** How a collection ends, decided by what it starts from. */
    ghost function Verdict(zs: Z.Zones, keys: seq<Loc>): GcEnd {
      if |zs.free| > highZones || |Dead(zs, keys)| >= lowZones - |zs.free| then Enough
      else if AllDead(zs, keys) then HeapEmpty
      else Migrates
    }

    /** How an eviction ends. */
    ghost function EvictFate(zs: Z.Zones, keys: seq<Loc>): EvictEnd {
      if !Needed(|keys|) then NotNeeded
      else if lowChunks > total then PopsEmpty
      else Collected(Verdict(zs, keys[Quota(|keys|)..]))
    }

    /** How the search for a slot ends: it fails only if every zone is full and an eviction frees none. */
    ghost function SlotFate(zs: Z.Zones, keys: seq<Loc>): Ending
      requires Z.Inv(zs)
    {
      if !Z.GetActive(zs).1.Evict? then Returns
      else
        match EvictFate(zs, keys)
        case NotNeeded => Spins
        case PopsEmpty => Fault
        case Collected(end) => if end.Migrates? then Migration else Returns
    }

    /** How an eviction called for its own sake ends. */
    ghost function EvictEnding(zs: Z.Zones, keys: seq<Loc>): Ending {
      match EvictFate(zs, keys)
      case NotNeeded => Returns
      case PopsEmpty => Fault
      case Collected(end) => if end.Migrates? then Migration else Returns
    }

    /** How many chunks the search for a slot invalidates. */
    function Dropped(zs: Z.Zones, listed: nat): (k: nat)
      requires Z.Inv(zs)
      ensures k <= listed
    {
      if Z.GetActive(zs).1.Evict? && Needed(listed) && lowChunks <= total then Quota(listed) else 0
    }

    /** The zones as the search for a slot leaves them: as they were, or with dead zones reset. */
    ghost predicate Reclaimed(zs: Z.Zones, keys: seq<Loc>, zs': Z.Zones)
      requires Z.Inv(zs)
    {
      if Z.GetActive(zs).1.Evict? then
        var rest := keys[Dropped(zs, |keys|)..];
        && OnlyDeadReset(zs, zs', rest)
        && (if Verdict(zs, rest).Enough? then |zs'.free| == lowZones else FullZones(zs') == {})
      else
        zs' == zs
    }
  }

  type Snap = Moment<Loc>

  /** The parts agree: the maps are inverse, and the list holds each mapped slot once. */
  ghost predicate Agreed(s: Snap) {
    Z.Inv(s.zs) && Evictable(s.m, s.keys) && Settled(s.zs, s.m)
  }

  /** The map after a miss: `id` is at `l` or nowhere, and of the others just `gone` are forgotten. */
  ghost predicate MissMap(m: M.MapState, gone: seq<Loc>, m': M.MapState, id: Id, l: Loc, ok: bool) {
    && (ok <==> M.Cached(m', id)) && (ok ==> M.Maps(m', id, l))
    && forall j, k :: j != id ==> (M.Maps(m', j, k) <==> M.Maps(m, j, k) && k !in gone)
  }

  /** A miss that is served, through the zones `mid`, with the write going well or not. */
  ghost predicate Missed(lim: Limits, s: Snap, id: Id, ok: bool, s': Snap, mid: Z.Zones) {
    && Z.Inv(s.zs) && lim.Reclaimed(s.zs, s.keys, mid)
    && Z.Inv(mid) && Z.GetActive(mid).1.Granted? && s'.zs == Wrote(mid, ok)
    && var l, k := Z.GetActive(mid).1.loc, lim.Dropped(s.zs, |s.keys|);
       && s'.keys == s.keys[k..] + (if ok then [l] else [])
       && MissMap(s.m, s.keys[..k], s'.m, id, l, ok)
  }

  /** An eviction that ends well. */
  ghost predicate EvictedTo(lim: Limits, s: Snap, s': Snap) {
    match lim.EvictFate(s.zs, s.keys)
    case NotNeeded => s'.zs == s.zs && s'.m == s.m && s'.keys == s.keys
    case PopsEmpty => false
    case Collected(end) =>
      var k := lim.Quota(|s.keys|);
      && !end.Migrates? && s'.keys == s.keys[k..] && s'.m == Left(s.m, s.keys, k)
      && OnlyDeadReset(s.zs, s'.zs, s'.keys)
      && (end.Enough? ==> |s'.zs.free| == if |s.zs.free| > lim.highZones then |s.zs.free| else lim.lowZones)
      && (end.HeapEmpty? ==> FullZones(s'.zs) == {})
  }

  /** What a miss does to the map, after the lookup and whatever was evicted. */
  lemma MissMaps(m: M.MapState, q: seq<Loc>, k: nat, m': M.MapState, id: Id, l: Loc, ok: bool)
    requires M.TwoWay(m) && !M.Cached(m, id) && k <= |q|
    requires ok ==> l.zone < |m.inverse| && m' == M.Insert(Left(M.Find(m, id).0, q, k), id, l)
    requires !ok ==> m' == M.FailWrite(Left(M.Find(m, id).0, q, k), id)
    ensures MissMap(m, q[..k], m', id, l, ok)
  {
    var found := M.Find(m, id).0;
    M.FindKeeps(m, id);
    forall j, x | j != id ensures M.Maps(m', j, x) <==> M.Maps(found, j, x) && x !in q[..k] {
      assert M.Maps(Left(found, q, k), j, x) <==> M.Maps(found, j, x) && x !in q[..k];
    }
  }

  /** From `s`, the search for a slot has evicted what it had to, if anything. */
  ghost predicate Searched(lim: Limits, s: Snap, s': Snap) {
    && Z.Inv(s.zs) && lim.Reclaimed(s.zs, s.keys, s'.zs) && s'.tick == s.tick
    && var k := lim.Dropped(s.zs, |s.keys|); s'.m == Left(s.m, s.keys, k) && s'.keys == s.keys[k..]
  }

  lemma SearchedAtOnce(lim: Limits, s: Snap)
    requires Z.Inv(s.zs)
    ensures !Z.GetActive(s.zs).1.Evict? ==> Searched(lim, s, s)
  {
    LeftZero(s.m, s.keys);
  }

  /** From `s`, the search for a slot has got `l`, out of the zones `mid`. */
  ghost predicate SlotTaken(lim: Limits, s: Snap, mid: Z.Zones, l: Loc, s': Snap) {
    && Searched(lim, s, s'.(zs := mid))
    && Z.Inv(mid) && (s'.zs, Z.Granted(l)) == Z.GetActive(mid)
  }

  /** The write to `l` has ended, well or not. */
  ghost predicate WriteEnded(s: Snap, id: Id, l: Loc, ok: bool, s': Snap) {
    && Z.Inv(s.zs) && Z.InFlight(s.zs, l) && l.zone < |s.m.inverse|
    && s'.zs == (if ok then Z.Return(s.zs, l) else Z.Fail(s.zs, l))
    && s'.m == (if ok then M.Insert(s.m, id, l) else M.FailWrite(s.m, id))
    && s'.keys == s.keys + (if ok then [l] else [])
  }

  /** Put together: the lookup, the search for a slot, the write and its end. */
  lemma MissedBy(lim: Limits, s: Snap, id: Id, mid: Z.Zones, l: Loc, s1: Snap, ok: bool, s2: Snap)
    requires M.TwoWay(s.m) && !M.Cached(s.m, id)
    requires SlotTaken(lim, s.(m := M.Find(s.m, id).0), mid, l, s1) && WriteEnded(s1, id, l, ok, s2)
    ensures Missed(lim, s, id, ok, s2, mid)
  {
    MissMaps(s.m, s.keys, lim.Dropped(s.zs, |s.keys|), s2.m, id, l, ok);
  }

  /** The eviction's 32-bit arithmetic, in terms of the limits. */
  lemma EvictPlan(lim: Limits, listed: nat)
    requires lim.Valid() && listed <= lim.total
    ensures lim.Needed(listed) <==> listed != 0 && Sub32(lim.total, listed) <= lim.highChunks
    ensures lim.Needed(listed) ==>
      && Sub32(lim.lowChunks, Sub32(lim.total, listed)) == lim.Quota(listed)
      && (lim.Quota(listed) <= listed <==> lim.lowChunks <= lim.total)
      && lim.total - (listed - lim.Quota(listed)) == lim.lowChunks
  {
    Sub32Meaning(lim.total, listed);
    if lim.Needed(listed) {
      EvictArithmetic(lim.total, listed, lim.highChunks, lim.lowChunks);
    }
  }

  /** What holds of a full zone with no live chunk. */
  lemma DeadFacts(zs: Z.Zones, m: M.MapState, p: Pool, keys: seq<Loc>, maxChunks: nat, z: nat)
    requires Z.Inv(zs) && z in FullZones(zs) && Tracked(p, keys, maxChunks) && Agrees(m, keys)
    requires z < |p.inUse| && z < |m.inverse| && p.live[z] == 0
    ensures z in Dead(zs, keys) && zs.zone[z].cond == Z.Full && m.inverse[z] == map[]
    ensures FullZones(Z.Reset(zs, z)) == FullZones(zs) - {z}
  {
    LiveMeans(p, keys, maxChunks, z);
    DeadUnmapped(m, p, keys, maxChunks, z);
    FullAfterReset(zs, z);
  }

  /** With every zone full, a collection that ends well leaves a slot to be granted. */
  lemma ReclaimedServes(lim: Limits, zs: Z.Zones, keys: seq<Loc>, zs': Z.Zones)
    requires lim.Valid() && Z.Inv(zs) && Z.Inv(zs') && Z.GetActive(zs).1.Evict? && |zs.zone| > 0
    requires lim.Reclaimed(zs, keys, zs') && zs'.writes == 0
    ensures Z.GetActive(zs').1.Granted?
  {
    if lim.Verdict(zs, keys[lim.Dropped(zs, |keys|)..]).Enough? {
      assert zs'.free != [];
    } else {
      Z.RefusalMeaning(zs');
      assert 0 !in FullZones(zs');
    }
  }

  // ---------- what those endings mean, in plain terms ----------

  /** Every zone is FULL. */
  ghost predicate AllFull(zs: Z.Zones) {
    forall z :: 0 <= z < |zs.zone| ==> zs.zone[z].cond == Z.Full
  }

  /** Some FULL zone has a chunk on the list from place `from` on. */
  ghost predicate LiveFrom(zs: Z.Zones, keys: seq<Loc>, from: int) {
    exists i :: 0 <= i < |keys| && from <= i
                && keys[i].zone < |zs.zone| && zs.zone[keys[i].zone].cond == Z.Full
  }

  /** The number of FULL zones with no chunk on the list from place `from` on. */
  ghost function DeadFrom(zs: Z.Zones, keys: seq<Loc>, from: int): nat {
    var dead := set z | 0 <= z < |zs.zone| && zs.zone[z].cond == Z.Full
                        && (forall i :: 0 <= i < |keys| && from <= i ==> keys[i].zone != z);
    |dead|
  }

  lemma FromSuffix(zs: Z.Zones, keys: seq<Loc>, k: nat)
    requires k <= |keys|
    ensures DeadFrom(zs, keys, k) == |Dead(zs, keys[k..])|
    ensures LiveFrom(zs, keys, k) <==> !AllDead(zs, keys[k..])
  {
    var rest := keys[k..];
    forall z ensures NoneOf(rest, z) <==> forall i :: 0 <= i < |keys| && k <= i ==> keys[i].zone != z {
      assert forall i :: k <= i < |keys| ==> keys[i] == rest[i - k] && keys[i] in rest;
    }
    assert Dead(zs, rest) == set z | 0 <= z < |zs.zone| && zs.zone[z].cond == Z.Full
      && forall i :: 0 <= i < |keys| && k <= i ==> keys[i].zone != z;
    if !AllDead(zs, rest) {
      var z :| 0 <= z < |zs.zone| && zs.zone[z].cond == Z.Full && !NoneOf(rest, z);
      var l :| l in rest && l.zone == z;
      var j :| 0 <= j < |rest| && rest[j] == l;
      assert keys[k + j] == l;
    }
    if LiveFrom(zs, keys, k) {
      var i :| 0 <= i < |keys| && k <= i && keys[i].zone < |zs.zone| && zs.zone[keys[i].zone].cond == Z.Full;
      assert keys[i] == rest[i - k];
    }
  }

  /**
   * How a collection ends, in numbers: with zones enough if enough were free or there are
   * dead zones to make up; in migration only if a FULL zone has a chunk on the list.
   */
  lemma VerdictMeaning(lim: Limits, zs: Z.Zones, keys: seq<Loc>)
    ensures lim.Verdict(zs, keys).Enough? <==>
            |zs.free| > lim.highZones || |zs.free| + DeadFrom(zs, keys, 0) >= lim.lowZones
    ensures lim.Verdict(zs, keys).Migrates? <==>
            !lim.Verdict(zs, keys).Enough? && LiveFrom(zs, keys, 0)
  {
    assert keys[0..] == keys;
    FromSuffix(zs, keys, 0);
  }

  /** When an eviction has something to do, in numbers. */
  ghost predicate Pressed(lim: Limits, keys: seq<Loc>) {
    keys != [] && lim.total - |keys| <= lim.highChunks
  }

  /** How an eviction ends, in numbers; `low - (total - listed)` chunks are the ones to go. */
  lemma EvictFateMeaning(lim: Limits, zs: Z.Zones, keys: seq<Loc>)
    requires lim.Valid() && |keys| <= lim.total
    ensures lim.EvictFate(zs, keys).NotNeeded? <==> !Pressed(lim, keys)
    ensures lim.EvictFate(zs, keys).PopsEmpty? <==> Pressed(lim, keys) && lim.lowChunks > lim.total
    ensures lim.EvictFate(zs, keys) == Collected(Migrates) <==>
            var quota := lim.lowChunks - (lim.total - |keys|);
            && Pressed(lim, keys) && lim.lowChunks <= lim.total
            && |zs.free| <= lim.highZones && |zs.free| + DeadFrom(zs, keys, quota) < lim.lowZones
            && LiveFrom(zs, keys, quota)
  {
    if Pressed(lim, keys) && lim.lowChunks <= lim.total {
      var k := lim.Quota(|keys|);
      FromSuffix(zs, keys, k);
      FromSuffix(zs, keys[k..], 0);
      assert keys[k..][0..] == keys[k..];
      VerdictMeaning(lim, zs, keys[k..]);
    }
  }

  /**
   * When a get that misses returns, in numbers: unless every zone is FULL and no eviction is
   * called for, or the one called for has more chunks to invalidate than there are, or fewer
   * zones than wanted are left without a chunk on the list and another one has some.
   */
  lemma SlotFateMeaning(lim: Limits, zs: Z.Zones, keys: seq<Loc>)
    requires lim.Valid() && Z.Inv(zs) && |keys| <= lim.total
    ensures lim.SlotFate(zs, keys).Spins? <==> AllFull(zs) && !Pressed(lim, keys)
    ensures lim.SlotFate(zs, keys).Fault? <==> AllFull(zs) && Pressed(lim, keys) && lim.lowChunks > lim.total
    ensures lim.SlotFate(zs, keys).Migration? <==>
            var quota := lim.lowChunks - (lim.total - |keys|);
            && AllFull(zs) && Pressed(lim, keys) && lim.lowChunks <= lim.total
            && DeadFrom(zs, keys, quota) < lim.lowZones && LiveFrom(zs, keys, quota)
  {
    Z.RefusalMeaning(zs);
    EvictFateMeaning(lim, zs, keys);
  }

  /** How an eviction called for its own sake ends: it never spins, whatever the zones. */
  lemma EvictEndingMeaning(lim: Limits, zs: Z.Zones, keys: seq<Loc>)
    requires lim.Valid() && |keys| <= lim.total
    ensures !lim.EvictEnding(zs, keys).Spins?
    ensures lim.EvictEnding(zs, keys).Fault? <==> Pressed(lim, keys) && lim.lowChunks > lim.total
    ensures lim.EvictEnding(zs, keys).Migration? <==>
            var quota := lim.lowChunks - (lim.total - |keys|);
            && Pressed(lim, keys) && lim.lowChunks <= lim.total
            && |zs.free| <= lim.highZones && |zs.free| + DeadFrom(zs, keys, quota) < lim.lowZones
            && LiveFrom(zs, keys, quota)
  {
    EvictFateMeaning(lim, zs, keys);
  }

  /** An operation reaches migration only if a FULL zone has a chunk on the list past the quota. */
  lemma MigrationMeaning(lim: Limits, zs: Z.Zones, keys: seq<Loc>)
    requires lim.Valid() && Z.Inv(zs) && |keys| <= lim.total
    ensures lim.SlotFate(zs, keys).Migration? || lim.EvictEnding(zs, keys).Migration? ==>
            LiveFrom(zs, keys, lim.lowChunks - (lim.total - |keys|))
  {
    SlotFateMeaning(lim, zs, keys);
    EvictEndingMeaning(lim, zs, keys);
  }
}
